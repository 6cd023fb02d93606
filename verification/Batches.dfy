/** Batch results: the state reached, the packets appended to the caller's vector,
    and the error that ended the batch, if any. */
module Batches {
  import opened Wrappers

  type BatchResult<S, P, E> = (S, seq<P>, Option<E>)

  /** The whole batch is what was appended so far, then what the loop still does. */
  ghost predicate Continues<S, P, E>(batch: BatchResult<S, P, E>, soFar: seq<P>, loop: BatchResult<S, P, E>) {
    batch.0 == loop.0 && batch.1 == soFar + loop.1 && batch.2 == loop.2
  }

  lemma ContinuesToEnd<S, P, E>(batch: BatchResult<S, P, E>, soFar: seq<P>, loop: BatchResult<S, P, E>)
    requires Continues(batch, soFar, loop) && loop.1 == []
    ensures batch == (loop.0, soFar, loop.2)
  {
    assert soFar + [] == soFar;
  }
}
