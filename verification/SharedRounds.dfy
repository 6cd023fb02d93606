/** Successive receives and batches over several captures (src/raw/shared.rs): which
    captures they serve, when every capture is served, and when one that always has
    datagrams ready is never served at all. */
module SharedRounds {
  import opened Wrappers
  import opened Config
  import opened Bits
  import opened SharedSpec
  import opened SharedInvariants
  import opened SharedReceive
  import opened SharedCursor

  // ---------------------------------------------------------------- receives

  ghost function RecvTimes(s: State, calls: nat): State {
    if calls == 0 then s else Recv(RecvTimes(s, calls - 1)).0
  }

  /** The next receive returns a packet read from the capture. */
  ghost predicate Serves(s: State, key: CaptureKey) {
    var (s', r) := Recv(s);
    r.Ok? && r.value.Some? && ReadFrom(s'.log, r.value.value, key)
  }

  /** One of the next `calls` receives returns a packet read from the capture. */
  ghost predicate ServedWithin(s: State, calls: nat, key: CaptureKey) {
    exists k: nat :: k < calls && Serves(RecvTimes(s, k), key)
  }

  // A queue that is not empty goes first.

  /** While packets are queued, as after a batch whose fill failed midway, receives hand
      those over in order and touch neither cursor nor sockets. */
  lemma {:induction false} QueueFirst(s: State, k: nat)
    requires k <= |s.pending|
    ensures RecvTimes(s, k) == s.(pending := s.pending[k..], delivered := s.delivered + SerialSeq(s.pending[..k]))
    ensures k < |s.pending| ==> Recv(RecvTimes(s, k)).1 == Ok(Some(s.pending[k]))
    decreases k
  {
    if k == 0 {
      assert s.pending[0..] == s.pending && SerialSeq(s.pending[..0]) == [];
      assert s.delivered + [] == s.delivered;
    } else {
      QueueFirst(s, k - 1);
      var before := RecvTimes(s, k - 1);
      assert before.pending[1..] == s.pending[k..];
      assert SerialSeq(s.pending[..k]) == SerialSeq(s.pending[..k - 1]) + SerialSeq(before.pending[..1]);
    }
  }

  lemma {:induction false} RecvTimesAdds(s: State, a: nat, b: nat)
    ensures RecvTimes(s, a + b) == RecvTimes(RecvTimes(s, a), b)
    decreases b
  {
    hide Recv;
    if b > 0 {
      RecvTimesAdds(s, a, b - 1);
    }
  }

  /** And once the queue is handed over, receives go on as from the state with an empty
      queue, which every law below speaks of. */
  lemma QueueThenLaws(s: State, k: nat) returns (rest: State)
    requires Inv(s)
    ensures rest == s.(pending := [], delivered := s.delivered + SerialSeq(s.pending)) && Inv(rest)
    ensures rest.order != [] ==> Idle(rest)
    ensures RecvTimes(s, |s.pending| + k) == RecvTimes(rest, k)
  {
    hide SubsOk, OpenOk, InstalledOk, QueueOk, LedgerOk, Recv, Hand;
    var n := |s.pending|;
    QueueFirst(s, n);
    RecvTimesAdds(s, n, k);
    rest := RecvTimes(s, n);
    assert s.pending[n..] == [] && s.pending[..n] == s.pending;
    var h := Hand(s, n);
    HandIs(s, n);
    HandKeepsInv(s, n, h.0, h.1);
  }

  lemma HandIs(s: State, n: nat)
    requires n <= |s.pending|
    ensures Hand(s, n).0 == s.(pending := s.pending[n..], delivered := s.delivered + SerialSeq(s.pending[..n]))
  {
  }

  // ---------------------------------------------------------------- batches

  ghost function BatchTimes(s: State, max: nat, calls: nat): State
    decreases calls
  {
    if calls == 0 then s else Batch(BatchTimes(s, max, calls - 1), max).0
  }

  /** The next batch of `max` returns, among others, a packet read from the capture. */
  ghost predicate BatchServes(s: State, max: nat, key: CaptureKey) {
    var (s', packets, e) := Batch(s, max);
    exists i :: 0 <= i < |packets| && ReadFrom(s'.log, packets[i], key)
  }

  ghost predicate BatchServedWithin(s: State, max: nat, calls: nat, key: CaptureKey) {
    exists k: nat :: k < calls && BatchServes(BatchTimes(s, max, k), max, key)
  }

  /** On an empty queue a batch is its loop. */
  lemma BatchIsLoop(s: State, max: nat)
    requires s.pending == []
    ensures Batch(s, max) == BatchLoop(s, max)
  {
    hide Fill;
    if max > 0 {
      assert SerialSeq(s.pending[..0]) == [] && s.pending[0..] == [];
      assert s.delivered + [] == s.delivered;
      assert Hand(s, 0) == (s, []);
      var loop := BatchLoop(s, max);
      assert [] + loop.1 == loop.1;
    }
  }

  /** A batch takes from the queue first: all of itself when the queue has enough, else
      the whole queue and then what a batch for the rest takes from the emptied state. */
  lemma BatchQueueFirst(s: State, max: nat) returns (rest: State)
    requires max > 0
    ensures |s.pending| >= max ==>
      Batch(s, max) == (s.(pending := s.pending[max..], delivered := s.delivered + SerialSeq(s.pending[..max])),
                        s.pending[..max], None)
    ensures |s.pending| < max ==>
      && rest == s.(pending := [], delivered := s.delivered + SerialSeq(s.pending))
      && var b := Batch(rest, max - |s.pending|); Batch(s, max) == (b.0, s.pending + b.1, b.2)
  {
    hide Fill;
    var n := AtMost(max, s);
    rest := Hand(s, n).0;
    if |s.pending| >= max {
      LoopEnds(rest);
      assert s.pending[..max] + [] == s.pending[..max];
    } else {
      assert s.pending[..n] == s.pending && s.pending[n..] == [];
      BatchIsLoop(rest, max - n);
    }
  }

  /** One turn of the batch loop, when its fill meets its target at the `j`th capture. */
  lemma LoopTurn(s: State, wanted: nat, j: nat) returns (taken: nat, packets: seq<Queued>, next: State)
    requires Idle(s) && wanted > 0 && j < |s.order|
    requires PassesFor(s, j, FillTarget(s, wanted)) && ReadyAt(s, KeyAhead(s, j), FillTarget(s, wanted))
    ensures 0 < taken == FillTarget(s, wanted) == |packets| <= wanted
    ensures Idle(next) && TakesFrom(s, j, taken, next) && AllReadFrom(next.log, packets, KeyAhead(s, j))
    ensures var rest := BatchLoop(next, wanted - taken); BatchLoop(s, wanted) == (rest.0, packets + rest.1, rest.2)
  {
    hide Passes, Distinct, Wanted, Fill, TakesFrom, KeyAhead;
    taken := FillTarget(s, wanted);
    var fill := Fill(s, wanted);
    FillLaw(s, wanted, j, fill.0, fill.1);
    packets := fill.0.pending;
    assert packets[..taken] == packets;
    next := Hand(fill.0, taken).0;
    HandedOver(s, j, taken, fill.0, next);
    assert AtMost(wanted, fill.0) == taken;
  }

  /** The law of one batch that fits the queue, whatever the other captures have to
      offer: passing over silent ones, it takes all its packets from the first capture
      that has enough, leaves the cursor two places past it, or one when it was the
      last visited, and does not touch the sockets further on. */
  lemma BatchLaw(s: State, max: nat, j: nat, s': State, packets: seq<Queued>, e: Option<McrxError>)
    requires Idle(s) && 0 < max <= s.limits.maxPending && j < |s.order| && (s', packets, e) == Batch(s, max)
    requires PassesFor(s, j, max) && ReadyAt(s, KeyAhead(s, j), max)
    ensures e == None && |packets| == max && AllReadFrom(s'.log, packets, KeyAhead(s, j))
    ensures Idle(s') && TakesFrom(s, j, max, s')
  {
    hide Passes, Distinct, Wanted, Batch, BatchLoop, TakesFrom, KeyAhead;
    BatchIsLoop(s, max);
    var taken, first, next := LoopTurn(s, max, j);
    LoopEnds(next);
    assert first + [] == first;
  }

  // ---------------------------------------------------------------- saturated captures

  /** The place served after `k` fills from `c`, when every capture is ready. */
  function Stride(c: nat, k: nat, n: nat): (r: nat)
    requires c < n
    ensures r < n
  {
    if k == 0 then c else Ahead(Stride(c, k - 1, n), Served(0, n), n)
  }

  lemma {:induction false} StrideAdds(c: nat, a: nat, b: nat, n: nat)
    requires c < n
    ensures Stride(Stride(c, a, n), b, n) == Stride(c, a + b, n)
    decreases b
  {
    if b > 0 {
      StrideAdds(c, a, b - 1, n);
    }
  }

  lemma StrideIsMod(c: nat, k: nat, n: nat)
    requires c < n
    ensures Stride(c, k, n) == (c + 2 * k) % n
  {
    var laps := Laps(c, k, n);
    ModOf(c + 2 * k, n, laps, Stride(c, k, n));
  }

  lemma {:induction false} Laps(c: nat, k: nat, n: nat) returns (laps: nat)
    requires c < n
    ensures c + 2 * k == laps * n + Stride(c, k, n)
  {
    if k == 0 {
      laps := 0;
    } else {
      var at := Stride(c, k - 1, n);
      var before := Laps(c, k - 1, n);
      var more := if n == 1 then 2 else if at + 2 >= n then 1 else 0;
      laps := before + more;
      assert laps * n == before * n + more * n;
    }
  }

  /** Taking from the capture at the cursor uses up only that capture's datagrams. */
  lemma ReadyAfter(s: State, taken: nat, count: nat, s': State)
    requires s.cursor < |s.order| && Ready(s, taken + count) && TakesFrom(s, 0, taken, s')
    ensures Ready(s', count)
  {
    hide Wanted;
    forall key | key in s'.order ensures ReadyAt(s', key, count) {
      assert ReadyAt(s, key, taken + count);
      if key == KeyAhead(s, 0) {
        ReadyLeft(s, s', key, taken, count);
      } else {
        assert SameSocket(s, s', key);
        ReadyKept(s, s', key, count);
      }
    }
  }

  lemma ReadyHere(s: State, count: nat, less: nat)
    requires Idle(s) && Ready(s, count) && less <= count
    ensures ReadyAt(s, KeyAhead(s, 0), less) && PassesFor(s, 0, less)
  {
    assert KeyAhead(s, 0) in s.order && ReadyAt(s, KeyAhead(s, 0), count);
  }

  /** The saturated law: when every capture has datagrams ready, successive single
      receives serve the places c, c + 2, c + 4, ... modulo n. */
  lemma CursorLaw(s: State, k: nat)
    requires Idle(s) && Ready(s, k + 1)
    ensures Serves(RecvTimes(s, k), s.order[(s.cursor + 2 * k) % |s.order|])
  {
    hide Ready, Recv;
    var now := RecvTimes(s, k);
    SaturatedReceives(s, k, 1, now);
    ReadyHere(now, 1, 1);
    var (next, r) := Recv(now);
    ReceiveLaw(now, 0, next, r);
    StrideIsMod(s.cursor, k, |s.order|);
  }

  lemma {:induction false} SaturatedReceives(s: State, k: nat, more: nat, now: State)
    requires Idle(s) && Ready(s, k + more) && now == RecvTimes(s, k)
    ensures Idle(now) && Ready(now, more) && SameEngine(s, now) && now.cursor == Stride(s.cursor, k, |s.order|)
    decreases k
  {
    hide Ready, Recv;
    if k > 0 {
      var before := RecvTimes(s, k - 1);
      SaturatedReceives(s, k - 1, more + 1, before);
      ReadyHere(before, more + 1, 1);
      ReceiveLaw(before, 0, now, Recv(before).1);
      ReadyAfter(before, 1, more, now);
    }
  }

  /** How many fills a batch of `wanted` packets takes, and in which of them the
      `i`th packet arrives. */
  function Fills(wanted: nat, room: nat): nat
    requires room > 0
  {
    if wanted <= room then (if wanted == 0 then 0 else 1) else 1 + Fills(wanted - room, room)
  }

  function FillOf(i: nat, room: nat): nat
    requires room > 0
  {
    if i < room then 0 else 1 + FillOf(i - room, room)
  }

  /** What a batch does to saturated captures: packet `i` comes from the place its
      fill serves. */
  ghost predicate BatchFollows(s: State, wanted: nat, end: State, packets: seq<Queued>)
    requires Idle(s)
  {
    && |packets| == wanted
    && forall i :: 0 <= i < wanted ==> ReadFrom(end.log, packets[i], Place(s, i))
  }

  /** The capture that serves the `i`th packet of a batch. */
  ghost function Place(s: State, i: nat): CaptureKey
    requires Idle(s)
  {
    s.order[Stride(s.cursor, FillOf(i, s.limits.maxPending), |s.order|)]
  }

  lemma {:induction false} SaturatedLoop(
    s: State, wanted: nat, more: nat, end: State, packets: seq<Queued>, e: Option<McrxError>)
    requires Idle(s) && Ready(s, wanted + more) && (end, packets, e) == BatchLoop(s, wanted)
    ensures e == None && Idle(end) && Ready(end, more) && SameEngine(s, end)
    ensures end.cursor == Stride(s.cursor, Fills(wanted, s.limits.maxPending), |s.order|)
    ensures BatchFollows(s, wanted, end, packets)
    decreases wanted
  {
    hide Ready, BatchLoop;
    LoopEnds(s);
    if wanted > 0 {
      var room := s.limits.maxPending;
      ReadyHere(s, wanted + more, FillTarget(s, wanted));
      var taken, first, next := LoopTurn(s, wanted, 0);
      ReadyAfter(s, taken, wanted - taken + more, next);
      var rest := BatchLoop(next, wanted - taken);
      SaturatedLoop(next, wanted - taken, more, rest.0, rest.1, rest.2);
      assert next.cursor == Stride(s.cursor, 1, |s.order|) by {
        assert Stride(s.cursor, 0, |s.order|) == s.cursor;
      }
      StrideAdds(s.cursor, 1, Fills(wanted - taken, room), |s.order|);
      FollowsOn(s, wanted, taken, first, next, end, rest.1);
    }
  }

  lemma LoopEnds(s: State)
    ensures BatchLoop(s, 0) == (s, [], None)
  {
  }

  lemma FollowsOn(
    s: State, wanted: nat, taken: nat, first: seq<Queued>, next: State, end: State, rest: seq<Queued>)
    requires Idle(s) && Idle(next) && taken == FillTarget(s, wanted) == |first| <= wanted && taken > 0
    requires SameEngine(s, next) && SameEngine(next, end) && next.cursor == Stride(s.cursor, 1, |s.order|)
    requires AllReadFrom(next.log, first, KeyAhead(s, 0)) && BatchFollows(next, wanted - taken, end, rest)
    ensures BatchFollows(s, wanted, end, first + rest)
  {
    hide Place, KeyAhead;
    var packets := first + rest;
    forall i | 0 <= i < wanted ensures ReadFrom(end.log, packets[i], Place(s, i)) {
      PlaceOn(s, wanted, taken, next, i);
      if i < taken {
        assert ReadFrom(next.log, first[i], KeyAhead(s, 0));
      } else {
        assert packets[i] == rest[i - taken] && ReadFrom(end.log, rest[i - taken], Place(next, i - taken));
      }
    }
  }

  lemma PlaceOn(s: State, wanted: nat, taken: nat, next: State, i: nat)
    requires Idle(s) && Idle(next) && taken == FillTarget(s, wanted) && i < wanted
    requires SameEngine(s, next) && next.cursor == Stride(s.cursor, 1, |s.order|)
    ensures i < taken ==> Place(s, i) == KeyAhead(s, 0)
    ensures i >= taken ==> Place(s, i) == Place(next, i - taken)
  {
    hide Distinct;
    if i >= taken {
      StrideAdds(s.cursor, 1, FillOf(i - taken, s.limits.maxPending), |s.order|);
    }
  }

  /** The number of the fill, counted from the first batch, that brings the `i`th
      packet of the `k`th batch of `max`. */
  function FillNumber(k: nat, max: nat, i: nat, room: nat): nat
    requires room > 0
  {
    k * Fills(max, room) + FillOf(i, room)
  }

  /** The saturated law for batches: with room for r packets in the queue, the `i`th
      packet of the `k`th batch of `max` comes from the place of fill kF + i / r, where
      F is the number of fills a batch takes; the place of fill f is c + 2f modulo n. A
      batch that fits the queue is one fill, so successive batches serve the places
      c, c + 2, c + 4, ... modulo n. */
  lemma BatchCursorLaw(s: State, max: nat, k: nat, i: nat)
    requires Idle(s) && Ready(s, (k + 1) * max) && i < max
    ensures var now := BatchTimes(s, max, k);
      var (end, packets, e) := Batch(now, max);
      && e == None && |packets| == max
      && ReadFrom(end.log, packets[i],
           s.order[Stride(s.cursor, FillNumber(k, max, i, s.limits.maxPending), |s.order|)])
  {
    hide Ready, Batch, BatchLoop, Fills, FillOf;
    var room, now := s.limits.maxPending, BatchTimes(s, max, k);
    assert (k + 1) * max == k * max + max;
    SaturatedBatches(s, max, k, max, now);
    BatchIsLoop(now, max);
    var b := BatchLoop(now, max);
    SaturatedLoop(now, max, 0, b.0, b.1, b.2);
    assert ReadFrom(b.0.log, b.1[i], Place(now, i));
    StrideAdds(s.cursor, k * Fills(max, room), FillOf(i, room), |s.order|);
  }

  lemma {:induction false} SaturatedBatches(s: State, max: nat, k: nat, more: nat, now: State)
    requires Idle(s) && Ready(s, k * max + more) && now == BatchTimes(s, max, k)
    ensures Idle(now) && Ready(now, more) && SameEngine(s, now)
    ensures now.cursor == Stride(s.cursor, k * Fills(max, s.limits.maxPending), |s.order|)
    decreases k
  {
    hide Ready, Batch, BatchLoop, Fills;
    if k == 0 {
      assert 0 * Fills(max, s.limits.maxPending) == 0;
    } else {
      var before, fills := BatchTimes(s, max, k - 1), Fills(max, s.limits.maxPending);
      assert k * max + more == (k - 1) * max + (max + more);
      SaturatedBatches(s, max, k - 1, max + more, before);
      BatchIsLoop(before, max);
      var b := BatchLoop(before, max);
      SaturatedLoop(before, max, more, b.0, b.1, b.2);
      assert k * fills == (k - 1) * fills + fills;
      StrideAdds(s.cursor, (k - 1) * fills, fills, |s.order|);
    }
  }

  /** Batches that fit the queue serve the places c, c + 2, c + 4, ... modulo n, all
      packets of one batch coming from one capture. */
  lemma SmallBatchCursorLaw(s: State, max: nat, k: nat, i: nat)
    requires Idle(s) && Ready(s, (k + 1) * max) && max <= s.limits.maxPending && i < max
    ensures var (end, packets, e) := Batch(BatchTimes(s, max, k), max);
      && e == None && |packets| == max
      && ReadFrom(end.log, packets[i], s.order[(s.cursor + 2 * k) % |s.order|])
  {
    hide Ready, Batch;
    BatchCursorLaw(s, max, k, i);
    assert FillNumber(k, max, i, s.limits.maxPending) == k;
    StrideIsMod(s.cursor, k, |s.order|);
  }

  // ---------------------------------------------------------------- parity

  /** The step at which an odd cycle of stride two reaches `target` from `c`. */
  function StepsTo(c: nat, target: nat, n: nat): nat
    requires c < n && target < n
  {
    var d := if target >= c then target - c else target + n - c;
    if d % 2 == 0 then d / 2 else (d + n) / 2
  }

  lemma OddReaches(c: nat, target: nat, n: nat)
    requires c < n && target < n && n % 2 == 1
    ensures StepsTo(c, target, n) < n && Stride(c, StepsTo(c, target, n), n) == target
  {
    var total := c + 2 * StepsTo(c, target, n);
    var q := if total == target then 0 else if total == target + n then 1 else 2;
    assert q * n == if q == 0 then 0 else if q == 1 then n else n + n;
    ModOf(total, n, q, target);
    StrideIsMod(c, StepsTo(c, target, n), n);
  }

  lemma {:induction false} StrideParity(c: nat, k: nat, n: nat)
    requires c < n && n % 2 == 0
    ensures Stride(c, k, n) % 2 == c % 2
  {
    if k > 0 {
      StrideParity(c, k - 1, n);
    }
  }

  /** With an even number of captures, all saturated, the one after the cursor is
      served by no receive. */
  lemma EvenStarves(s: State, calls: nat)
    requires Idle(s) && Ready(s, calls) && |s.order| % 2 == 0
    ensures !ServedWithin(s, calls, KeyAhead(s, 1))
  {
    hide Ready, Recv;
    var n := |s.order|;
    forall k: nat | k < calls ensures !Serves(RecvTimes(s, k), KeyAhead(s, 1)) {
      LessReady(s, calls, k + 1);
      CursorLaw(s, k);
      EvenSkips(s, k);
      ServesOne(RecvTimes(s, k), s.order[Stride(s.cursor, k, n)], KeyAhead(s, 1));
    }
  }

  lemma EvenSkips(s: State, k: nat)
    requires Distinct(s.order) && s.cursor < |s.order| && |s.order| % 2 == 0
    ensures Stride(s.cursor, k, |s.order|) == (s.cursor + 2 * k) % |s.order|
    ensures s.order[Stride(s.cursor, k, |s.order|)] != KeyAhead(s, 1)
  {
    StrideIsMod(s.cursor, k, |s.order|);
    StrideParity(s.cursor, k, |s.order|);
  }

  lemma LessReady(s: State, count: nat, less: nat)
    requires Ready(s, count) && less <= count
    ensures Ready(s, less)
  {
    forall key | key in s.order ensures ReadyAt(s, key, less) {
      assert ReadyAt(s, key, count);
    }
  }

  lemma ServesOne(s: State, a: CaptureKey, b: CaptureKey)
    requires Serves(s, a) && a != b
    ensures !Serves(s, b)
  {
    hide Recv;
  }

  /** In the same state no batch, of whatever size, returns one of its packets. */
  lemma EvenStarvesBatches(s: State, max: nat, calls: nat)
    requires Idle(s) && Ready(s, calls * max) && |s.order| % 2 == 0
    ensures !BatchServedWithin(s, max, calls, KeyAhead(s, 1))
  {
    hide Ready, Batch, Fills, FillOf;
    var n, room := |s.order|, s.limits.maxPending;
    forall k: nat | k < calls ensures !BatchServes(BatchTimes(s, max, k), max, KeyAhead(s, 1)) {
      FewerTimes(calls, k + 1, max);
      LessReady(s, calls * max, (k + 1) * max);
      var b := Batch(BatchTimes(s, max, k), max);
      BatchSize(s, max, k, b.1);
      forall i | 0 <= i < |b.1| ensures !ReadFrom(b.0.log, b.1[i], KeyAhead(s, 1)) {
        BatchCursorLaw(s, max, k, i);
        var step := FillNumber(k, max, i, room);
        EvenSkips(s, step);
      }
    }
  }

  lemma BatchSize(s: State, max: nat, k: nat, packets: seq<Queued>)
    requires Idle(s) && Ready(s, (k + 1) * max) && packets == Batch(BatchTimes(s, max, k), max).1
    ensures |packets| == max
  {
    hide Ready, Batch, Fills, FillOf, BatchLoop;
    if max > 0 {
      BatchCursorLaw(s, max, k, 0);
    } else {
      var now := BatchTimes(s, max, k);
      assert (k + 1) * max == k * max + max;
      SaturatedBatches(s, max, k, max, now);
      BatchIsLoop(now, max);
      LoopEnds(now);
    }
  }

  /** Single receives over n saturated captures serve all of them within n receives
      exactly when n is odd. */
  lemma RoundRobinIffOdd(s: State)
    requires Idle(s) && Ready(s, |s.order|)
    ensures (forall key :: key in s.order ==> ServedWithin(s, |s.order|, key)) <==> |s.order| % 2 == 1
  {
    hide Ready, Recv;
    var n := |s.order|;
    if n % 2 == 1 {
      forall key | key in s.order ensures ServedWithin(s, n, key) {
        var target: nat :| target < n && s.order[target] == key;
        OddReaches(s.cursor, target, n);
        var k := StepsTo(s.cursor, target, n);
        LessReady(s, n, k + 1);
        CursorLaw(s, k);
        StrideIsMod(s.cursor, k, n);
        assert Serves(RecvTimes(s, k), key);
      }
    } else {
      EvenStarves(s, n);
      assert KeyAhead(s, 1) in s.order;
    }
  }

  /** So do batches, of whatever size: each of n saturated captures has a packet in
      one of the next n batches exactly when n is odd. */
  lemma BatchRoundRobinIffOdd(s: State, max: nat)
    requires Idle(s) && max > 0 && Ready(s, |s.order| * max)
    ensures (forall key :: key in s.order ==> BatchServedWithin(s, max, |s.order|, key)) <==> |s.order| % 2 == 1
  {
    hide Ready, Batch, Fills, FillOf;
    var n := |s.order|;
    if n % 2 == 1 {
      forall key | key in s.order ensures BatchServedWithin(s, max, n, key) {
        var target: nat :| target < n && s.order[target] == key;
        OddReaches(s.cursor, target, n);
        FillServes(s, max, StepsTo(s.cursor, target, n));
      }
    } else {
      EvenStarvesBatches(s, max, n);
      assert KeyAhead(s, 1) in s.order;
    }
  }

  /** The `step`th fill from now belongs to one of the next `step + 1` batches, which
      returns a packet of the place it serves. */
  lemma FillServes(s: State, max: nat, step: nat)
    requires Idle(s) && max > 0 && step < |s.order| && Ready(s, |s.order| * max)
    ensures BatchServedWithin(s, max, |s.order|, s.order[Stride(s.cursor, step, |s.order|)])
  {
    hide Ready, Batch, Fills, FillOf;
    var n, room := |s.order|, s.limits.maxPending;
    var k, i := FillPosition(max, room, step);
    FewerTimes(n, k + 1, max);
    LessReady(s, n * max, (k + 1) * max);
    BatchCursorLaw(s, max, k, i);
    BatchServesAt(s, max, k, i, s.order[Stride(s.cursor, step, n)]);
  }

  lemma FewerTimes(n: nat, k: nat, m: nat)
    requires k <= n
    ensures k * m <= n * m
  {
    assert n * m == k * m + (n - k) * m;
  }

  lemma BatchServesAt(s: State, max: nat, k: nat, i: nat, key: CaptureKey)
    requires var b := Batch(BatchTimes(s, max, k), max); i < |b.1| && ReadFrom(b.0.log, b.1[i], key)
    ensures BatchServes(BatchTimes(s, max, k), max, key)
  {
    hide Batch;
  }

  /** Which batch, and which of its packets, the `step`th fill brings. */
  lemma {:induction false} FillPosition(max: nat, room: nat, step: nat) returns (k: nat, i: nat)
    requires room > 0 && max > 0
    ensures k <= step && i < max && k * Fills(max, room) + FillOf(i, room) == step
    decreases step
  {
    var fills := Fills(max, room);
    if step < fills {
      k := 0;
      i := FirstOf(max, room, step);
      assert 0 * fills == 0;
    } else {
      k, i := FillPosition(max, room, step - fills);
      assert (k + 1) * fills == k * fills + fills;
      k := k + 1;
    }
  }

  lemma {:induction false} FirstOf(max: nat, room: nat, fill: nat) returns (i: nat)
    requires room > 0 && fill < Fills(max, room)
    ensures i < max && FillOf(i, room) == fill
    decreases fill
  {
    if fill == 0 {
      i := 0;
    } else {
      i := FirstOf(max - room, room, fill - 1);
      i := i + room;
    }
  }
}
