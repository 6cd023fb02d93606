/** The background worker protocol of the C interface (mcrx-core-ffi/src/lib.rs):
    generation-tagged start, stop and restart over two atomics and a mutex-guarded
    handle slot, as interleaved steps of any number of callers and workers under
    sequential consistency. A worker inside its callback is itself a caller. */
module Worker {
  import opened Wrappers
  import opened Bits

  // ---------------------------------------------------------------- generations

  /** The number of generations before the counter repeats: 2^64 - 1. */
  const GENERATIONS: nat := 0xffff_ffff_ffff_ffff

  /** fetch_update's closure: wrapping_add(1).max(1) on a u64. */
  function Bump(current: nat): (r: nat) {
    var next := (current + 1) % 0x1_0000_0000_0000_0000;
    if next < 1 then 1 else next
  }

  /** The generation handed to the k-th start, counting from 0. */
  function Generation(k: nat): (r: nat)
    ensures r != 0
  {
    1 + k % 0xffff_ffff_ffff_ffff
  }

  /** The counter, bumped k times from 1, is the k-th generation. */
  lemma BumpIsNext(k: nat)
    ensures Bump(Generation(k)) == Generation(k + 1)
  {
    var m, r := 0xffff_ffff_ffff_ffff, k % 0xffff_ffff_ffff_ffff;
    if r + 1 < m {
      ModOf(k + 1, m, k / m, r + 1);
    } else {
      ModOf(k + 1, m, k / m + 1, 0);
    }
  }

  /** Two starts share a generation exactly when they are a multiple of 2^64 - 1
      starts apart; in particular none of the first 2^64 - 1 starts do, and the
      next one repeats the first. */
  lemma GenerationsCollide(j: nat, k: nat)
    requires j <= k
    ensures Generation(j) == Generation(k) <==> (k - j) % GENERATIONS == 0
    ensures k < GENERATIONS ==> (Generation(j) == Generation(k) <==> j == k)
    ensures Generation(GENERATIONS) == Generation(0)
  {
    var m := 0xffff_ffff_ffff_ffff;
    var a, b, d := j % m, k % m, (k - j) % m;
    assert j == j / m * m + a && k == k / m * m + b && k - j == (k - j) / m * m + d;
    if a == b {
      ModOf(k - j, m, k / m - j / m, 0);
    }
    if d == 0 {
      ModOf(k, m, (k - j) / m + j / m, a);
    }
  }

  // ---------------------------------------------------------------- the machine

  datatype Caller = External(thread: nat) | InCallback(worker: nat)

  /** Where a caller is inside `start` or `stop`. */
  datatype Pc =
    | Idle
    | Inspecting          // start: holds the lock, looks at the slot
    | Fetching            // start: slot empty or finished
    | Storing(start: nat) // start: has its generation
    | Spawning(start: nat)
    | Taking              // stop: has stored 0, wants the lock
    | Joining(worker: nat)

  datatype LoopPc = LoopTop | Receiving | Calling | Calledback | Waiting | Erring | Finished

  /** A worker thread: which start spawned it, where it is, and how many receives
      and callbacks it has made. */
  datatype Thread = Thread(start: nat, pc: LoopPc, receives: nat, callbacks: nat)

  datatype State = State(
    active: nat,
    next: nat,
    issued: nat,
    holder: Option<Caller>,
    slot: Option<nat>,
    workers: seq<Thread>,
    pcs: map<Caller, Pc>)
  {
    function PcOf(c: Caller): Pc {
      if c in pcs then pcs[c] else Idle
    }

    /** A thread outside the library, or a worker whose callback is running. */
    predicate CanCall(c: Caller) {
      c.InCallback? ==> c.worker < |workers| && workers[c.worker].pc.Calledback?
    }

    /** The generation the worker compares against. */
    function GenerationOf(w: nat): nat
      requires w < |workers|
    {
      Generation(workers[w].start)
    }

    function At(c: Caller, pc: Pc): State {
      this.(pcs := pcs[c := pc])
    }

    function WorkerAt(w: nat, t: Thread): State
      requires w < |workers|
    {
      this.(workers := workers[w := t])
    }
  }

  const INITIAL := State(0, 1, 0, None, None, [], map[])

  datatype Outcome = GotPacket | GotNothing | GotError

  datatype Step =
    | StartLock(c: Caller)
    | StartInspect(c: Caller)
    | StartFetch(c: Caller)
    | StartStore(c: Caller)
    | StartSpawn(c: Caller)
    | StopStore(c: Caller)
    | StopTake(c: Caller)
    | StopJoin(c: Caller)
    | Check(w: nat)
    | Receive(w: nat, outcome: Outcome)
    | Call(w: nat)
    | Return(w: nat)
    | Wake(w: nat)
    | WaitFails(w: nat)
    | StopWithError(w: nat)

  predicate Enabled(s: State, step: Step) {
    match step
    case StartLock(c) => s.CanCall(c) && s.PcOf(c).Idle? && s.holder.None?
    case StartInspect(c) => s.PcOf(c).Inspecting? && (s.slot.Some? ==> s.slot.value < |s.workers|)
    case StartFetch(c) => s.PcOf(c).Fetching?
    case StartStore(c) => s.PcOf(c).Storing?
    case StartSpawn(c) => s.PcOf(c).Spawning?
    case StopStore(c) => s.CanCall(c) && s.PcOf(c).Idle?
    case StopTake(c) => s.PcOf(c).Taking? && s.holder.None?
    case StopJoin(c) => s.PcOf(c).Joining? && s.PcOf(c).worker < |s.workers|
                        && s.workers[s.PcOf(c).worker].pc.Finished?
    case Check(w) => w < |s.workers| && s.workers[w].pc.LoopTop?
    case Receive(w, _) => w < |s.workers| && s.workers[w].pc.Receiving?
    case Call(w) => w < |s.workers| && s.workers[w].pc.Calling?
    case Return(w) => w < |s.workers| && s.workers[w].pc.Calledback? && s.PcOf(InCallback(w)).Idle?
    case Wake(w) => w < |s.workers| && s.workers[w].pc.Waiting?
    case WaitFails(w) => w < |s.workers| && s.workers[w].pc.Waiting?
    case StopWithError(w) => w < |s.workers| && s.workers[w].pc.Erring?
  }

  function Apply(s: State, step: Step): State
    requires Enabled(s, step)
  {
    match step
    case StartLock(c) => s.(holder := Some(c)).At(c, Inspecting)
    case StartInspect(c) =>
      // A finished handle is joined; a running one ends the call with ALREADY_RUNNING.
      if s.slot.None? || s.workers[s.slot.value].pc.Finished? then s.(slot := None).At(c, Fetching)
      else s.(holder := None).At(c, Idle)
    case StartFetch(c) => s.(next := Bump(s.next), issued := s.issued + 1).At(c, Storing(s.issued))
    case StartStore(c) => s.(active := Generation(s.PcOf(c).start)).At(c, Spawning(s.PcOf(c).start))
    case StartSpawn(c) =>
      s.(workers := s.workers + [Thread(s.PcOf(c).start, LoopTop, 0, 0)], slot := Some(|s.workers|), holder := None)
       .At(c, Idle)
    case StopStore(c) => s.(active := 0).At(c, Taking)
    case StopTake(c) =>
      // A worker stopping itself from its callback detaches its own handle.
      s.(slot := None).At(c, if s.slot.None? || c == InCallback(s.slot.value) then Idle else Joining(s.slot.value))
    case StopJoin(c) => s.At(c, Idle)
    case Check(w) =>
      s.WorkerAt(w, s.workers[w].(pc := if s.active == s.GenerationOf(w) then Receiving else Finished))
    case Receive(w, outcome) =>
      s.WorkerAt(w, s.workers[w].(
        receives := s.workers[w].receives + 1,
        pc := match outcome case GotPacket => Calling case GotNothing => Waiting case GotError => Erring))
    case Call(w) => s.WorkerAt(w, s.workers[w].(callbacks := s.workers[w].callbacks + 1, pc := Calledback))
    case Return(w) => s.WorkerAt(w, s.workers[w].(pc := LoopTop))
    case Wake(w) => s.WorkerAt(w, s.workers[w].(pc := LoopTop))
    case WaitFails(w) => s.WorkerAt(w, s.workers[w].(pc := Erring))
    case StopWithError(w) =>
      // compare_exchange(generation, 0)
      s.(active := if s.active == s.GenerationOf(w) then 0 else s.active).WorkerAt(w, s.workers[w].(pc := Finished))
  }

  /** Any schedule: a step that is not enabled is passed over. */
  function Run(s: State, steps: seq<Step>): State
    decreases steps
  {
    if steps == [] then s else Run(if Enabled(s, steps[0]) then Apply(s, steps[0]) else s, steps[1..])
  }

  // ---------------------------------------------------------------- invariant

  predicate InStart(pc: Pc) {
    pc.Inspecting? || pc.Fetching? || pc.Storing? || pc.Spawning?
  }

  /** The start, if any, that has a generation but no worker yet. */
  predicate Pending(pc: Pc) {
    pc.Storing? || pc.Spawning?
  }

  ghost predicate LockOk(s: State) {
    forall c :: InStart(s.PcOf(c)) <==> s.holder == Some(c)
  }

  /** Workers come from distinct starts, in order, and one start at most, the last,
      is still on its way to a worker. */
  ghost predicate StartsOk(s: State) {
    && s.next == Generation(s.issued)
    && (forall i, j :: 0 <= i < j < |s.workers| ==> s.workers[i].start < s.workers[j].start)
    && (forall i :: 0 <= i < |s.workers| ==> s.workers[i].start < s.issued)
    && (s.slot.Some? ==> s.slot.value < |s.workers|)
    && PendingsOk(s)
  }

  ghost predicate PendingsOk(s: State) {
    forall c :: Pending(s.PcOf(c)) ==> PendingOk(s, c)
  }

  ghost predicate PendingOk(s: State, c: Caller)
    requires Pending(s.PcOf(c))
  {
    && s.PcOf(c).start + 1 == s.issued
    && forall i :: 0 <= i < |s.workers| ==> s.workers[i].start < s.PcOf(c).start
  }

  /** The active generation is none, a worker's, or that of the start about to
      spawn. */
  ghost predicate ActiveOk(s: State) {
    s.active == 0 || exists k: nat :: k < s.issued && s.active == Generation(k)
  }

  ghost predicate Inv(s: State) {
    LockOk(s) && StartsOk(s) && ActiveOk(s)
  }

  lemma LockKept(s: State, step: Step, s': State)
    requires LockOk(s) && Enabled(s, step) && s' == Apply(s, step)
    ensures LockOk(s')
  {
  }

  lemma PendingsKept(s: State, step: Step, s': State)
    requires LockOk(s) && StartsOk(s) && Enabled(s, step) && s' == Apply(s, step)
    ensures PendingsOk(s')
  {
    forall c | Pending(s'.PcOf(c)) ensures PendingOk(s', c) {
      if Pending(s.PcOf(c)) {
        assert PendingOk(s, c);
      }
    }
  }

  lemma StartsKept(s: State, step: Step, s': State)
    requires LockOk(s) && StartsOk(s) && Enabled(s, step) && s' == Apply(s, step)
    ensures StartsOk(s')
  {
    PendingsKept(s, step, s');
    BumpIsNext(s.issued);
    if step.StartSpawn? {
      assert PendingOk(s, step.c);
    }
    hide LockOk, PendingsOk;
  }

  lemma ActiveKept(s: State, step: Step, s': State)
    requires StartsOk(s) && ActiveOk(s) && Enabled(s, step) && s' == Apply(s, step)
    ensures ActiveOk(s')
  {
    if step.StartStore? {
      assert PendingOk(s, step.c);
    }
  }

  lemma {:induction false} RunKeepsInv(s: State, steps: seq<Step>)
    requires Inv(s)
    ensures Inv(Run(s, steps))
    decreases steps
  {
    if steps != [] {
      var s' := if Enabled(s, steps[0]) then Apply(s, steps[0]) else s;
      if Enabled(s, steps[0]) {
        StepKeepsInv(s, steps[0], s');
      }
      RunKeepsInv(s', steps[1..]);
    }
  }

  lemma ReachableInv(steps: seq<Step>)
    ensures Inv(Run(INITIAL, steps))
  {
    RunKeepsInv(INITIAL, steps);
  }

  // ---------------------------------------------------------------- safety

  /** Fewer starts than the counter has generations. */
  predicate FewStarts(s: State) {
    s.issued <= GENERATIONS
  }

  /** Worker generations are non-zero and, within 2^64 - 1 starts, distinct; so at
      most one worker matches the active generation. */
  lemma AtMostOneActive(s: State, i: nat, j: nat)
    requires Inv(s) && FewStarts(s) && i < |s.workers| && j < |s.workers|
    ensures s.GenerationOf(i) != 0
    ensures s.GenerationOf(i) == s.GenerationOf(j) <==> i == j
    ensures s.active == s.GenerationOf(i) && s.active == s.GenerationOf(j) ==> i == j
  {
    var a, b := s.workers[i].start, s.workers[j].start;
    GenerationsCollide(if a <= b then a else b, if a <= b then b else a);
  }

  /** The receives and callbacks a worker may still make without passing its
      generation check again. */
  function ReceivesLeft(pc: LoopPc): nat {
    if pc.Receiving? then 1 else 0
  }

  function CallbacksLeft(pc: LoopPc): nat {
    if pc.Receiving? || pc.Calling? then 1 else 0
  }

  /** Worker `w`, invalid in `s`, is invalid in `s'` and made no receive or callback
      beyond those it was already past its check for. */
  ghost predicate StaysStale(s: State, s': State, w: nat)
    requires w < |s.workers|
  {
    && w < |s'.workers| && s'.workers[w].start == s.workers[w].start
    && s'.active != s'.GenerationOf(w)
    && s'.workers[w].receives + ReceivesLeft(s'.workers[w].pc) <= s.workers[w].receives + ReceivesLeft(s.workers[w].pc)
    && s'.workers[w].callbacks + CallbacksLeft(s'.workers[w].pc)
       <= s.workers[w].callbacks + CallbacksLeft(s.workers[w].pc)
  }

  lemma StaleStep(s: State, step: Step, s': State, w: nat)
    requires Inv(s) && Enabled(s, step) && s' == Apply(s, step) && FewStarts(s')
    requires w < |s.workers| && s.active != s.GenerationOf(w)
    ensures StaysStale(s, s', w)
  {
    hide LockOk, ActiveOk;
    if step.StartStore? {
      assert PendingOk(s, step.c);
      GenerationsCollide(s.workers[w].start, s.PcOf(step.c).start);
    }
  }

  lemma {:induction false} IssuedGrows(s: State, steps: seq<Step>)
    ensures s.issued <= Run(s, steps).issued
    decreases steps
  {
    if steps != [] {
      IssuedGrows(if Enabled(s, steps[0]) then Apply(s, steps[0]) else s, steps[1..]);
    }
  }

  /** An invalidated worker never becomes active again, however long the run and
      whoever starts, stops or fails meanwhile, and makes at most one more receive
      and one more callback: those it was already past its check for. */
  lemma {:induction false} StaleForever(s: State, steps: seq<Step>, w: nat, end: State)
    requires Inv(s) && end == Run(s, steps) && FewStarts(end)
    requires w < |s.workers| && s.active != s.GenerationOf(w)
    ensures StaysStale(s, end, w)
    decreases steps
  {
    hide Inv;
    if steps != [] {
      var s' := if Enabled(s, steps[0]) then Apply(s, steps[0]) else s;
      RunKeepsInv(s, [steps[0]]);
      assert Run(s, [steps[0]]) == s' by {
        assert [steps[0]][1..] == [];
      }
      IssuedGrows(s', steps[1..]);
      if Enabled(s, steps[0]) {
        StaleStep(s, steps[0], s', w);
      }
      StaleForever(s', steps[1..], w, end);
    }
  }

  /** The worker that takes a step, if it is a worker's own. */
  function Taker(step: Step): Option<nat> {
    match step
    case Check(w) => Some(w)
    case Receive(w, _) => Some(w)
    case Call(w) => Some(w)
    case Return(w) => Some(w)
    case Wake(w) => Some(w)
    case WaitFails(w) => Some(w)
    case StopWithError(w) => Some(w)
    case _ => None
  }

  /** The steps of its own that worker `w` takes during a run. */
  function OwnSteps(s: State, steps: seq<Step>, w: nat): nat
    decreases steps
  {
    if steps == [] then 0
    else if !Enabled(s, steps[0]) then OwnSteps(s, steps[1..], w)
    else (if Taker(steps[0]) == Some(w) then 1 else 0) + OwnSteps(Apply(s, steps[0]), steps[1..], w)
  }

  /** The most steps of its own an invalidated worker has left. */
  function StepsLeft(pc: LoopPc): nat {
    match pc
    case Receiving => 4
    case Calling => 3
    case Calledback => 2
    case Waiting => 2
    case LoopTop => 1
    case Erring => 1
    case Finished => 0
  }

  lemma StaleStepCounts(s: State, step: Step, s': State, w: nat)
    requires Enabled(s, step) && s' == Apply(s, step) && w < |s.workers| && s.active != s.GenerationOf(w)
    ensures w < |s'.workers|
    ensures StepsLeft(s'.workers[w].pc) + (if Taker(step) == Some(w) then 1 else 0) <= StepsLeft(s.workers[w].pc)
  {
  }

  /** An invalidated worker takes at most four more steps of its own, whatever everyone
      else does, and when it has taken those it had left it is finished. */
  lemma {:induction false} StaleFinishes(s: State, steps: seq<Step>, w: nat, end: State)
    requires Inv(s) && end == Run(s, steps) && FewStarts(end)
    requires w < |s.workers| && s.active != s.GenerationOf(w)
    ensures w < |end.workers|
    ensures OwnSteps(s, steps, w) + StepsLeft(end.workers[w].pc) <= StepsLeft(s.workers[w].pc) <= 4
    ensures OwnSteps(s, steps, w) == StepsLeft(s.workers[w].pc) ==> end.workers[w].pc.Finished?
    decreases steps
  {
    hide Inv, FewStarts;
    if steps != [] {
      var s' := if Enabled(s, steps[0]) then Apply(s, steps[0]) else s;
      if Enabled(s, steps[0]) {
        StepKeepsInv(s, steps[0], s');
        FewerStarts(s', steps[1..], end);
        StaleStep(s, steps[0], s', w);
        StaleStepCounts(s, steps[0], s', w);
      }
      StaleFinishes(s', steps[1..], w, end);
    }
  }

  lemma StepKeepsInv(s: State, step: Step, s': State)
    requires Inv(s) && Enabled(s, step) && s' == Apply(s, step)
    ensures Inv(s')
  {
    hide LockOk, StartsOk, ActiveOk;
    LockKept(s, step, s');
    StartsKept(s, step, s');
    ActiveKept(s, step, s');
  }

  lemma FewerStarts(s: State, steps: seq<Step>, end: State)
    requires end == Run(s, steps) && FewStarts(end)
    ensures FewStarts(s)
  {
    IssuedGrows(s, steps);
  }

  /** Nothing but a call its own callback is making can keep an unfinished worker from
      its next step: waiting for packets ends by itself. */
  lemma UnfinishedCanStep(s: State, w: nat) returns (step: Step)
    requires w < |s.workers| && !s.workers[w].pc.Finished?
    requires s.workers[w].pc.Calledback? ==> s.PcOf(InCallback(w)).Idle?
    ensures Taker(step) == Some(w) && Enabled(s, step)
  {
    step := match s.workers[w].pc
      case LoopTop => Check(w)
      case Receiving => Receive(w, GotNothing)
      case Calling => Call(w)
      case Calledback => Return(w)
      case Waiting => Wake(w)
      case Erring => StopWithError(w)
      case Finished => Check(w);
  }

  /** Once stop has stored 0, every worker that existed then stays invalid through
      any continuation and acts at most once more; a worker that called stop from
      its own callback makes no further receive or callback at all. */
  lemma StopInvalidates(s: State, c: Caller, steps: seq<Step>, w: nat, end: State)
    requires Inv(s) && Enabled(s, StopStore(c)) && end == Run(Apply(s, StopStore(c)), steps) && FewStarts(end)
    requires w < |s.workers|
    ensures w < |end.workers| && end.workers[w].start == s.workers[w].start && end.active != end.GenerationOf(w)
    ensures end.workers[w].receives <= s.workers[w].receives + 1
    ensures end.workers[w].callbacks <= s.workers[w].callbacks + 1
    ensures c == InCallback(w) ==>
      end.workers[w].receives <= s.workers[w].receives && end.workers[w].callbacks <= s.workers[w].callbacks
  {
    var stopped := Apply(s, StopStore(c));
    LockKept(s, StopStore(c), stopped);
    StartsKept(s, StopStore(c), stopped);
    StaleForever(stopped, steps, w, end);
  }

  /** A worker's error can only deactivate that worker: any other generation that is
      active stays active, be it a running worker's or that of a start that has stored
      it and not spawned its worker yet. */
  lemma ErrorSparesReplacement(s: State, w: nat, start: nat)
    requires Inv(s) && FewStarts(s) && Enabled(s, StopWithError(w)) && s.active == Generation(start)
    requires || (exists v :: 0 <= v < |s.workers| && v != w && s.workers[v].start == start)
             || (exists c :: Pending(s.PcOf(c)) && s.PcOf(c).start == start)
    ensures var s' := Apply(s, StopWithError(w)); s'.active == Generation(start) && s'.slot == s.slot
    ensures forall v :: 0 <= v < |s.workers| && v != w ==> Apply(s, StopWithError(w)).workers[v] == s.workers[v]
  {
    if c :| Pending(s.PcOf(c)) && s.PcOf(c).start == start {
      assert PendingOk(s, c);
    }
    var own := s.workers[w].start;
    assert own != start && start < s.issued;
    GenerationsCollide(if own <= start then own else start, if own <= start then start else own);
  }

  /** A finished worker never acts again, so after a stop that joined its worker
      returns there are no more callbacks from it. */
  lemma {:induction false} FinishedForever(s: State, steps: seq<Step>, w: nat)
    requires w < |s.workers| && s.workers[w].pc.Finished?
    ensures w < |Run(s, steps).workers| && Run(s, steps).workers[w] == s.workers[w]
    decreases steps
  {
    if steps != [] {
      FinishedForever(if Enabled(s, steps[0]) then Apply(s, steps[0]) else s, steps[1..], w);
    }
  }

  /** The slot only ever holds the newest worker, so a worker whose callback called
      stop can only be waiting for a newer one. */
  ghost predicate JoinsNewer(s: State) {
    && (s.slot.Some? ==> s.slot.value + 1 == |s.workers|)
    && (forall u: nat :: !s.PcOf(InCallback(u)).Idle? ==> u < |s.workers|)
    && (forall u: nat :: s.PcOf(InCallback(u)).Joining? ==> WaitOk(s, u))
  }

  ghost predicate WaitOk(s: State, u: nat)
    requires s.PcOf(InCallback(u)).Joining?
  {
    u < s.PcOf(InCallback(u)).worker < |s.workers|
  }

  lemma {:induction false} RunJoinsNewer(s: State, steps: seq<Step>)
    requires JoinsNewer(s)
    ensures JoinsNewer(Run(s, steps))
    decreases steps
  {
    if steps != [] {
      var s' := if Enabled(s, steps[0]) then Apply(s, steps[0]) else s;
      JoinsNewerKept(s, steps[0], s');
      RunJoinsNewer(s', steps[1..]);
    }
  }

  lemma JoinsNewerKept(s: State, step: Step, s': State)
    requires JoinsNewer(s) && s' == if Enabled(s, step) then Apply(s, step) else s
    ensures JoinsNewer(s')
  {
    forall u: nat | s'.PcOf(InCallback(u)).Joining? ensures WaitOk(s', u) {
      if s.PcOf(InCallback(u)).Joining? {
        assert WaitOk(s, u);
      }
    }
  }

  /** Worker `u`, inside its callback, waits for worker `v` to finish. */
  predicate Waits(s: State, u: nat, v: nat) {
    s.PcOf(InCallback(u)) == Joining(v)
  }

  ghost predicate WaitChain(s: State, ws: seq<nat>) {
    forall i :: 1 <= i < |ws| ==> Waits(s, ws[i - 1], ws[i])
  }

  /** Under no schedule do workers wait for each other in a circle, or one for
      itself: along any chain of waits the workers get strictly newer. */
  lemma NoWaitCycle(steps: seq<Step>, ws: seq<nat>)
    requires |ws| >= 2 && WaitChain(Run(INITIAL, steps), ws)
    ensures ws[0] < ws[|ws| - 1]
  {
    RunJoinsNewer(INITIAL, steps);
    ChainGrows(Run(INITIAL, steps), ws);
  }

  lemma {:induction false} ChainGrows(s: State, ws: seq<nat>)
    requires JoinsNewer(s) && |ws| >= 2 && WaitChain(s, ws)
    ensures ws[0] < ws[|ws| - 1]
    decreases ws
  {
    var last := |ws| - 1;
    assert Waits(s, ws[last - 1], ws[last]) && WaitOk(s, ws[last - 1]);
    if last > 1 {
      ChainGrows(s, ws[..last]);
    }
  }

  /** Stop stores 0 before it takes the lock, so a start already under way can slip
      between: here the stop ends up joining a worker whose generation is active and
      which nothing has told to finish. Termination of stop is therefore not a
      property of the protocol. */
  lemma StopCanJoinActiveWorker() returns (s: State, steps: seq<Step>)
    ensures s == Run(INITIAL, steps) && |s.workers| == 1
    ensures s.PcOf(External(1)) == Joining(0) && s.active == s.GenerationOf(0) && !s.workers[0].pc.Finished?
  {
    var a, b := External(0), External(1);
    steps := [StartLock(a), StartInspect(a), StartFetch(a), StopStore(b), StartStore(a), StartSpawn(a), StopTake(b)];
    var s1 := Apply(INITIAL, StartLock(a));
    var s2 := Apply(s1, StartInspect(a));
    var s3 := Apply(s2, StartFetch(a));
    var s4 := Apply(s3, StopStore(b));
    var s5 := Apply(s4, StartStore(a));
    var s6 := Apply(s5, StartSpawn(a));
    s := Apply(s6, StopTake(b));
    assert Run(s, []) == s;
    assert Run(s6, [StopTake(b)]) == s;
    assert Run(s5, [StartSpawn(a), StopTake(b)]) == s;
    assert Run(s4, [StartStore(a), StartSpawn(a), StopTake(b)]) == s;
    assert Run(s3, [StopStore(b), StartStore(a), StartSpawn(a), StopTake(b)]) == s;
    assert Run(s2, [StartFetch(a), StopStore(b), StartStore(a), StartSpawn(a), StopTake(b)]) == s;
    assert Run(s1, [StartInspect(a), StartFetch(a), StopStore(b), StartStore(a), StartSpawn(a), StopTake(b)]) == s;
  }

  // ---------------------------------------------------------------- what active workers do

  /** What can happen to a worker at one of its own steps: its check finds its own
      generation active, or another; a receive ends, with a packet, with nothing or in an
      error; it calls back; a wait ends, well or not; it stops with an error. */
  datatype Event =
    | PassedCheck | SawOther | Received | GotOne | FoundNothing | CalledBack | WaitEnded | Failed | GaveUp

  /** The step, taken in `s`, is this event of worker `w`. */
  predicate Happens(s: State, step: Step, w: nat, e: Event) {
    Taker(step) == Some(w) && Enabled(s, step) &&
    match e
    case PassedCheck => step.Check? && s.active == s.GenerationOf(w)
    case SawOther => step.Check? && s.active != s.GenerationOf(w)
    case Received => step.Receive?
    case GotOne => step.Receive? && step.outcome.GotPacket?
    case FoundNothing => step.Receive? && step.outcome.GotNothing?
    case CalledBack => step.Call?
    case WaitEnded => step.Wake? || step.WaitFails?
    case Failed => (step.Receive? && step.outcome.GotError?) || step.WaitFails?
    case GaveUp => step.StopWithError?
  }

  /** How often it happens during a run. */
  function Times(s: State, steps: seq<Step>, w: nat, e: Event): nat
    decreases steps
  {
    if steps == [] then 0
    else
      (if Happens(s, steps[0], w, e) then 1 else 0)
      + Times(if Enabled(s, steps[0]) then Apply(s, steps[0]) else s, steps[1..], w, e)
  }

  /** 1 while the worker is at that point, else 0. */
  function AtPoint(s: State, w: nat, pc: LoopPc): nat {
    if w < |s.workers| && s.workers[w].pc == pc then 1 else 0
  }

  /** What takes a worker to each point of its loop where it owes something, and what
      settles it. */
  function Owes(pc: LoopPc): Event
    requires pc in {Receiving, Calling, Waiting, Erring}
  {
    if pc == Receiving then PassedCheck
    else if pc == Calling then GotOne
    else if pc == Waiting then FoundNothing
    else Failed
  }

  function Settles(pc: LoopPc): Event
    requires pc in {Receiving, Calling, Waiting, Erring}
  {
    if pc == Receiving then Received
    else if pc == Calling then CalledBack
    else if pc == Waiting then WaitEnded
    else GaveUp
  }

  lemma StepBalances(s: State, step: Step, s': State, w: nat, pc: LoopPc)
    requires Enabled(s, step) && s' == Apply(s, step) && pc in {Receiving, Calling, Waiting, Erring}
    ensures AtPoint(s, w, pc) + (if Happens(s, step, w, Owes(pc)) then 1 else 0)
      == AtPoint(s', w, pc) + (if Happens(s, step, w, Settles(pc)) then 1 else 0)
  {
  }

  lemma {:induction false} RunBalances(s: State, steps: seq<Step>, w: nat, pc: LoopPc, end: State)
    requires end == Run(s, steps) && pc in {Receiving, Calling, Waiting, Erring}
    ensures AtPoint(s, w, pc) + Times(s, steps, w, Owes(pc)) == AtPoint(end, w, pc) + Times(s, steps, w, Settles(pc))
    decreases steps
  {
    hide Apply, Enabled, Happens, AtPoint, Owes, Settles;
    if steps != [] {
      var s' := if Enabled(s, steps[0]) then Apply(s, steps[0]) else s;
      if Enabled(s, steps[0]) {
        StepBalances(s, steps[0], s', w, pc);
      } else {
        NothingHappens(s, steps[0], w);
      }
      RunBalances(s', steps[1..], w, pc, end);
    }
  }

  /** A worker's own counters; nothing before it exists. */
  function Receives(s: State, w: nat): nat {
    if w < |s.workers| then s.workers[w].receives else 0
  }

  function Callbacks(s: State, w: nat): nat {
    if w < |s.workers| then s.workers[w].callbacks else 0
  }

  lemma StepCounts(s: State, step: Step, s': State, w: nat)
    requires Enabled(s, step) && s' == Apply(s, step)
    ensures Receives(s', w) == Receives(s, w) + (if Happens(s, step, w, Received) then 1 else 0)
    ensures Callbacks(s', w) == Callbacks(s, w) + (if Happens(s, step, w, CalledBack) then 1 else 0)
    ensures AtPoint(s', w, Finished) == AtPoint(s, w, Finished)
      + (if Happens(s, step, w, SawOther) then 1 else 0) + (if Happens(s, step, w, GaveUp) then 1 else 0)
  {
  }

  lemma {:induction false} RunCounts(s: State, steps: seq<Step>, w: nat, end: State)
    requires end == Run(s, steps)
    ensures Receives(end, w) == Receives(s, w) + Times(s, steps, w, Received)
    ensures Callbacks(end, w) == Callbacks(s, w) + Times(s, steps, w, CalledBack)
    ensures AtPoint(end, w, Finished)
      == AtPoint(s, w, Finished) + Times(s, steps, w, SawOther) + Times(s, steps, w, GaveUp)
    decreases steps
  {
    hide Apply, Enabled, Happens, Receives, Callbacks, AtPoint;
    if steps != [] {
      var s' := if Enabled(s, steps[0]) then Apply(s, steps[0]) else s;
      if Enabled(s, steps[0]) {
        StepCounts(s, steps[0], s', w);
      } else {
        NothingHappens(s, steps[0], w);
      }
      RunCounts(s', steps[1..], w, end);
    }
  }

  lemma NothingHappens(s: State, step: Step, w: nat)
    requires !Enabled(s, step)
    ensures forall e :: !Happens(s, step, w, e)
  {
  }

  /** The worker loop, over every schedule, what it has still to do counted as 1: it
      receives once for each check that finds its own generation active; it calls back once
      for each receive that got a packet; it waits once for each that found nothing; it
      stops with an error once for each receive or wait that failed; and it is finished
      exactly when one of its checks has seen another generation or it has so stopped. */
  lemma WorkerLedger(steps: seq<Step>, w: nat, end: State)
    requires end == Run(INITIAL, steps) && w < |end.workers|
    ensures var t := end.workers[w];
      && t.receives == Times(INITIAL, steps, w, Received)
      && t.callbacks == Times(INITIAL, steps, w, CalledBack)
      && Times(INITIAL, steps, w, PassedCheck) == t.receives + (if t.pc.Receiving? then 1 else 0)
      && Times(INITIAL, steps, w, GotOne) == t.callbacks + (if t.pc.Calling? then 1 else 0)
      && Times(INITIAL, steps, w, FoundNothing)
         == Times(INITIAL, steps, w, WaitEnded) + (if t.pc.Waiting? then 1 else 0)
      && Times(INITIAL, steps, w, Failed)
         == Times(INITIAL, steps, w, GaveUp) + (if t.pc.Erring? then 1 else 0)
      && (t.pc.Finished? <==> Times(INITIAL, steps, w, SawOther) + Times(INITIAL, steps, w, GaveUp) > 0)
  {
    hide Times, Run;
    RunCounts(INITIAL, steps, w, end);
    RunBalances(INITIAL, steps, w, Receiving, end);
    RunBalances(INITIAL, steps, w, Calling, end);
    RunBalances(INITIAL, steps, w, Waiting, end);
    RunBalances(INITIAL, steps, w, Erring, end);
  }

  /** No worker ends while its generation is the active one. */
  ghost predicate EndedAreInvalid(s: State) {
    forall w :: 0 <= w < |s.workers| && s.workers[w].pc.Finished? ==> s.active != s.GenerationOf(w)
  }

  /** Under every schedule with few enough starts an active worker is not finished, and
      its check takes it to a receive. */
  lemma ActiveGoesOn(steps: seq<Step>, w: nat, s: State)
    requires s == Run(INITIAL, steps) && FewStarts(s)
    requires w < |s.workers| && s.active == s.GenerationOf(w)
    ensures !s.workers[w].pc.Finished?
    ensures Enabled(s, Check(w)) ==> Apply(s, Check(w)) == s.WorkerAt(w, s.workers[w].(pc := Receiving))
  {
    RunKeepsEnded(INITIAL, steps, s);
  }

  lemma {:induction false} RunKeepsEnded(s: State, steps: seq<Step>, end: State)
    requires Inv(s) && EndedAreInvalid(s) && end == Run(s, steps) && FewStarts(end)
    ensures EndedAreInvalid(end)
    decreases steps
  {
    hide Inv, EndedAreInvalid, Apply, Enabled;
    if steps != [] {
      var s' := if Enabled(s, steps[0]) then Apply(s, steps[0]) else s;
      if Enabled(s, steps[0]) {
        StepKeepsInv(s, steps[0], s');
        FewerStarts(s', steps[1..], end);
        EndedKept(s, steps[0], s');
      }
      RunKeepsEnded(s', steps[1..], end);
    }
  }

  lemma EndedKept(s: State, step: Step, s': State)
    requires Inv(s) && EndedAreInvalid(s) && Enabled(s, step) && s' == Apply(s, step) && FewStarts(s')
    ensures EndedAreInvalid(s')
  {
    hide Inv;
    forall w | 0 <= w < |s'.workers| && s'.workers[w].pc.Finished? ensures s'.active != s'.GenerationOf(w) {
      if w < |s.workers| && s.workers[w].pc.Finished? {
        StaleStep(s, step, s', w);
      }
    }
  }

  // ---------------------------------------------------------------- starts and stops

  /** The worker whose handle is in the slot has not finished. */
  predicate WorkerRuns(s: State) {
    s.slot.Some? && s.slot.value < |s.workers| && !s.workers[s.slot.value].pc.Finished?
  }

  /** A start that finds the slot's worker running ends there, letting go of the lock and
      changing nothing else; any other goes on, with the slot emptied. */
  lemma StartRefusedIffRunning(s: State, c: Caller, s': State)
    requires Inv(s) && Enabled(s, StartInspect(c)) && s' == Apply(s, StartInspect(c))
    ensures s'.PcOf(c).Idle? <==> WorkerRuns(s)
    ensures s'.PcOf(c).Idle? <==> s'.holder.None?
    ensures WorkerRuns(s) ==> s'.slot == s.slot
    ensures !WorkerRuns(s) ==> s'.PcOf(c).Fetching? && s'.holder == Some(c) && s'.slot.None?
    ensures s'.workers == s.workers && s'.active == s.active && s'.next == s.next && s'.issued == s.issued
    ensures forall d :: d != c ==> s'.PcOf(d) == s.PcOf(d)
  {
    assert InStart(s.PcOf(c));
  }

  /** From any state in which the lock is free and no worker of the slot runs, a start
      that nobody interrupts leaves a new worker in the slot whose generation is the
      active one and whose first check takes it to a receive. */
  lemma StartRuns(s: State, c: Caller) returns (steps: seq<Step>, end: State)
    requires Inv(s) && Enabled(s, StartLock(c)) && !WorkerRuns(s)
    ensures steps ==
      [StartLock(c), StartInspect(c), StartFetch(c), StartStore(c), StartSpawn(c), Check(|s.workers|)]
    ensures end == Run(s, steps)
    ensures |end.workers| == |s.workers| + 1 && end.workers[..|s.workers|] == s.workers
    ensures end.workers[|s.workers|] == Thread(s.issued, Receiving, 0, 0)
    ensures end.active == end.GenerationOf(|s.workers|) && end.slot == Some(|s.workers|)
    ensures end.PcOf(c).Idle? && end.holder.None?
  {
    var w := |s.workers|;
    var s1 := Apply(s, StartLock(c));
    var s2 := Apply(s1, StartInspect(c));
    var s3 := Apply(s2, StartFetch(c));
    var s4 := Apply(s3, StartStore(c));
    var s5 := Apply(s4, StartSpawn(c));
    end := Apply(s5, Check(w));
    steps := [StartLock(c), StartInspect(c), StartFetch(c), StartStore(c), StartSpawn(c), Check(w)];
    assert Run(end, []) == end;
    assert Run(s5, [Check(w)]) == end;
    assert Run(s4, [StartSpawn(c), Check(w)]) == end;
    assert Run(s3, [StartStore(c), StartSpawn(c), Check(w)]) == end;
    assert Run(s2, [StartFetch(c), StartStore(c), StartSpawn(c), Check(w)]) == end;
    assert Run(s1, [StartInspect(c), StartFetch(c), StartStore(c), StartSpawn(c), Check(w)]) == end;
  }

  /** A stop takes the handle out of the slot, whoever called it, and waits for that worker
      unless it runs in that worker's own callback. */
  lemma StopTakesHandle(s: State, c: Caller, s': State)
    requires Enabled(s, StopTake(c)) && s' == Apply(s, StopTake(c))
    ensures s'.slot.None? && s'.workers == s.workers && s'.active == s.active
    ensures s.slot.Some? && c != InCallback(s.slot.value) ==> s'.PcOf(c) == Joining(s.slot.value)
    ensures s.slot.None? || c == InCallback(s.slot.value) ==> s'.PcOf(c).Idle?
  {
  }

  /** A stop that waits for a worker returns only when that worker is finished, whatever
      else happens; so after it the worker never calls back again. */
  lemma {:induction false} StopWaits(s: State, steps: seq<Step>, c: Caller, w: nat, end: State)
    requires s.PcOf(c) == Joining(w) && end == Run(s, steps) && end.PcOf(c) != Joining(w)
    ensures w < |end.workers| && end.workers[w].pc.Finished?
    decreases steps
  {
    hide Apply;
    if steps != [] {
      var s' := if Enabled(s, steps[0]) then Apply(s, steps[0]) else s;
      if s'.PcOf(c) == Joining(w) {
        StopWaits(s', steps[1..], c, w, end);
      } else {
        OnlyJoinEndsWait(s, steps[0], c, w, s');
        FinishedForever(s', steps[1..], w);
      }
    }
  }

  lemma OnlyJoinEndsWait(s: State, step: Step, c: Caller, w: nat, s': State)
    requires s.PcOf(c) == Joining(w) && Enabled(s, step) && s' == Apply(s, step) && s'.PcOf(c) != Joining(w)
    ensures w < |s'.workers| && s'.workers[w].pc.Finished?
  {
  }

  // ---------------------------------------------------------------- poll

  /** One turn of poll: what the receive reports, and whether the handle is still
      alive when the callback, if any, has returned. */
  datatype Turn = Turn(outcome: Outcome, aliveAfter: bool)

  datatype Status = StatusOk | StatusError

  /** mcrx_context_poll's loop over the next turns. `callbacks` counts the callback
      invocations, `receivedOut` is the value stored for the caller: nothing on an
      error, though callbacks may already have run. */
  method Poll(turns: seq<Turn>) returns (callbacks: nat, receivedOut: nat, status: Status)
    ensures callbacks <= |turns|
    ensures forall i :: 0 <= i < callbacks ==> turns[i].outcome.GotPacket?
    ensures forall i :: 0 <= i < callbacks - 1 ==> turns[i].aliveAfter
    ensures callbacks < |turns| ==>
      (callbacks > 0 && !turns[callbacks - 1].aliveAfter) || !turns[callbacks].outcome.GotPacket?
    ensures status.StatusError? <==>
      (callbacks < |turns| && turns[callbacks].outcome.GotError? && (callbacks > 0 ==> turns[callbacks - 1].aliveAfter))
    ensures receivedOut == if status.StatusOk? then callbacks else 0
  {
    callbacks, receivedOut := 0, 0;
    while callbacks < |turns|
      invariant callbacks <= |turns|
      invariant forall i :: 0 <= i < callbacks ==> turns[i].outcome.GotPacket? && turns[i].aliveAfter
    {
      match turns[callbacks].outcome {
        case GotNothing => break;
        case GotError =>
          status := StatusError;
          return;
        case GotPacket =>
      }
      callbacks := callbacks + 1;
      if !turns[callbacks - 1].aliveAfter {
        break;
      }
    }
    receivedOut, status := callbacks, StatusOk;
  }
}
