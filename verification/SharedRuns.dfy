/** Whole runs of the shared raw capture engine, and what they imply about its
    kernel filter and its index. */
module SharedRuns {
  import opened Wrappers
  import opened Net
  import opened Config
  import opened IpParsing
  import opened Bpf
  import opened Packets
  import opened IdLists
  import opened Demux
  import opened SharedSpec
  import opened SharedInvariants
  import opened SharedReceive
  import opened SharedKernel

  /** One event of a run: a call with the outcomes of its system calls, or
      something arriving at an open socket. */
  datatype Op =
    | AddOp(config: RawConfig, lookup: Option<U32>)
    | JoinOp(id: Id, openOk: bool, joinOk: bool)
    | LeaveOp(id: Id, leaveOk: bool)
    | RemoveOp(id: Id, leaveOk: bool)
    | RecvOp
    | BatchOp(max: nat)
    | Arrive(key: CaptureKey, events: seq<Event>)

  function Arrives(s: State, key: CaptureKey, events: seq<Event>): State {
    if key in s.wire then s.(wire := s.wire[key := s.wire[key] + events]) else s
  }

  ghost function Step(s: State, op: Op): State {
    match op
    case AddOp(config, lookup) => Add(s, config, lookup).0
    case JoinOp(id, openOk, joinOk) => Join(s, id, openOk, joinOk).0
    case LeaveOp(id, leaveOk) => Leave(s, id, leaveOk).0
    case RemoveOp(id, leaveOk) => Remove(s, id, leaveOk).0
    case RecvOp => Recv(s).0
    case BatchOp(max) => Batch(s, max).0
    case Arrive(key, events) => Arrives(s, key, events)
  }

  ghost function Run(s: State, ops: seq<Op>): State
    decreases ops
  {
    if ops == [] then s else Run(Step(s, ops[0]), ops[1..])
  }

  lemma ArriveKeepsInv(s: State, key: CaptureKey, events: seq<Event>, s': State)
    requires Inv(s) && s' == Arrives(s, key, events)
    ensures Inv(s')
  {
    assert s'.wire.Keys == s.wire.Keys;
    ReceiveKeepsSubs(s, s');
    assert History(s') == History(s);
  }

  lemma StepKeepsInv(s: State, op: Op, s': State)
    requires Inv(s) && s' == Step(s, op)
    ensures Inv(s')
  {
    hide SubsOk, OrderOk, OpenOk, InstalledOk, QueueOk, LedgerOk;
    match op {
      case AddOp(config, lookup) =>
        var r := Add(s, config, lookup);
        AddKeepsInv(s, config, lookup, r.0, r.1);
      case JoinOp(id, openOk, joinOk) =>
        var r := Join(s, id, openOk, joinOk);
        JoinKeepsInv(s, id, openOk, joinOk, r.0, r.1);
      case LeaveOp(id, leaveOk) =>
        var r := Leave(s, id, leaveOk);
        LeaveKeepsInv(s, id, leaveOk, r.0, r.1);
      case RemoveOp(id, leaveOk) =>
        var r := Remove(s, id, leaveOk);
        RemoveKeepsInv(s, id, leaveOk, r.0, r.1);
      case RecvOp =>
        var r := Recv(s);
        RecvKeepsInv(s, r.0, r.1);
      case BatchOp(max) =>
        var r := Batch(s, max);
        BatchKeepsInv(s, max, r.0, r.1, r.2);
      case Arrive(key, events) =>
        ArriveKeepsInv(s, key, events, s');
    }
  }

  lemma {:induction false} RunKeepsInv(s: State, ops: seq<Op>)
    requires Inv(s)
    ensures Inv(Run(s, ops))
    decreases ops
  {
    hide SubsOk, OrderOk, OpenOk, InstalledOk, QueueOk, LedgerOk;
    if ops != [] {
      var s' := Step(s, ops[0]);
      StepKeepsInv(s, ops[0], s');
      RunKeepsInv(s', ops[1..]);
    }
  }

  /** Every reachable state satisfies the invariant: the capture order lists exactly the
      open captures, the queue names only joined subscriptions, and every datagram ever
      read has exactly one fate; and each open socket's kernel holds exactly one
      membership for the group and source of each joined subscription. */
  lemma ReachableInv(limits: Limits, ops: seq<Op>)
    requires limits.maxSubscriptions > 0 && limits.maxPending > 0
    ensures Inv(Run(Initial(limits), ops))
    ensures KernelExact(Run(Initial(limits), ops))
  {
    hide Inv, KernelExact, Run;
    InitialInv(limits);
    RunKeepsInv(Initial(limits), ops);
    InvMeansExact(Run(Initial(limits), ops));
  }

  /** Leaving purges exactly the queued packets it was the last match of, and
      takes the leaver off every other one; a packet naming a subscription that
      left therefore never reaches the caller, even if it joins again. */
  lemma LeavePurgesExactly(s: State, id: Id, leaveOk: bool, s': State, r: Result<(), McrxError>)
    requires Inv(s) && (s', r) == Leave(s, id, leaveOk) && r.Ok?
    ensures forall q :: q in s'.pending ==> id !in q.ids
    ensures forall x :: x in Serials(s'.pending) <==> exists q :: q in s.pending && q.serial == x && q.ids != [id]
  {
    hide SubsOk, OrderOk, OpenOk, InstalledOk, LedgerOk;
    var left := LeaveEffect(s, id, leaveOk, s', r);
    PurgeExactly(s.subs, id, s.log, s.pending, s'.pending);
  }

  lemma {:induction false} PurgeExactly(
    subs: Subscriptions, id: Id, log: seq<Reading>, pending: seq<Queued>, after: seq<Queued>)
    requires id in subs && subs[id].joined
    requires forall q :: q in pending ==> QueuedOk(subs, log, q)
    requires after == Purge(pending, id, WithJoined(subs, id, false))
    ensures forall q :: q in after ==> id !in q.ids
    ensures forall x :: x in Serials(after) <==> exists q :: q in pending && q.serial == x && q.ids != [id]
    decreases pending
  {
    if pending != [] {
      var first, rest := pending[0], pending[1..];
      assert first in pending && pending == [first] + rest;
      var p := PurgeOne(first, id, WithJoined(subs, id, false));
      PurgeOneOk(subs, id, log, first, p);
      var after' := Purge(rest, id, WithJoined(subs, id, false));
      PurgeExactly(subs, id, log, rest, after');
      assert after == (if p.Some? then [p.value] else []) + after';
      assert p.Some? ==> first.ids != [id];
      forall x ensures x in Serials(after) <==> x in Serials(after') || (p.Some? && x == first.serial) {
        if p.Some? {
          assert p.value in after;
        }
      }
      forall x ensures x in Serials(after) <==> exists q :: q in pending && q.serial == x && q.ids != [id] {
        if x in Serials(after') {
          var q :| q in rest && q.serial == x && q.ids != [id];
          assert q in pending;
        }
      }
    }
  }

  // ---------------------------------------------------------------- order over runs

  /** The datagrams that arrive on a capture's socket during a run, while it is open. */
  ghost function Arrivals(s: State, ops: seq<Op>, key: CaptureKey): seq<Captured>
    decreases ops
  {
    if ops == [] then [] else ArrivalsOf(s, ops[0], key) + Arrivals(Step(s, ops[0]), ops[1..], key)
  }

  function ArrivalsOf(s: State, op: Op, key: CaptureKey): seq<Captured> {
    if op.Arrive? && op.key == key && key in s.wire then Datagrams(op.events) else []
  }

  /** The capture is not closed during the run once it is open. */
  ghost predicate NeverCloses(s: State, ops: seq<Op>, key: CaptureKey)
    decreases ops
  {
    ops == [] ||
    ((key in s.wire ==> key in Step(s, ops[0]).wire) && NeverCloses(Step(s, ops[0]), ops[1..], key))
  }

  /** `a` is `b` with some elements left out, in the same order. */
  ghost predicate Selection<T>(a: seq<T>, b: seq<T>)
    decreases b
  {
    if b == [] then a == []
    else
      var last := |b| - 1;
      Selection(a, b[..last]) || (a != [] && a[|a| - 1] == b[last] && Selection(a[..|a| - 1], b[..last]))
  }

  lemma {:induction false} SelectionRefl<T>(a: seq<T>)
    ensures Selection(a, a)
    decreases a
  {
    if a != [] {
      SelectionRefl(a[..|a| - 1]);
    }
  }

  lemma {:induction false} SelectionAppend<T>(a: seq<T>, b: seq<T>, x: seq<T>)
    requires Selection(a, b)
    ensures Selection(a + x, b + x)
    decreases x
  {
    if x == [] {
      assert a + x == a && b + x == b;
    } else {
      var last := |x| - 1;
      SelectionAppend(a, b, x[..last]);
      assert (a + x)[..|a + x| - 1] == a + x[..last] && (b + x)[..|b + x| - 1] == b + x[..last];
    }
  }

  lemma {:induction false} SelectionShorter<T>(a: seq<T>, b: seq<T>, n: nat)
    requires Selection(a, b) && n <= |a|
    ensures Selection(a[..n], b)
    decreases |b|, |a|
  {
    if n == |a| {
      assert a[..n] == a;
    } else {
      var last := |b| - 1;
      if Selection(a, b[..last]) {
        SelectionShorter(a, b[..last], n);
      } else {
        SelectionShorter(a[..|a| - 1], b[..last], n);
        assert a[..|a| - 1][..n] == a[..n];
      }
    }
  }

  lemma DatagramsFirst(events: seq<Event>)
    requires events != []
    ensures Datagrams(events)
      == (if events[0].Got? then [events[0].captured] else []) + Datagrams(events[1..])
  {
  }

  lemma {:induction false} DatagramsConcat(a: seq<Event>, b: seq<Event>)
    ensures Datagrams(a + b) == Datagrams(a) + Datagrams(b)
    decreases a
  {
    hide Datagrams;
    if a == [] {
      Nothing(CaptureKey(Ipv4, 0));
      assert a + b == b;
    } else {
      DatagramsConcat(a[1..], b);
      DatagramsFirst(a);
      DatagramsFirst(a + b);
      assert (a + b)[1..] == a[1..] + b;
    }
  }

  /** What one step does to what has come out of, or is inside, a socket: arrivals go
      to the end, closing drops what is unread, nothing else changes anything. */
  ghost predicate ArrivesTo(s: State, op: Op, key: CaptureKey, s': State) {
    && Arrived(s', key) <= Arrived(s, key) + ArrivalsOf(s, op, key)
    && ((key in s.wire ==> key in s'.wire) ==> Arrived(s', key) == Arrived(s, key) + ArrivalsOf(s, op, key))
  }

  lemma SocketOnly(s: State, op: Op, key: CaptureKey, s': State)
    requires !op.Arrive? && s'.log == s.log
    requires key in s'.wire ==> s'.wire[key] == if key in s.wire then s.wire[key] else []
    ensures ArrivesTo(s, op, key, s')
  {
    hide ReadOn, Datagrams;
    Nothing(key);
  }

  lemma Nothing(key: CaptureKey)
    ensures Datagrams([]) == [] && ReadOn([], key) == []
  {
  }

  lemma StepArrives(s: State, op: Op, key: CaptureKey, s': State)
    requires Inv(s) && s' == Step(s, op)
    ensures ArrivesTo(s, op, key, s')
  {
    hide SubsOk, OrderOk, InstalledOk, QueueOk, LedgerOk, Add, Leave, Remove, Recv, Batch, ArrivesTo, HasJoined, Purge;
    match op {
      case AddOp(config, lookup) =>
        AddKeepsSockets(s, config, lookup);
        SocketOnly(s, op, key, s');
      case JoinOp(id, openOk, joinOk) =>
        SocketOnly(s, op, key, s');
      case LeaveOp(id, leaveOk) =>
        var r := Leave(s, id, leaveOk);
        LeaveKeepsOthers(s, id, leaveOk, r.0, r.1, key);
        SocketOnly(s, op, key, s');
      case RemoveOp(id, leaveOk) =>
        var r := Remove(s, id, leaveOk);
        var left, lr := RemoveEffect(s, id, leaveOk, r.0, r.1);
        if id in s.subs && s.subs[id].joined {
          LeaveKeepsOthers(s, id, leaveOk, left, lr, key);
        }
        SocketOnly(s, op, key, s');
      case RecvOp =>
        var r := Recv(s);
        RecvDelivers(s, r.0, r.1);
        ReceivingArrives(s, op, key, s');
      case BatchOp(max) =>
        var r := Batch(s, max);
        BatchDelivers(s, max, r.0, r.1, r.2);
        ReceivingArrives(s, op, key, s');
      case Arrive(at, events) =>
        ArriveArrives(s, at, events, key, s');
    }
  }

  lemma AddKeepsSockets(s: State, config: RawConfig, lookup: Option<U32>)
    ensures Add(s, config, lookup).0.wire == s.wire && Add(s, config, lookup).0.log == s.log
  {
    hide CachedKey;
  }

  lemma LeaveKeepsOthers(s: State, id: Id, leaveOk: bool, s': State, r: Result<(), McrxError>, key: CaptureKey)
    requires (s', r) == Leave(s, id, leaveOk)
    ensures s'.log == s.log && (key in s'.wire ==> key in s.wire && s'.wire[key] == s.wire[key])
  {
    hide Purge, HasMember, HasJoined;
    var left := LeaveEffect(s, id, leaveOk, s', r);
  }

  lemma ReceivingArrives(s: State, op: Op, key: CaptureKey, s': State)
    requires ReceivesTo(s, s') && (op.RecvOp? || op.BatchOp?)
    ensures ArrivesTo(s, op, key, s')
  {
    assert Arrived(s', key) == Arrived(s, key) == Arrived(s, key) + [];
  }

  lemma ArriveArrives(s: State, at: CaptureKey, events: seq<Event>, key: CaptureKey, s': State)
    requires s' == Arrives(s, at, events)
    ensures ArrivesTo(s, Arrive(at, events), key, s')
  {
    hide ReadOn, Datagrams;
    if at == key && key in s.wire {
      DatagramsConcat(s.wire[key], events);
      assert Arrived(s', key) == Arrived(s, key) + Datagrams(events);
    } else {
      assert Arrived(s', key) == Arrived(s, key) == Arrived(s, key) + [];
    }
  }

  /** Per-capture order over whole runs, captures closing and reopening included: what
      has been read from a capture and what still waits in its socket are, in order,
      what arrived on it while it was open, less what was unread when it was closed;
      nothing is left out while it stays open. */
  lemma {:induction false} RunKeepsOrder(s: State, ops: seq<Op>, key: CaptureKey, end: State)
    requires Inv(s) && end == Run(s, ops)
    ensures Selection(Arrived(end, key), Arrived(s, key) + Arrivals(s, ops, key))
    ensures NeverCloses(s, ops, key) ==> Arrived(end, key) == Arrived(s, key) + Arrivals(s, ops, key)
    decreases ops
  {
    hide Inv, Step, Arrived, ArrivalsOf, Selection;
    if ops == [] {
      assert Arrived(s, key) + [] == Arrived(s, key);
      SelectionRefl(Arrived(s, key));
    } else {
      var s' := Step(s, ops[0]);
      StepKeepsInv(s, ops[0], s');
      StepArrives(s, ops[0], key, s');
      RunKeepsOrder(s', ops[1..], key, end);
      var here, later := ArrivalsOf(s, ops[0], key), Arrivals(s', ops[1..], key);
      assert Arrived(s, key) + Arrivals(s, ops, key) == (Arrived(s, key) + here) + later;
      SelectionThrough(Arrived(end, key), Arrived(s', key), Arrived(s, key) + here, later);
    }
  }

  lemma SelectionThrough<T>(end: seq<T>, mid: seq<T>, all: seq<T>, later: seq<T>)
    requires mid <= all && Selection(end, mid + later)
    ensures Selection(end, all + later)
  {
    SelectionRefl(all);
    SelectionShorter(all, all, |mid|);
    assert all[..|mid|] == mid;
    SelectionAppend(mid, all, later);
    SelectionTrans(end, mid + later, all + later);
  }

  lemma {:induction false} SelectionTrans<T>(a: seq<T>, b: seq<T>, c: seq<T>)
    requires Selection(a, b) && Selection(b, c)
    ensures Selection(a, c)
    decreases c
  {
    if c != [] {
      var last := |c| - 1;
      if Selection(b, c[..last]) {
        SelectionTrans(a, b, c[..last]);
      } else if Selection(a, b[..|b| - 1]) {
        SelectionTrans(a, b[..|b| - 1], c[..last]);
      } else {
        SelectionTrans(a[..|a| - 1], b[..|b| - 1], c[..last]);
      }
    }
  }

  /** In every reachable state the datagrams read from a capture are a selection, in
      order and each once, of those that arrived on it. */
  lemma ReachableReadsInOrder(limits: Limits, ops: seq<Op>, key: CaptureKey)
    requires limits.maxSubscriptions > 0 && limits.maxPending > 0
    ensures var end := Run(Initial(limits), ops);
      Selection(ReadOn(end.log, key), Arrivals(Initial(limits), ops, key))
  {
    hide Run, ReadOn, Selection, Datagrams;
    var s := Initial(limits);
    var end := Run(s, ops);
    InitialInv(limits);
    RunKeepsOrder(s, ops, key, end);
    Nothing(key);
    assert Arrived(s, key) == [];
    assert [] + Arrivals(s, ops, key) == Arrivals(s, ops, key);
    var read := ReadOn(end.log, key);
    SelectionShorter(Arrived(end, key), Arrivals(s, ops, key), |read|);
    assert Arrived(end, key)[..|read|] == read;
  }

  // ---------------------------------------------------------------- filter and index

  /** The shared kernel filter drops nothing wanted: in every reachable state, a
      datagram the capture's family filter rejects either does not parse or
      matches no joined subscription of that capture. */
  lemma FamilyFilterDropsNothingWanted(s: State, key: CaptureKey, d: seq<Byte>, id: Id)
    requires Inv(s) && !Accepts(FamilyFilter(key.family, 0), d) && ParseIp(d).Some?
    requires id in JoinedOn(s.subs, key)
    ensures !PacketMatchesConfig(ParseIp(d).value, s.subs[id].config)
  {
    hide OrderOk, OpenOk, InstalledOk, QueueOk, LedgerOk;
    assert SubOk(s, id);
    if PacketMatchesConfig(ParseIp(d).value, s.subs[id].config) {
      FamilyFilterKeepsWanted(s.subs[id].config, d);
    }
  }

  /** In every reachable state no group's index holds both any-source and
      per-source ids. */
  lemma ReachableGroupsUnmixed(
    s: State, key: CaptureKey, d: CaptureDemultiplexer, group: IpAddr, source: IpAddr, a: Id, b: Id)
    requires Inv(s) && d.Indexes(JoinedOn(s.subs, key))
    ensures !(d.Group(group).Lists(None, a) && d.Group(group).Lists(Some(source), b))
  {
    hide OrderOk, OpenOk, InstalledOk, QueueOk, LedgerOk;
    var m := JoinedOn(s.subs, key);
    forall x | x in m ensures IsValid(m[x]) {
      assert SubOk(s, x);
    }
    NoMixedGroups(d, m, group, source, a, b);
  }
}
