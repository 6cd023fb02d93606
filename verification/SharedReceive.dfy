/** The receive side of the shared raw capture engine: every fill, receive and
    batch keeps the invariant, loses nothing and respects its bounds. */
module SharedReceive {
  import opened Wrappers
  import opened Net
  import opened Config
  import opened Packets
  import opened IdLists
  import opened SharedSpec
  import opened SharedInvariants

  // ---------------------------------------------------------------- one reading

  ghost predicate TakesTo(s: State, reading: Reading, rest: seq<Event>, s': State, matched: bool) {
    && reading.key in s.wire && s.wire[reading.key] == [Got(reading.captured)] + rest
    && (s', matched) == TakeReading(s, reading, rest)
  }

  /** Matching agrees with the linear scan and only finds stored subscriptions. */
  lemma MatchesExact(s: State, reading: Reading)
    requires SubsOk(s)
    ensures Ascending(MatchesOf(s, reading))
    ensures forall id :: id in MatchesOf(s, reading) <==> ListedOk(s.subs, reading, id)
  {
    ScanExact(JoinedOn(s.subs, reading.key), reading.captured.group, reading.captured.sourceIp, s.nextId);
    forall id | ListedOk(s.subs, reading, id) ensures id in MatchesOf(s, reading) {
      assert SubOk(s, id);
    }
  }

  /** The packet a matched reading queues. */
  ghost function NewlyQueued(s: State, reading: Reading): Queued {
    var ids := MatchesOf(s, reading);
    if ids != [] && ids[0] in s.subs then
      Queued(RawPacketFromCaptured(ids[0], s.subs[ids[0]].config, reading.captured), ids, |s.log|)
    else Queued(RawPacket(0, [], None, None, None, ReceiveMetadata(None, None, None, None)), ids, |s.log|)
  }

  lemma TakeEffect(s: State, reading: Reading, rest: seq<Event>, s': State, matched: bool)
    requires SubsOk(s) && TakesTo(s, reading, rest, s', matched)
    ensures matched <==> MatchesOf(s, reading) != []
    ensures s' == s.(
      wire := s.wire[reading.key := rest],
      log := s.log + [reading],
      pending := s'.pending,
      unmatched := if matched then s.unmatched else s.unmatched + {|s.log|})
    ensures !matched ==> s'.pending == s.pending
    ensures matched ==> s'.pending == s.pending + [NewlyQueued(s, reading)]
    ensures matched ==> QueuedOk(s'.subs, s'.log, NewlyQueued(s, reading))
  {
    MatchesExact(s, reading);
    var ids := MatchesOf(s, reading);
    if ids != [] {
      assert ids[0] in ids;
      assert ListedOk(s.subs, reading, ids[0]);
      assert s'.pending == s.pending + [NewlyQueued(s, reading)];
      assert s'.log[|s.log|] == reading;
    }
  }

  lemma TakeKeepsInv(s: State, reading: Reading, rest: seq<Event>, s': State, matched: bool)
    requires Inv(s) && |s.pending| < s.limits.maxPending && TakesTo(s, reading, rest, s', matched)
    ensures Inv(s')
  {
    hide SubsOk, OrderOk, OpenOk, InstalledOk, QueueOk, LedgerOk;
    TakeEffect(s, reading, rest, s', matched);
    ReceiveKeepsSubs(s, s');
    TakeKeepsQueue(s, reading, rest, s', matched);
    TakeKeepsLedger(s, reading, rest, s', matched);
  }

  lemma ReceiveKeepsSubs(s: State, s': State)
    requires SubsOk(s) && OrderOk(s) && KernelOk(s)
    requires s'.subs == s.subs && s'.limits == s.limits && s'.nextId == s.nextId
    requires s'.order == s.order && s'.cursor == s.cursor && s'.kernel == s.kernel && s'.wire.Keys == s.wire.Keys
    ensures SubsOk(s') && OrderOk(s') && KernelOk(s')
  {
    forall id | id in s'.subs ensures SubOk(s', id) {
      assert SubOk(s, id);
    }
  }

  lemma TakeKeepsQueue(s: State, reading: Reading, rest: seq<Event>, s': State, matched: bool)
    requires SubsOk(s) && QueueOk(s) && |s.pending| < s.limits.maxPending && TakesTo(s, reading, rest, s', matched)
    ensures QueueOk(s')
  {
    TakeEffect(s, reading, rest, s', matched);
    forall q | q in s'.pending ensures QueuedOk(s'.subs, s'.log, q) {
      if q in s.pending {
        assert QueuedOk(s.subs, s.log, q);
        assert s'.log[q.serial] == s.log[q.serial];
      }
    }
  }

  lemma TakeKeepsLedger(s: State, reading: Reading, rest: seq<Event>, s': State, matched: bool)
    requires SubsOk(s) && LedgerOk(s) && TakesTo(s, reading, rest, s', matched)
    ensures LedgerOk(s')
  {
    hide SubsOk, LedgerOk, QueuedOk, TakeReading, MatchesOf, OneFate;
    TakeEffect(s, reading, rest, s', matched);
    if matched {
      assert SerialSeq(s'.pending) == SerialSeq(s.pending) + [|s.log|];
      LedgerGrows(s, s', History(s) + [|s.log|]);
    } else {
      LedgerGrows(s, s', History(s));
    }
  }

  /** One more reading, with exactly one fate. */
  lemma LedgerGrows(s: State, s': State, history: seq<nat>)
    requires LedgerOk(s) && |s'.log| == |s.log| + 1 && s'.purged == s.purged
    requires History(s') == history
    requires || (s'.unmatched == s.unmatched && history == History(s) + [|s.log|])
             || (s'.unmatched == s.unmatched + {|s.log|} && history == History(s))
    ensures LedgerOk(s')
  {
    var before := History(s);
    assert forall k :: 0 <= k < |before| ==> before[k] in before;
    forall i: nat | i < |s'.log| ensures OneFate(i in s'.unmatched, i in s'.purged, i in history) {
      if i < |s.log| {
        assert OneFate(i in s.unmatched, i in s.purged, i in before);
      }
    }
  }

  // ---------------------------------------------------------------- conservation

  /** The datagrams read from one capture, in reading order. */
  function ReadOn(log: seq<Reading>, key: CaptureKey): seq<Captured> {
    if log == [] then []
    else
      var last := log[|log| - 1];
      ReadOn(log[..|log| - 1], key) + (if last.key == key then [last.captured] else [])
  }

  /** The datagrams still in a socket's receive queue. */
  function Datagrams(events: seq<Event>): seq<Captured> {
    if events == [] then []
    else (if events[0].Got? then [events[0].captured] else []) + Datagrams(events[1..])
  }

  /** Everything that has come out of, or is still inside, one capture's socket. */
  function Arrived(s: State, key: CaptureKey): seq<Captured> {
    ReadOn(s.log, key) + (if key in s.wire then Datagrams(s.wire[key]) else [])
  }

  /** How a receive may change the state: nothing but the cursor, the queue, the
      sockets and the ledger; the log only grows; and no datagram is lost or
      reordered between a socket and the log. */
  ghost predicate ReceivesTo(s: State, s': State) {
    && s' == s.(cursor := s'.cursor, pending := s'.pending, wire := s'.wire, log := s'.log,
                unmatched := s'.unmatched, delivered := s'.delivered)
    && s.log <= s'.log
    && forall key :: Arrived(s', key) == Arrived(s, key)
  }

  lemma ArrivedAfterTake(s: State, reading: Reading, rest: seq<Event>, s': State, matched: bool, key: CaptureKey)
    requires TakesTo(s, reading, rest, s', matched)
    ensures Arrived(s', key) == Arrived(s, key)
  {
    assert s'.log[..|s'.log| - 1] == s.log;
    assert s.wire[reading.key][1..] == rest;
    if key == reading.key {
      assert Datagrams(s.wire[key]) == [reading.captured] + Datagrams(rest);
    }
  }

  lemma ArrivedAfterPop(s: State, at: CaptureKey, key: CaptureKey)
    requires !Head(s, at).Got?
    ensures Arrived(Popped(s, at), key) == Arrived(s, key)
  {
  }

  lemma PopKeepsInv(s: State, key: CaptureKey, s': State)
    requires Inv(s) && s' == Popped(s, key)
    ensures Inv(s')
  {
    assert s'.wire.Keys == s.wire.Keys;
    ReceiveKeepsSubs(s, s');
    assert History(s') == History(s);
  }

  // ---------------------------------------------------------------- fill

  /** One unfolding of the inner loop: stop here, lose one event that is not a
      datagram, or take one reading and go on from `mid`. */
  ghost predicate TurnStops(
    s: State, turns: nat, target: nat, budget: nat, queued: nat, captured: nat, s': State, turn: Turn)
  {
    && s' == s
    && (turns == 0 ==> turn == Exhausted(queued, captured))
    && (turns != 0 ==> (queued == target || captured == budget) && turn == TargetMet(queued))
  }

  ghost predicate TurnPops(s: State, key: CaptureKey, queued: nat, captured: nat, s': State, turn: Turn) {
    !Head(s, key).Got? && s' == Popped(s, key) && (turn == Failed || turn == Exhausted(queued, captured))
  }

  lemma FillFromCases(
    s: State, key: CaptureKey, turns: nat, target: nat, budget: nat, queued: nat, captured: nat, s': State, turn: Turn)
    returns (goesOn: bool, reading: Reading, rest: seq<Event>, mid: State, matched: bool, queued': nat)
    requires (s', turn) == FillFrom(s, key, turns, target, budget, queued, captured)
    ensures !goesOn ==>
      TurnStops(s, turns, target, budget, queued, captured, s', turn) || TurnPops(s, key, queued, captured, s', turn)
    ensures goesOn ==> turns > 0 && queued != target && captured != budget && reading.key == key
    ensures goesOn ==> TakesTo(s, reading, rest, mid, matched)
    ensures goesOn ==> queued' == (if matched then queued + 1 else queued)
    ensures goesOn ==> (s', turn) == FillFrom(mid, key, turns - 1, target, budget, queued', captured + 1)
  {
    goesOn := turns > 0 && queued != target && captured != budget && Head(s, key).Got?;
    reading := Reading(key, Captured([], V4([0, 0, 0, 0]), V4([0, 0, 0, 0]), 0, None));
    rest, mid, matched, queued' := [], s, false, 0;
    if goesOn {
      reading, rest := Reading(key, Head(s, key).captured), s.wire[key][1..];
      mid, matched := TakeReading(s, reading, rest).0, TakeReading(s, reading, rest).1;
      queued' := if matched then queued + 1 else queued;
    }
  }

  // The invariant.

  /** Room is left for every packet the fill may still queue. */
  ghost predicate Filling(s: State, target: nat, queued: nat) {
    queued <= target && |s.pending| + (target - queued) <= s.limits.maxPending
  }

  lemma {:induction false} FillFromKeepsInv(
    s: State, key: CaptureKey, turns: nat, target: nat, budget: nat, queued: nat, captured: nat, s': State, turn: Turn)
    requires Inv(s) && Filling(s, target, queued)
    requires (s', turn) == FillFrom(s, key, turns, target, budget, queued, captured)
    ensures Inv(s')
    decreases turns
  {
    hide SubsOk, OrderOk, OpenOk, InstalledOk, QueueOk, LedgerOk;
    var goesOn, reading, rest, mid, matched, queued' :=
      FillFromCases(s, key, turns, target, budget, queued, captured, s', turn);
    if goesOn {
      TakeKeepsInv(s, reading, rest, mid, matched);
      TakeRoom(s, reading, rest, mid, matched, target, queued);
      FillFromKeepsInv(mid, key, turns - 1, target, budget, queued', captured + 1, s', turn);
    } else if TurnPops(s, key, queued, captured, s', turn) {
      PopKeepsInv(s, key, s');
    }
  }

  lemma TakeRoom(s: State, reading: Reading, rest: seq<Event>, s': State, matched: bool, target: nat, queued: nat)
    requires TakesTo(s, reading, rest, s', matched) && Filling(s, target, queued) && queued != target
    ensures Filling(s', target, if matched then queued + 1 else queued)
    ensures |s'.pending| == |s.pending| + (if matched then 1 else 0) && |s'.log| == |s.log| + 1
    ensures s.pending <= s'.pending && s.log <= s'.log && s'.delivered == s.delivered
    ensures s'.order == s.order && s'.cursor == s.cursor && s'.limits == s.limits
  {
  }

  // Conservation and bounds.

  /** What one capture's turn did: it may have queued packets and read datagrams,
      within target and budget, and its counters tell how many. */
  ghost predicate TurnOk(s: State, target: nat, budget: nat, queued: nat, captured: nat, s': State, turn: Turn) {
    && ReceivesTo(s, s') && s.pending <= s'.pending
    && s'.cursor == s.cursor && s'.delivered == s.delivered
    && Filling(s', target, Counted(s, s', queued))
    && |s'.log| <= |s.log| + (budget - captured)
    && (turn.Exhausted? ==> turn.queued == Counted(s, s', queued) && turn.captured == captured + (|s'.log| - |s.log|))
    && (turn.TargetMet? ==> turn.queued == Counted(s, s', queued))
  }

  /** The queue counter after the queue grew from `s` to `s'`. */
  ghost function Counted(s: State, s': State, queued: nat): int {
    queued + |s'.pending| - |s.pending|
  }

  lemma ReceivesRefl(s: State)
    ensures ReceivesTo(s, s)
  {
  }

  lemma ReceivesTrans(a: State, b: State, c: State)
    requires ReceivesTo(a, b) && ReceivesTo(b, c)
    ensures ReceivesTo(a, c)
  {
    forall key ensures Arrived(c, key) == Arrived(a, key) {
      assert Arrived(b, key) == Arrived(a, key);
    }
  }

  lemma TakeReceives(s: State, reading: Reading, rest: seq<Event>, s': State, matched: bool)
    requires TakesTo(s, reading, rest, s', matched)
    ensures ReceivesTo(s, s')
  {
    forall key ensures Arrived(s', key) == Arrived(s, key) {
      ArrivedAfterTake(s, reading, rest, s', matched, key);
    }
  }

  lemma PopReceives(s: State, key: CaptureKey, s': State)
    requires !Head(s, key).Got? && s' == Popped(s, key)
    ensures ReceivesTo(s, s')
  {
    forall k ensures Arrived(s', k) == Arrived(s, k) {
      ArrivedAfterPop(s, key, k);
    }
  }

  lemma {:induction false} FillFromOk(
    s: State, key: CaptureKey, turns: nat, target: nat, budget: nat, queued: nat, captured: nat, s': State, turn: Turn)
    requires Filling(s, target, queued) && captured <= budget
    requires (s', turn) == FillFrom(s, key, turns, target, budget, queued, captured)
    ensures TurnOk(s, target, budget, queued, captured, s', turn)
    decreases turns
  {
    var goesOn, reading, rest, mid, matched, queued' :=
      FillFromCases(s, key, turns, target, budget, queued, captured, s', turn);
    if goesOn {
      TakeReceives(s, reading, rest, mid, matched);
      TakeRoom(s, reading, rest, mid, matched, target, queued);
      FillFromOk(mid, key, turns - 1, target, budget, queued', captured + 1, s', turn);
      ReceivesTrans(s, mid, s');
    } else if TurnPops(s, key, queued, captured, s', turn) {
      PopReceives(s, key, s');
    } else {
      ReceivesRefl(s);
    }
  }

  /** A fill queues at most its target, reads at most its budget, and otherwise
      only moves the cursor. */
  ghost predicate FillOk(s: State, target: nat, budget: nat, queued: nat, captured: nat, s': State,
    r: Result<nat, McrxError>)
  {
    && ReceivesTo(s, s') && s.pending <= s'.pending && s'.delivered == s.delivered
    && Filling(s', target, Counted(s, s', queued))
    && |s'.log| <= |s.log| + (budget - captured)
    && (r.Ok? ==> r.value == Counted(s, s', queued))
  }

  function Advanced(s: State): State
    requires s.order != []
  {
    s.(cursor := (s.cursor + 1) % |s.order|)
  }

  lemma AdvanceKeepsInv(s: State, s': State)
    requires Inv(s) && s.order != [] && s' == Advanced(s)
    ensures Inv(s')
  {
    forall id | id in s'.subs ensures SubOk(s', id) {
      assert SubOk(s, id);
    }
    assert History(s') == History(s);
  }

  lemma AdvanceReceives(s: State, s': State)
    requires s.order != [] && s' == Advanced(s)
    ensures ReceivesTo(s, s')
  {
    forall key ensures Arrived(s', key) == Arrived(s, key) {
    }
  }

  /** One unfolding of the outer loop. */
  lemma FillCapturesCases(
    s: State, left: nat, target: nat, budget: nat, queued: nat, captured: nat, s': State, r: Result<nat, McrxError>)
    returns (visits: bool, mid: State, turn: Turn)
    requires (s', r) == FillCaptures(s, left, target, budget, queued, captured)
    ensures !visits ==> s' == s && r == Ok(queued)
    ensures visits ==> left > 0 && s.cursor < |s.order|
    ensures visits ==>
      (mid, turn) == FillFrom(Advanced(s), s.order[s.cursor], target, target, budget, queued, captured)
    ensures visits && turn.Exhausted? ==>
      (s', r) == FillCaptures(mid, left - 1, target, budget, turn.queued, turn.captured)
    ensures visits && turn.TargetMet? ==> s' == mid && r == Ok(turn.queued)
    ensures visits && turn.Failed? ==> s' == mid && r.Err?
  {
    visits := left > 0 && s.cursor < |s.order|;
    mid, turn := s, Failed;
    if visits {
      var f := FillFrom(Advanced(s), s.order[s.cursor], target, target, budget, queued, captured);
      mid, turn := f.0, f.1;
    }
  }

  lemma {:induction false} FillCapturesKeepsInv(
    s: State, left: nat, target: nat, budget: nat, queued: nat, captured: nat, s': State, r: Result<nat, McrxError>)
    requires Inv(s) && Filling(s, target, queued) && captured <= budget
    requires (s', r) == FillCaptures(s, left, target, budget, queued, captured)
    ensures Inv(s')
    decreases left
  {
    hide SubsOk, OrderOk, OpenOk, InstalledOk, QueueOk, LedgerOk;
    var visits, mid, turn := FillCapturesCases(s, left, target, budget, queued, captured, s', r);
    if visits {
      var advanced := Advanced(s);
      AdvanceKeepsInv(s, advanced);
      var key := s.order[s.cursor];
      FillFromKeepsInv(advanced, key, target, target, budget, queued, captured, mid, turn);
      FillFromOk(advanced, key, target, target, budget, queued, captured, mid, turn);
      if turn.Exhausted? {
        FillCapturesKeepsInv(mid, left - 1, target, budget, turn.queued, turn.captured, s', r);
      }
    }
  }

  lemma {:induction false} FillCapturesOk(
    s: State, left: nat, target: nat, budget: nat, queued: nat, captured: nat, s': State, r: Result<nat, McrxError>)
    requires Filling(s, target, queued) && captured <= budget
    requires (s', r) == FillCaptures(s, left, target, budget, queued, captured)
    ensures FillOk(s, target, budget, queued, captured, s', r)
    decreases left
  {
    var visits, mid, turn := FillCapturesCases(s, left, target, budget, queued, captured, s', r);
    if visits {
      var advanced := Advanced(s);
      AdvanceReceives(s, advanced);
      FillFromOk(advanced, s.order[s.cursor], target, target, budget, queued, captured, mid, turn);
      ReceivesTrans(s, advanced, mid);
      if turn.Exhausted? {
        FillCapturesOk(mid, left - 1, target, budget, turn.queued, turn.captured, s', r);
        ReceivesTrans(s, mid, s');
      }
    } else {
      ReceivesRefl(s);
    }
  }

  lemma FillKeepsInv(s: State, max: nat, s': State, r: Result<nat, McrxError>)
    requires Inv(s) && (s', r) == Fill(s, max)
    ensures Inv(s')
  {
    hide SubsOk, OrderOk, OpenOk, InstalledOk, LedgerOk;
    var target := FillTarget(s, max);
    if s.order != [] && target != 0 {
      FillCapturesKeepsInv(s, |s.order|, target, target + |s.order|, 0, 0, s', r);
    }
  }

  /** fill_pending queues at most `max` packets and stays within the queue limit;
      it reads at most target plus capture-count datagrams, each of which moves
      from its socket to the log in order, even when a receive fails midway. */
  lemma FillBounds(s: State, max: nat, s': State, r: Result<nat, McrxError>)
    requires |s.pending| <= s.limits.maxPending && (s', r) == Fill(s, max)
    ensures ReceivesTo(s, s') && s.pending <= s'.pending && s'.delivered == s.delivered
    ensures |s'.log| <= |s.log| + FillTarget(s, max) + |s.order|
    ensures |s'.pending| <= |s.pending| + FillTarget(s, max) <= s.limits.maxPending
    ensures r.Ok? ==> r.value <= max && |s'.pending| == |s.pending| + r.value
  {
    var target := FillTarget(s, max);
    if s.order == [] || target == 0 {
      ReceivesRefl(s);
    } else {
      FillCapturesOk(s, |s.order|, target, target + |s.order|, 0, 0, s', r);
    }
  }

  // ---------------------------------------------------------------- hand over

  lemma HandKeepsInv(s: State, n: nat, s': State, handed: seq<Queued>)
    requires Inv(s) && n <= |s.pending| && (s', handed) == Hand(s, n)
    ensures Inv(s')
  {
    hide SubsOk, OrderOk, OpenOk, InstalledOk, QueueOk, LedgerOk;
    ReceiveKeepsSubs(s, s');
    HandKeepsQueue(s, n, s', handed);
  }

  lemma HandKeepsQueue(s: State, n: nat, s': State, handed: seq<Queued>)
    requires QueueOk(s) && LedgerOk(s) && n <= |s.pending| && (s', handed) == Hand(s, n)
    ensures QueueOk(s') && LedgerOk(s')
  {
    hide QueuedOk;
    HandReceives(s, n, s', handed);
    assert SerialSeq(s.pending) == SerialSeq(handed) + SerialSeq(s'.pending);
    assert History(s') == History(s);
    forall q | q in s'.pending ensures QueuedOk(s'.subs, s'.log, q) {
      assert q in s.pending;
    }
  }

  lemma HandReceives(s: State, n: nat, s': State, handed: seq<Queued>)
    requires n <= |s.pending| && (s', handed) == Hand(s, n)
    ensures ReceivesTo(s, s')
    ensures s'.delivered == s.delivered + SerialSeq(handed) && handed + s'.pending == s.pending
    ensures |handed| == n
  {
    assert s.pending[..n] + s.pending[n..] == s.pending;
    forall key ensures Arrived(s', key) == Arrived(s, key) {
    }
  }

  /** A handed-over packet is current: it names only subscriptions joined at that
      moment on its capture, each wanting it, the first being the one it is
      addressed to with that one's interface metadata; it carries the datagram of
      its reading. */
  ghost predicate AllCurrent(s: State, packets: seq<Queued>) {
    forall q :: q in packets ==> QueuedOk(s.subs, s.log, q)
  }

  /** A queued packet, field by field: it has the bytes, addresses, protocol and ingress
      interface of the datagram read as number `serial`, is addressed to the first of its
      ids with the interface that subscription asked for, and every listed subscription
      is joined on the capture it was read from, to its group, from its source if it
      names one. */
  ghost predicate ReportsReading(s: State, q: Queued) {
    && q.serial < |s.log| && q.ids != [] && q.ids[0] in s.subs
    && var captured := s.log[q.serial].captured;
       && q.packet.subscriptionId == q.ids[0]
       && q.packet.datagram == captured.datagram
       && q.packet.sourceIp == Some(captured.sourceIp)
       && q.packet.group == Some(captured.group)
       && q.packet.ipProtocol == Some(captured.protocol)
       && q.packet.metadata.configuredInterface == s.subs[q.ids[0]].config.interface
       && q.packet.metadata.configuredInterfaceIndex == s.subs[q.ids[0]].config.interfaceIndex
       && q.packet.metadata.destinationLocalIp == Some(captured.group)
       && q.packet.metadata.ingressInterfaceIndex == captured.ingress
       && forall id :: id in q.ids ==>
            && id in s.subs && s.subs[id].joined && s.subs[id].key == s.log[q.serial].key
            && s.subs[id].config.group == captured.group
            && s.subs[id].config.source in {Any, Source(captured.sourceIp)}
  }

  lemma CurrentReports(s: State, packets: seq<Queued>)
    requires AllCurrent(s, packets)
    ensures forall q :: q in packets ==> ReportsReading(s, q)
  {
    forall q | q in packets ensures ReportsReading(s, q) {
      assert QueuedOk(s.subs, s.log, q);
      forall id | id in q.ids
        ensures id in s.subs && s.subs[id].joined && s.subs[id].key == s.log[q.serial].key
        ensures s.subs[id].config.group == s.log[q.serial].captured.group
        ensures s.subs[id].config.source in {Any, Source(s.log[q.serial].captured.sourceIp)}
      {
        assert ListedOk(s.subs, s.log[q.serial], id);
      }
    }
  }

  lemma HandedIsCurrent(s: State, n: nat, s': State, handed: seq<Queued>)
    requires QueueOk(s) && n <= |s.pending| && (s', handed) == Hand(s, n)
    ensures AllCurrent(s', handed)
  {
    forall q | q in handed ensures QueuedOk(s'.subs, s'.log, q) {
      assert q in s.pending;
    }
  }

  /** One unfolding of a receive: hand over the front of the queue, or fill first. */
  lemma RecvCases(s: State, s': State, r: Result<Option<Queued>, McrxError>)
    returns (filled: State, fr: Result<nat, McrxError>)
    requires (s', r) == Recv(s)
    ensures if s.pending != [] then filled == s && fr == Ok(0) else (filled, fr) == Fill(s, 1)
    ensures fr.Err? ==> s' == filled && r.Err?
    ensures fr.Ok? && filled.pending == [] ==> s' == filled && r == Ok(None)
    ensures fr.Ok? && filled.pending != [] ==>
      (s', [filled.pending[0]]) == Hand(filled, 1) && r == Ok(Some(filled.pending[0]))
  {
    if s.pending != [] {
      filled, fr := s, Ok(0);
      assert s.pending[..1] == [s.pending[0]];
    } else {
      filled, fr := Fill(s, 1).0, Fill(s, 1).1;
      assert filled.pending != [] ==> filled.pending[..1] == [filled.pending[0]];
    }
  }

  lemma RecvKeepsInv(s: State, s': State, r: Result<Option<Queued>, McrxError>)
    requires Inv(s) && (s', r) == Recv(s)
    ensures Inv(s')
  {
    hide SubsOk, OrderOk, OpenOk, InstalledOk, QueueOk, LedgerOk;
    var filled, fr := RecvCases(s, s', r);
    if s.pending == [] {
      FillKeepsInv(s, 1, filled, fr);
    }
    if fr.Ok? && filled.pending != [] {
      HandKeepsInv(filled, 1, s', [filled.pending[0]]);
    }
  }

  /** try_recv_any hands over the front of the queue, refilled when empty; the
      packet is current, and is the next delivery in reading order. */
  lemma RecvDelivers(s: State, s': State, r: Result<Option<Queued>, McrxError>)
    requires Inv(s) && (s', r) == Recv(s)
    ensures ReceivesTo(s, s')
    ensures r.Ok? && r.value.Some? ==>
      AllCurrent(s', [r.value.value]) && s'.delivered == s.delivered + [r.value.value.serial]
    ensures r.Ok? && r.value.Some? ==> ReportsReading(s', r.value.value)
    ensures !(r.Ok? && r.value.Some?) ==> s'.delivered == s.delivered
  {
    hide SubsOk, OrderOk, OpenOk, InstalledOk, LedgerOk;
    var filled, fr := RecvCases(s, s', r);
    if s.pending == [] {
      FillKeepsInv(s, 1, filled, fr);
      FillBounds(s, 1, filled, fr);
    } else {
      ReceivesRefl(s);
    }
    if fr.Ok? && filled.pending != [] {
      var handed := [filled.pending[0]];
      HandReceives(filled, 1, s', handed);
      HandedIsCurrent(filled, 1, s', handed);
      ReceivesTrans(s, filled, s');
      CurrentReports(s', handed);
      assert SerialSeq(handed) == [filled.pending[0].serial];
    }
  }

  // Batches.

  /** One unfolding of the batch loop. */
  lemma BatchLoopCases(s: State, wanted: nat, s': State, packets: seq<Queued>, e: Option<McrxError>)
    returns (filled: State, fr: Result<nat, McrxError>, n: nat, mid: State, handed: seq<Queued>, rest: seq<Queued>)
    requires (s', packets, e) == BatchLoop(s, wanted)
    ensures wanted == 0 ==> s' == s && packets == []
    ensures wanted != 0 ==> (filled, fr) == Fill(s, wanted)
    ensures wanted != 0 && n == 0 ==> s' == filled && packets == []
    ensures wanted != 0 && n != 0 ==>
      && n <= wanted && n <= |filled.pending| && (mid, handed) == Hand(filled, n)
      && (s', rest, e) == BatchLoop(mid, wanted - n) && packets == handed + rest
  {
    filled, fr, n, mid, handed, rest := s, Ok(0), 0, s, [], [];
    if wanted != 0 {
      filled, fr := Fill(s, wanted).0, Fill(s, wanted).1;
      if fr.Ok? && fr.value != 0 {
        n := AtMost(wanted, filled);
        if n != 0 {
          mid, handed := Hand(filled, n).0, Hand(filled, n).1;
          rest := BatchLoop(mid, wanted - n).1;
        }
      }
    }
  }

  lemma {:induction false} BatchLoopKeepsInv(
    s: State, wanted: nat, s': State, packets: seq<Queued>, e: Option<McrxError>)
    requires Inv(s) && (s', packets, e) == BatchLoop(s, wanted)
    ensures Inv(s')
    decreases wanted
  {
    hide SubsOk, OrderOk, OpenOk, InstalledOk, QueueOk, LedgerOk;
    var filled, fr, n, mid, handed, rest := BatchLoopCases(s, wanted, s', packets, e);
    if wanted != 0 {
      FillKeepsInv(s, wanted, filled, fr);
      if n != 0 {
        HandKeepsInv(filled, n, mid, handed);
        BatchLoopKeepsInv(mid, wanted - n, s', rest, e);
      }
    }
  }

  lemma BatchKeepsInv(s: State, max: nat, s': State, packets: seq<Queued>, e: Option<McrxError>)
    requires Inv(s) && (s', packets, e) == Batch(s, max)
    ensures Inv(s')
  {
    hide SubsOk, OrderOk, OpenOk, InstalledOk, QueueOk, LedgerOk;
    if max != 0 {
      var n := AtMost(max, s);
      var h := Hand(s, n);
      HandKeepsInv(s, n, h.0, h.1);
      var b := BatchLoop(h.0, max - n);
      BatchLoopKeepsInv(h.0, max - n, b.0, b.1, b.2);
    }
  }

  /** The packets a batch appends: at most the wanted number, all current, and
      exactly the new deliveries. */
  ghost predicate BatchOk(s: State, max: nat, s': State, packets: seq<Queued>) {
    && ReceivesTo(s, s')
    && |packets| <= max
    && s'.delivered == s.delivered + SerialSeq(packets)
    && AllCurrent(s', packets)
  }

  lemma BatchNothing(s: State, max: nat, s': State)
    requires ReceivesTo(s, s') && s'.delivered == s.delivered
    ensures BatchOk(s, max, s', [])
  {
    assert SerialSeq([]) == [];
  }

  lemma CurrentGrows(s: State, s': State, packets: seq<Queued>)
    requires AllCurrent(s, packets) && ReceivesTo(s, s')
    ensures AllCurrent(s', packets)
  {
    forall q | q in packets ensures QueuedOk(s'.subs, s'.log, q) {
      assert s'.log[q.serial] == s.log[q.serial];
    }
  }

  lemma BatchStep(s: State, n: nat, mid: State, handed: seq<Queued>, wanted: nat, s': State, rest: seq<Queued>)
    requires QueueOk(s) && n <= |s.pending| && n <= wanted && (mid, handed) == Hand(s, n)
    requires BatchOk(mid, wanted - n, s', rest)
    ensures BatchOk(s, wanted, s', handed + rest)
  {
    HandReceives(s, n, mid, handed);
    HandedIsCurrent(s, n, mid, handed);
    CurrentGrows(mid, s', handed);
    ReceivesTrans(s, mid, s');
    assert SerialSeq(handed + rest) == SerialSeq(handed) + SerialSeq(rest);
  }

  lemma BatchAfterFill(s: State, filled: State, wanted: nat, s': State, packets: seq<Queued>)
    requires ReceivesTo(s, filled) && filled.delivered == s.delivered && BatchOk(filled, wanted, s', packets)
    ensures BatchOk(s, wanted, s', packets)
  {
    ReceivesTrans(s, filled, s');
  }

  lemma {:induction false} BatchLoopOk(s: State, wanted: nat, s': State, packets: seq<Queued>, e: Option<McrxError>)
    requires Inv(s) && (s', packets, e) == BatchLoop(s, wanted)
    ensures BatchOk(s, wanted, s', packets)
    decreases wanted
  {
    hide SubsOk, OrderOk, OpenOk, InstalledOk, LedgerOk;
    var filled, fr, n, mid, handed, rest := BatchLoopCases(s, wanted, s', packets, e);
    if wanted == 0 {
      ReceivesRefl(s);
      BatchNothing(s, wanted, s');
    } else {
      FillKeepsInv(s, wanted, filled, fr);
      FillBounds(s, wanted, filled, fr);
      if n == 0 {
        BatchNothing(s, wanted, s');
      } else {
        HandKeepsInv(filled, n, mid, handed);
        BatchLoopOk(mid, wanted - n, s', rest, e);
        BatchStep(filled, n, mid, handed, wanted, s', rest);
        BatchAfterFill(s, filled, wanted, s', packets);
      }
    }
  }

  /** try_recv_batch_into terminates with at most the requested number of packets;
      a receive failing midway loses none of the packets already appended. */
  lemma BatchDelivers(s: State, max: nat, s': State, packets: seq<Queued>, e: Option<McrxError>)
    requires Inv(s) && (s', packets, e) == Batch(s, max)
    ensures BatchOk(s, max, s', packets)
    ensures forall q :: q in packets ==> ReportsReading(s', q)
  {
    hide SubsOk, OrderOk, OpenOk, InstalledOk, LedgerOk;
    if max == 0 {
      ReceivesRefl(s);
      BatchNothing(s, max, s');
    } else {
      var n := AtMost(max, s);
      var h := Hand(s, n);
      HandKeepsInv(s, n, h.0, h.1);
      var b := BatchLoop(h.0, max - n);
      BatchLoopOk(h.0, max - n, b.0, b.1, b.2);
      BatchStep(s, n, h.0, h.1, max, b.0, b.1);
    }
    CurrentReports(s', packets);
  }
}
