/** Fairness of shared capture without any assumption about the other captures
    (src/raw/shared.rs): one capture that always has datagrams ready, next to others
    that may be silent or busy as they please. */
module SharedStarvation {
  import opened Wrappers
  import opened Net
  import opened Config
  import opened IpParsing
  import opened Packets
  import opened IdLists
  import opened Demux
  import opened ReceiveLoop
  import opened SharedSpec
  import opened SharedInvariants
  import opened SharedReceive
  import opened SharedCursor
  import opened SharedRounds

  // ---------------------------------------------------------------- datagrams a socket can return

  /** Something the receive loop of a capture of the family can return. */
  ghost predicate Genuine(family: Family, captured: Captured) {
    exists read: RawRead :: SharedFilter(family, read) == Deliver(captured)
  }

  type Sockets = map<CaptureKey, seq<SharedSpec.Event>>

  ghost predicate GenuineSockets(wire: Sockets) {
    forall key, i :: key in wire && 0 <= i < |wire[key]| ==> GenuineEvent(key.family, wire[key][i])
  }

  ghost predicate GenuineEvent(family: Family, e: SharedSpec.Event) {
    e.Got? ==> Genuine(family, e.captured)
  }

  /** 10.0.0.1 and fe80::1. */
  const SENDER4: Octets4 := [10, 0, 0, 1]
  const SENDER6: Octets16 := [0xfe, 0x80, 0, 0, 0, 0, 0, 0, 0, 0, 0, 0, 0, 0, 0, 1]

  /** A header-only datagram to the subscription's group from a sender it accepts. */
  function SampleDatagram(c: RawConfig): seq<Byte>
    requires IsValid(c)
  {
    if c.group.V4? then
      EncodeIpv4(SampleSender(c).v4, c.group.v4, 17, 0, [0, 0, 0, 0, 64], [0, 0], [], [])
    else
      EncodeIpv6(SampleSender(c).v6, c.group.v6, 17, [0x60, 0, 0, 0], 64, [])
  }

  function SampleSender(c: RawConfig): (r: IpAddr)
    requires IsValid(c)
    ensures r.Family() == c.Family()
  {
    ValidationExactly(c);
    if c.source.Source? then c.source.addr else if c.group.V4? then V4(SENDER4) else V6(SENDER6)
  }

  function Sample(c: RawConfig): Captured
    requires IsValid(c)
  {
    Captured(SampleDatagram(c), SampleSender(c), c.group, 17, None)
  }

  /** Every subscription can be sent a datagram it wants. */
  lemma SampleIsGenuine(c: RawConfig)
    requires IsValid(c)
    ensures Genuine(c.Family(), Sample(c)) && Wants(c, Sample(c).group, Sample(c).sourceIp)
  {
    var d, sender := SampleDatagram(c), SampleSender(c);
    assert d + [] == d;
    if c.group.V4? {
      ParseInvertsEncodeIpv4(sender.v4, c.group.v4, 17, 0, [0, 0, 0, 0, 64], [0, 0], [], [], []);
    } else {
      ParseInvertsEncodeIpv6(sender.v6, c.group.v6, 17, [0x60, 0, 0, 0], 64, [], []);
    }
    assert ParseIp(d) == Some(ParsedIp(sender, c.group, 17, |d|));
    assert d[..|d|] == d;
    assert SharedFilter(c.Family(), RawRead(d, 0)) == Deliver(Sample(c));
  }

  // ---------------------------------------------------------------- a starved capture

  function Before(p: nat, n: nat): nat
    requires p < n
  {
    if p == 0 then n - 1 else p - 1
  }

  /** The capture just before place `p` has `supply` datagrams ready, all captures but
      these two are silent, and the cursor is not at `p`. */
  ghost predicate Starving(s: State, p: nat, supply: nat) {
    && Idle(s) && 2 <= |s.order| && p < |s.order| && s.cursor != p
    && ReadyAt(s, s.order[Before(p, |s.order|)], supply)
    && forall i :: 0 <= i < |s.order| && i != p && i != Before(p, |s.order|) ==> SilentAt(s, i)
  }

  ghost predicate SilentAt(s: State, i: nat)
    requires i < |s.order|
  {
    s.order[i] in s.wire && s.wire[s.order[i]] == []
  }

  /** How far the place before `p` is ahead of the cursor. */
  function Gap(c: nat, p: nat, n: nat): (r: nat)
    requires c < n && p < n && c != p
    ensures r + 1 < n && Ahead(c, r, n) == Before(p, n) && Ahead(c, r + 1, n) == p
    ensures forall i :: 0 <= i < r ==> Ahead(c, i, n) != p && Ahead(c, i, n) != Before(p, n)
    ensures Ahead(c, r + 2, n) != p
  {
    var b := Before(p, n);
    if c <= b then b - c else b + n - c
  }

  /** The next fill takes everything from the capture before `p`. */
  lemma StarvingNext(s: State, p: nat, supply: nat, target: nat) returns (j: nat)
    requires Starving(s, p, supply) && target <= supply
    ensures j + 1 < |s.order| && KeyAhead(s, j) == s.order[Before(p, |s.order|)]
    ensures PassesFor(s, j, target) && ReadyAt(s, KeyAhead(s, j), target)
    ensures j == Gap(s.cursor, p, |s.order|)
  {
    hide Distinct, Wanted;
    var n := |s.order|;
    j := Gap(s.cursor, p, n);
    forall i | 0 <= i < j ensures Passes(s, KeyAhead(s, i), target) {
      assert SilentAt(s, Ahead(s.cursor, i, n));
    }
  }

  /** And leaves the cursor past `p` again. */
  lemma StaysStarving(s: State, p: nat, taken: nat, more: nat, s': State)
    requires Starving(s, p, taken + more) && Idle(s') && TakesFrom(s, Gap(s.cursor, p, |s.order|), taken, s')
    ensures Starving(s', p, more)
  {
    hide Distinct, Wanted, Visited;
    var n := |s.order|;
    var b := Before(p, n);
    ReadyLeft(s, s', s.order[b], taken, more);
    forall i | 0 <= i < n && i != p && i != b ensures SilentAt(s', i) {
      assert SilentAt(s, i);
      OtherKey(s, i, b);
      assert SameSocket(s, s', s.order[i]);
    }
  }

  lemma OtherKey(s: State, i: nat, j: nat)
    requires Idle(s) && i < |s.order| && j < |s.order| && i != j
    ensures s.order[i] != s.order[j]
  {
  }

  lemma {:induction false} StarvingReceives(s: State, p: nat, k: nat, more: nat, now: State)
    requires Starving(s, p, k + more) && now == RecvTimes(s, k)
    ensures Starving(now, p, more) && now.order == s.order
    decreases k
  {
    hide Starving, Recv;
    if k > 0 {
      var before := RecvTimes(s, k - 1);
      StarvingReceives(s, p, k - 1, more + 1, before);
      StarvingReceive(before, p, more, now, Recv(before).1);
    }
  }

  lemma StarvingReceive(s: State, p: nat, more: nat, s': State, r: Result<Option<Queued>, McrxError>)
    requires Starving(s, p, 1 + more) && (s', r) == Recv(s)
    ensures Starving(s', p, more) && s'.order == s.order && !Serves(s, s.order[p])
  {
    hide Recv, Passes, Wanted, Visited, Distinct;
    var j := StarvingNext(s, p, 1 + more, 1);
    ReceiveLaw(s, j, s', r);
    StaysStarving(s, p, 1, more, s');
    OtherKey(s, p, Before(p, |s.order|));
    ServesOne(s, s.order[Before(p, |s.order|)], s.order[p]);
  }

  /** No receive serves the capture at `p`, for as long as the one before it has
      datagrams. */
  lemma ReceivesStarve(s: State, p: nat, calls: nat)
    requires Starving(s, p, calls)
    ensures !ServedWithin(s, calls, s.order[p])
  {
    var key := s.order[p];
    hide Recv, Starving;
    forall k: nat | k < calls ensures !Serves(RecvTimes(s, k), key) {
      var now := RecvTimes(s, k);
      assert Starving(s, p, k + (calls - k));
      StarvingReceives(s, p, k, calls - k, now);
      assert Starving(now, p, 1 + (calls - k - 1));
      var r := Recv(now);
      StarvingReceive(now, p, calls - k - 1, r.0, r.1);
    }
  }

  lemma {:induction false} StarvingLoop(
    s: State, p: nat, wanted: nat, more: nat, end: State, packets: seq<Queued>, e: Option<McrxError>)
    requires Starving(s, p, wanted + more) && (end, packets, e) == BatchLoop(s, wanted)
    ensures Starving(end, p, more) && SameEngine(s, end)
    ensures AllReadFrom(end.log, packets, s.order[Before(p, |s.order|)])
    decreases wanted
  {
    hide BatchLoop, Passes, Wanted, Visited, Distinct, SilentAt;
    LoopEnds(s);
    if wanted > 0 {
      var key := s.order[Before(p, |s.order|)];
      var j := StarvingNext(s, p, wanted + more, FillTarget(s, wanted));
      var taken, first, next := LoopTurn(s, wanted, j);
      assert Starving(s, p, taken + (wanted - taken + more));
      StaysStarving(s, p, taken, wanted - taken + more, next);
      var rest := BatchLoop(next, wanted - taken);
      StarvingLoop(next, p, wanted - taken, more, rest.0, rest.1, rest.2);
      AllReadConcat(next.log, first, end.log, rest.1, key);
    }
  }

  lemma AllReadConcat(log: seq<Reading>, a: seq<Queued>, longer: seq<Reading>, b: seq<Queued>, key: CaptureKey)
    requires AllReadFrom(log, a, key) && log <= longer && AllReadFrom(longer, b, key)
    ensures AllReadFrom(longer, a + b, key)
  {
    forall i | 0 <= i < |a + b| ensures ReadFrom(longer, (a + b)[i], key) {
      if i < |a| {
        assert ReadFrom(log, a[i], key);
      } else {
        assert ReadFrom(longer, b[i - |a|], key);
      }
    }
  }

  lemma {:induction false} StarvingBatches(s: State, p: nat, max: nat, k: nat, more: nat, now: State)
    requires Starving(s, p, k * max + more) && now == BatchTimes(s, max, k)
    ensures Starving(now, p, more) && now.order == s.order
    decreases k
  {
    hide Starving, Batch;
    if k == 0 {
      assert 0 * max + more == more;
    } else {
      var before := BatchTimes(s, max, k - 1);
      assert k * max + more == (k - 1) * max + (max + more);
      StarvingBatches(s, p, max, k - 1, max + more, before);
      StarvingBatch(before, p, max, more, now, Batch(before, max).1);
    }
  }

  lemma StarvingBatch(s: State, p: nat, max: nat, more: nat, end: State, packets: seq<Queued>)
    requires Starving(s, p, max + more) && end == Batch(s, max).0 && packets == Batch(s, max).1
    ensures Starving(end, p, more) && end.order == s.order && !BatchServes(s, max, s.order[p])
  {
    hide Batch, BatchLoop, Wanted, Visited;
    BatchIsLoop(s, max);
    StarvingLoop(s, p, max, more, end, packets, Batch(s, max).2);
    OtherKey(s, p, Before(p, |s.order|));
    forall i | 0 <= i < |packets| ensures !ReadFrom(end.log, packets[i], s.order[p]) {
      assert ReadFrom(end.log, packets[i], s.order[Before(p, |s.order|)]);
    }
  }

  lemma SplitTimes(n: nat, k: nat, m: nat) returns (more: nat)
    requires k < n
    ensures n * m == k * m + (m + more)
  {
    more := (n - k - 1) * m;
  }

  /** Nor does any batch return one of its packets. */
  lemma BatchesStarve(s: State, p: nat, max: nat, calls: nat)
    requires Starving(s, p, calls * max)
    ensures !BatchServedWithin(s, max, calls, s.order[p])
  {
    var key := s.order[p];
    hide Batch, Starving;
    forall k: nat | k < calls ensures !BatchServes(BatchTimes(s, max, k), max, key) {
      var now := BatchTimes(s, max, k);
      var more := SplitTimes(calls, k, max);
      StarvingBatches(s, p, max, k, max + more, now);
      var b := Batch(now, max);
      StarvingBatch(now, p, max, more, b.0, b.1);
    }
  }

  // ---------------------------------------------------------------- whatever the others do

  function WithSockets(s: State, wire: Sockets): State {
    s.(wire := wire)
  }

  /** Other contents for the open sockets, all of which they can hold. */
  ghost predicate Possible(s: State, wire: Sockets) {
    wire.Keys == s.wire.Keys && GenuineSockets(wire)
  }

  /** As many receives as there are captures serve the capture if it has datagrams
      ready throughout, whatever arrives on the others. */
  ghost predicate AlwaysServed(s: State, key: CaptureKey) {
    forall wire :: Possible(s, wire) && ReadyAt(WithSockets(s, wire), key, |s.order|) ==>
      ServedWithin(WithSockets(s, wire), |s.order|, key)
  }

  /** The same for as many batches of `max`. */
  ghost predicate AlwaysServedByBatches(s: State, max: nat, key: CaptureKey) {
    forall wire :: Possible(s, wire) && ReadyAt(WithSockets(s, wire), key, |s.order| * max) ==>
      BatchServedWithin(WithSockets(s, wire), max, |s.order|, key)
  }

  /** An engine between calls, with an empty queue. */
  ghost predicate AtRest(s: State) {
    Inv(s) && s.pending == []
  }

  lemma RestIsIdle(s: State, wire: Sockets)
    requires AtRest(s) && s.order != []
    ensures Idle(WithSockets(s, wire))
  {
    hide SubsOk, OpenOk, InstalledOk, QueueOk, LedgerOk, HasJoined;
  }

  /** The socket contents that starve the capture at `p`. */
  function StarvingSockets(s: State, p: nat, mine: Captured, theirs: Captured, supply: nat): Sockets
    requires p < |s.order|
  {
    map key | key in s.wire ::
      if key == s.order[p] then seq(supply, _ => Got(mine))
      else if key == s.order[Before(p, |s.order|)] then seq(supply, _ => Got(theirs))
      else []
  }

  /** A capture always has a joined subscription somebody can send to. */
  lemma SampleFor(s: State, key: CaptureKey) returns (captured: Captured)
    requires Inv(s) && key in s.order
    ensures key in s.wire && Genuine(key.family, captured)
    ensures forall wire :: Wanted(WithSockets(s, wire), key, Got(captured))
  {
    hide IsValid, SampleDatagram, SampleSender, Scan, Sample;
    var id := SomeMember(s, key);
    var c := s.subs[id].config;
    captured := Sample(c);
    SampleIsGenuine(c);
    forall wire ensures Wanted(WithSockets(s, wire), key, Got(captured)) {
      MemberWants(WithSockets(s, wire), key, id, captured);
    }
  }

  lemma SomeMember(s: State, key: CaptureKey) returns (id: Id)
    requires Inv(s) && key in s.order
    ensures key in s.wire && id in JoinedOn(s.subs, key) && id < s.nextId
    ensures IsValid(s.subs[id].config) && key.family == s.subs[id].config.Family()
  {
    hide InstalledOk, QueueOk, LedgerOk, IsValid, SelectorOf;
    assert HasJoined(s.subs, key) && key in s.kernel.Keys;
    id :| id in JoinedOn(s.subs, key);
    assert SubOk(s, id);
  }

  lemma MemberWants(s: State, key: CaptureKey, id: Id, captured: Captured)
    requires id in JoinedOn(s.subs, key) && id < s.nextId
    requires Wants(s.subs[id].config, captured.group, captured.sourceIp)
    ensures Wanted(s, key, Got(captured))
  {
    hide Wants;
    var m := JoinedOn(s.subs, key);
    ScanExact(m, captured.group, captured.sourceIp, s.nextId);
    assert id in Scan(m, captured.group, captured.sourceIp, s.nextId);
  }

  /** A capture the cursor is not at can be starved for as long as one likes. */
  lemma CanStarve(s: State, p: nat, supply: nat) returns (wire: Sockets)
    requires AtRest(s) && p < |s.order| && p != s.cursor
    ensures Possible(s, wire) && ReadyAt(WithSockets(s, wire), s.order[p], supply)
    ensures Starving(WithSockets(s, wire), p, supply)
  {
    hide Inv, Wanted, Idle, Genuine;
    var key, prev := s.order[p], s.order[Before(p, |s.order|)];
    var mine := SampleFor(s, key);
    var theirs := SampleFor(s, prev);
    OrderIsOpen(s);
    wire := StarvingSockets(s, p, mine, theirs, supply);
    RestIsIdle(s, wire);
    StarvingSocketsWork(s, p, mine, theirs, supply, wire);
  }

  lemma OrderIsOpen(s: State)
    requires Inv(s)
    ensures forall key :: key in s.order ==> key in s.wire
  {
    hide SubsOk, InstalledOk, QueueOk, LedgerOk, HasJoined;
    forall key | key in s.order ensures key in s.wire {
      assert key in s.wire.Keys <==> key in s.kernel.Keys;
    }
  }

  lemma StarvingSocketsWork(s: State, p: nat, mine: Captured, theirs: Captured, supply: nat, wire: Sockets)
    requires p < |s.order| && wire == StarvingSockets(s, p, mine, theirs, supply) && p != s.cursor
    requires Idle(WithSockets(s, wire)) && forall key :: key in s.order ==> key in s.wire
    requires Genuine(s.order[p].family, mine) && Genuine(s.order[Before(p, |s.order|)].family, theirs)
    requires forall w :: Wanted(WithSockets(s, w), s.order[p], Got(mine))
    requires forall w :: Wanted(WithSockets(s, w), s.order[Before(p, |s.order|)], Got(theirs))
    ensures Possible(s, wire) && ReadyAt(WithSockets(s, wire), s.order[p], supply)
    ensures Starving(WithSockets(s, wire), p, supply)
  {
    hide Wanted, Genuine;
    var w, b := WithSockets(s, wire), Before(p, |s.order|);
    OtherKey(w, p, b);
    forall i | 0 <= i < |w.order| && i != p && i != b ensures SilentAt(w, i) {
      OtherKey(w, i, p);
      OtherKey(w, i, b);
      assert w.order[i] in s.order;
    }
    forall key, i | key in wire && 0 <= i < |wire[key]| ensures GenuineEvent(key.family, wire[key][i]) {
    }
    assert s.order[p] in s.order && s.order[b] in s.order;
  }

  /** A capture with datagrams ready throughout is sure to be served, whatever
      arrives on the others, exactly when the cursor is at it. */
  lemma AlwaysServedIffNext(s: State, key: CaptureKey)
    requires AtRest(s) && key in s.order
    ensures AlwaysServed(s, key) <==> s.cursor < |s.order| && key == s.order[s.cursor]
  {
    hide AtRest, Recv, ReadyAt, Possible, Starving, Serves;
    RestIsIdle(s, s.wire);
    if key == s.order[s.cursor] {
      forall wire | Possible(s, wire) && ReadyAt(WithSockets(s, wire), key, |s.order|)
        ensures ServedWithin(WithSockets(s, wire), |s.order|, key)
      {
        RestIsIdle(s, wire);
        ServedAtCursor(WithSockets(s, wire), key, |s.order|);
      }
    } else {
      var p: nat :| p < |s.order| && s.order[p] == key;
      var wire := CanStarve(s, p, |s.order|);
      ReceivesStarve(WithSockets(s, wire), p, |s.order|);
    }
  }

  lemma ServedAtCursor(s: State, key: CaptureKey, count: nat)
    requires Idle(s) && key == s.order[s.cursor] && ReadyAt(s, key, count) && count > 0
    ensures ServedWithin(s, count, key)
  {
    hide Recv;
    var (s', r) := Recv(s);
    ReceiveLaw(s, 0, s', r);
    assert RecvTimes(s, 0) == s && Serves(s, key);
  }

  /** Receives are fair whatever arrives, every capture with datagrams ready being
      served within as many receives as there are captures, exactly when one capture
      is open. */
  lemma FairIffAlone(s: State)
    requires AtRest(s) && s.order != []
    ensures (forall key :: key in s.order ==> AlwaysServed(s, key)) <==> |s.order| == 1
  {
    hide AtRest, AlwaysServed;
    RestIsIdle(s, s.wire);
    forall key | key in s.order ensures AlwaysServed(s, key) <==> key == s.order[s.cursor] {
      AlwaysServedIffNext(s, key);
    }
    if |s.order| > 1 {
      var other := if s.cursor == 0 then 1 else 0;
      OtherKey(s, other, s.cursor);
      assert s.order[other] in s.order;
    }
  }

  // Batches.

  lemma {:induction false} LoopLogGrows(s: State, wanted: nat, end: State, packets: seq<Queued>, e: Option<McrxError>)
    requires |s.pending| <= s.limits.maxPending && (end, packets, e) == BatchLoop(s, wanted)
    ensures s.log <= end.log
    decreases wanted
  {
    hide Fill, BatchLoop;
    var filled, fr, n, mid, handed, rest := BatchLoopCases(s, wanted, end, packets, e);
    if wanted > 0 {
      FillBounds(s, wanted, filled, fr);
      if n != 0 {
        LoopLogGrows(mid, wanted - n, end, rest, e);
      }
    }
  }

  lemma BatchServedAtCursor(s: State, max: nat, key: CaptureKey, count: nat)
    requires Idle(s) && key == s.order[s.cursor] && ReadyAt(s, key, count) && count >= max > 0
    ensures BatchServes(s, max, key)
  {
    hide Batch, BatchLoop, Visited, Wanted;
    BatchIsLoop(s, max);
    var taken, first, next := LoopTurn(s, max, 0);
    var rest := BatchLoop(next, max - taken);
    LoopLogGrows(next, max - taken, rest.0, rest.1, rest.2);
    assert ReadFrom(next.log, first[0], key);
    assert ReadFrom(rest.0.log, (first + rest.1)[0], key);
  }

  lemma AlwaysServedByBatchesIffNext(s: State, max: nat, key: CaptureKey)
    requires AtRest(s) && max > 0 && key in s.order
    ensures AlwaysServedByBatches(s, max, key) <==> s.cursor < |s.order| && key == s.order[s.cursor]
  {
    hide AtRest, Batch, ReadyAt, Possible, Starving, BatchServes;
    RestIsIdle(s, s.wire);
    var n := |s.order|;
    if key == s.order[s.cursor] {
      FewerTimes(n, 1, max);
      forall wire | Possible(s, wire) && ReadyAt(WithSockets(s, wire), key, n * max)
        ensures BatchServedWithin(WithSockets(s, wire), max, n, key)
      {
        RestIsIdle(s, wire);
        BatchServedAtCursor(WithSockets(s, wire), max, key, n * max);
        assert BatchTimes(WithSockets(s, wire), max, 0) == WithSockets(s, wire);
      }
    } else {
      var p: nat :| p < n && s.order[p] == key;
      var wire := CanStarve(s, p, n * max);
      BatchesStarve(WithSockets(s, wire), p, max, n);
    }
  }

  /** The same holds of batches, of whatever size. */
  lemma BatchesFairIffAlone(s: State, max: nat)
    requires AtRest(s) && s.order != [] && max > 0
    ensures (forall key :: key in s.order ==> AlwaysServedByBatches(s, max, key)) <==> |s.order| == 1
  {
    hide AtRest, AlwaysServedByBatches;
    RestIsIdle(s, s.wire);
    forall key | key in s.order ensures AlwaysServedByBatches(s, max, key) <==> key == s.order[s.cursor] {
      AlwaysServedByBatchesIffNext(s, max, key);
    }
    if |s.order| > 1 {
      var other := if s.cursor == 0 then 1 else 0;
      OtherKey(s, other, s.cursor);
      assert s.order[other] in s.order;
    }
  }
}
