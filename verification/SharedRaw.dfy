/** The shared raw capture context as the code runs it (src/raw/shared.rs): hash
    maps, capture order, cursor and pending queue updated in place, with counts
    and indexes instead of scans. Every method is proved to be the corresponding
    step of the abstract engine on the context's view, and to keep every derived
    structure in agreement with the stored subscriptions. */
module SharedRaw {
  import opened Wrappers
  import opened Net
  import opened Config
  import opened Packets
  import opened IdLists
  import opened Demux
  import opened SharedSpec
  import opened SharedInvariants
  import opened SharedReceive
  import opened SharedKernel
  import opened SharedCaches
  import opened Batches
  import SharedRuns

  datatype SharedPacket = SharedPacket(packet: RawPacket, ids: MatchingIds)

  /** A packet as the abstract queue sees it: its ids, and where its datagram is in
      the log. */
  function Seen(p: SharedPacket, serial: nat): Queued {
    Queued(p.packet, p.ids.AsSlice(), serial)
  }

  function QueueOf(packets: seq<SharedPacket>, serials: seq<nat>): (r: seq<Queued>)
    requires |packets| == |serials|
    ensures |r| == |packets|
  {
    seq(|packets|, i requires 0 <= i < |packets| => Seen(packets[i], serials[i]))
  }

  method Position<T(==)>(xs: seq<T>, x: T) returns (index: Option<nat>)
    ensures index.None? <==> x !in xs
    ensures index.Some? ==>
      index.value < |xs| && xs[index.value] == x
      && WithoutFirst(xs, x) == xs[..index.value] + xs[index.value + 1..]
  {
    var i := 0;
    while i < |xs|
      invariant i <= |xs| && x !in xs[..i]
      invariant WithoutFirst(xs, x) == xs[..i] + WithoutFirst(xs[i..], x)
    {
      if xs[i] == x {
        assert WithoutFirst(xs[i..], x) == xs[i..][1..] == xs[i + 1..];
        return Some(i);
      }
      assert WithoutFirst(xs[i..], x) == [xs[i]] + WithoutFirst(xs[i..][1..], x);
      assert xs[i..][1..] == xs[i + 1..] && xs[..i + 1] == xs[..i] + [xs[i]];
      i := i + 1;
    }
    return None;
  }

  /** A capture socket just opened. */
  const NO_MEMBERSHIPS := Capture(0, map[], CaptureDemultiplexer(map[]))

  // ---------------------------------------------------------------- agreement lemmas

  /** The kernel membership's last member is leaving exactly when it is the only
      joined one. */
  lemma LastMember(subs: Subscriptions, id: Id, key: CaptureKey, mk: MembershipKey)
    requires id in subs && subs[id].joined && key == subs[id].key && mk == MembershipKeyOf(subs[id].config)
    ensures MembersOf(JoinedOn(subs, key), mk) == {id} <==> !HasMember(WithJoined(subs, id, false), key, mk)
  {
    var m, m' := JoinedOn(subs, key), JoinedOn(WithJoined(subs, id, false), key);
    JoinedOnLeave(subs, id, key);
    if HasMember(WithJoined(subs, id, false), key, mk) {
      var x :| x in m' && MembershipKeyOf(m'[x]) == mk;
      assert x in MembersOf(m, mk);
    } else {
      assert id in MembersOf(m, mk);
      forall x | x in MembersOf(m, mk) ensures x == id {
        assert x != id ==> x in m';
      }
    }
  }

  lemma CapturesAfterJoin(
    captures: Captures, subs: Subscriptions, kernel: Kernel, id: Id, key: CaptureKey, c: Capture, kernel': Kernel)
    requires CapturesOk(captures, subs, kernel) && id in subs && !subs[id].joined && key == subs[id].key
    requires kernel' == InstalledAt(kernel, key, subs[id].config)
    requires c.Serves(JoinedOn(subs, key)[id := subs[id].config], kernel'[key])
    ensures CapturesOk(captures[key := c], WithJoined(subs, id, true), kernel')
  {
    hide Capture.Serves;
    var captures' := captures[key := c];
    forall k | k in captures' ensures captures'[k].Serves(JoinedOn(WithJoined(subs, id, true), k), kernel'[k]) {
      JoinedOnJoin(subs, id, k);
    }
  }

  /** What the bookkeeping of a join starts from: an open capture as it was, or a
      fresh one. */
  lemma CaptureBeforeJoin(
    captures: Captures, s: State, key: CaptureKey, now: Captures, m: Memberships,
    installed: map<MembershipKey, RawConfig>)
    requires CapturesOk(captures, s.subs, s.kernel) && Inv(s)
    requires now == if key in captures then captures else captures[key := NO_MEMBERSHIPS]
    requires m == JoinedOn(s.subs, key) && installed == if key in s.kernel then s.kernel[key] else map[]
    ensures key in now && now[key].Serves(m, installed)
  {
    hide Inv, Capture.Serves, JoinedOn;
    if key !in captures {
      FirstJoin(s, key);
    }
  }

  lemma CapturesAfterLeave(
    captures: Captures, subs: Subscriptions, kernel: Kernel, id: Id, key: CaptureKey, c: Capture, kernel': Kernel)
    requires CapturesOk(captures, subs, kernel) && id in subs && subs[id].joined && key == subs[id].key
    requires key in captures && key in kernel' && kernel' == kernel[key := kernel'[key]]
    requires c.Serves(JoinedOn(subs, key) - {id}, kernel'[key])
    ensures CapturesOk(captures[key := c], WithJoined(subs, id, false), kernel')
  {
    hide Capture.Serves;
    var captures' := captures[key := c];
    forall k | k in captures' ensures captures'[k].Serves(JoinedOn(WithJoined(subs, id, false), k), kernel'[k]) {
      JoinedOnLeave(subs, id, k);
    }
  }

  lemma CapturesAfterClose(captures: Captures, subs: Subscriptions, kernel: Kernel, key: CaptureKey)
    requires CapturesOk(captures, subs, kernel)
    ensures CapturesOk(captures - {key}, subs, kernel - {key})
  {
    hide Capture.Serves;
  }

  /** A joined subscription has an open capture that knows its kernel membership,
      installed by the recorded config, counting it. */
  lemma CaptureOfJoined(captures: Captures, s: State, id: Id, m: Memberships)
    requires Inv(s) && CapturesOk(captures, s.subs, s.kernel) && id in s.subs && s.subs[id].joined
    requires m == JoinedOn(s.subs, s.subs[id].key)
    ensures var key, mk := s.subs[id].key, MembershipKeyOf(s.subs[id].config);
      && id in m && m[id] == s.subs[id].config
      && key in captures && key in s.kernel && captures[key].Serves(m, s.kernel[key])
      && mk in captures[key].kernelMemberships && mk in s.kernel[key]
      && captures[key].kernelMemberships[mk].joinedConfig == s.kernel[key][mk]
      && MembershipKeyOf(s.kernel[key][mk]) == mk
      && (captures[key].kernelMemberships[mk].references == 1 <==> MembersOf(m, mk) == {id})
  {
    hide SubsOk, OrderOk, QueueOk, LedgerOk, CaptureDemultiplexer.Indexes, MembersOf;
    var key, mk := s.subs[id].key, MembershipKeyOf(s.subs[id].config);
    JoinedOnExact(s.subs, key, id);
    assert key in s.kernel <==> HasJoined(s.subs, key);
    captures[key].ExitLast(id, m, s.kernel[key]);
    assert captures[key].CountsOk(m, s.kernel[key], mk);
  }

  lemma QueueNamesStored(s: State)
    requires Inv(s)
    ensures forall q :: q in s.pending ==> q.ids != [] && forall x :: x in q.ids ==> x in s.subs
  {
    hide SubsOk, OrderOk, OpenOk, InstalledOk, LedgerOk;
    forall q | q in s.pending ensures q.ids != [] && forall x :: x in q.ids ==> x in s.subs {
      assert QueuedOk(s.subs, s.log, q);
      assert forall x :: x in q.ids ==> ListedOk(s.subs, s.log[q.serial], x);
    }
  }

  /** A leave from the bookkeeping done to the state reached, the capture closing
      with its last member. */
  lemma LeaveCompletes(
    s: State, id: Id, leaveOk: bool, selectors: Selectors, captures: Captures, c: Capture, left: State, s': State,
    captures': Captures)
    requires Inv(s) && SelectorsOk(selectors, s.subs) && CapturesOk(captures, s.subs, s.kernel) && LeavesTo(s, id, left)
    requires leaveOk || HasMember(WithJoined(s.subs, id, false), s.subs[id].key, MembershipKeyOf(s.subs[id].config))
    requires var key := s.subs[id].key;
      && key in captures && key in left.kernel && left.kernel == s.kernel[key := left.kernel[key]]
      && c.Serves(JoinedOn(s.subs, key) - {id}, left.kernel[key])
      && s' == (if c.memberships == 0 then CloseCapture(left, key) else left)
      && captures' == (if c.memberships == 0 then captures[key := c] - {key} else captures[key := c])
    ensures (s', Ok(())) == Leave(s, id, leaveOk) && Inv(s')
    ensures SelectorsOk(selectors, s'.subs) && CapturesOk(captures', s'.subs, s'.kernel)
  {
    hide Inv, SelectorsOk, CapturesOk, Capture.Serves, JoinedOn, Leave, Purge, Serials, HasMember, HasJoined;
    var key := s.subs[id].key;
    CapturesAfterLeave(captures, s.subs, s.kernel, id, key, c, left.kernel);
    SelectorsUnaffected(selectors, s.subs, id, false);
    StillServed(s.subs, id, c, left.kernel[key]);
    CapturesAfterClose(captures[key := c], left.subs, left.kernel, key);
    LeaveSucceeds(s, id, leaveOk, left, s');
  }

  /** A join from the bookkeeping done to the state reached. */
  lemma JoinCompletes(
    s: State, id: Id, openOk: bool, joinOk: bool, selectors: Selectors, captures: Captures, c: Capture, s': State,
    captures': Captures)
    requires Inv(s) && SelectorsOk(selectors, s.subs) && CapturesOk(captures, s.subs, s.kernel) && JoinsTo(s, id, s')
    requires var key, mk := s.subs[id].key, MembershipKeyOf(s.subs[id].config);
      && (key in s.kernel || openOk) && (mk in (if key in s.kernel then s.kernel[key] else map[]) || joinOk)
      && c.Serves(JoinedOn(s.subs, key)[id := s.subs[id].config], s'.kernel[key])
      && captures' == captures[key := c]
    ensures (s', Ok(())) == Join(s, id, openOk, joinOk) && Inv(s')
    ensures SelectorsOk(selectors, s'.subs) && CapturesOk(captures', s'.subs, s'.kernel)
  {
    hide Inv, SelectorsOk, CapturesOk, Capture.Serves, JoinedOn, Join;
    JoinSucceeds(s, id, openOk, joinOk, s');
    SelectorsUnaffected(selectors, s.subs, id, true);
    CapturesAfterJoin(captures, s.subs, s.kernel, id, s.subs[id].key, c, s'.kernel);
  }

  /** An add from the resolved key to the state reached. */
  lemma AddCompletes(
    s: State, config: RawConfig, lookup: Option<U32>, selectors: Selectors, key: CaptureKey, captures: Captures,
    selectors': Selectors, s': State)
    requires Inv(s) && SelectorsOk(selectors, s.subs) && CapturesOk(captures, s.subs, s.kernel)
    requires config.Validate().Ok? && |s.subs| < s.limits.maxSubscriptions
    requires var selector := SelectorOf(config);
      && (if selector in selectors then key == selectors[selector].key
          else lookup.Some? && key == CaptureKey(config.Family(), lookup.value))
      && selectors' == selectors[selector := Resolved(key,
           (if selector in selectors then selectors[selector].references else 0) + 1)]
    requires s' == s.(subs := s.subs[s.nextId := Subscription(config, key, false)], nextId := s.nextId + 1)
    ensures (s', Ok(s.nextId)) == Add(s, config, lookup) && Inv(s')
    ensures SelectorsOk(selectors', s'.subs) && CapturesOk(captures, s'.subs, s'.kernel)
  {
    hide Inv, SelectorsOk, CapturesOk, CachedKey;
    CacheIsCachedKey(selectors, s.subs, SelectorOf(config));
    AddKeepsInv(s, config, lookup, s', Ok(s.nextId));
    NextIdIsNew(s);
    SelectorAdded(selectors, s.subs, s.nextId, Subscription(config, key, false), selectors');
    CapturesUnjoinedChange(captures, s.subs, s.kernel, s'.subs);
  }

  /** The ways an add fails. */
  lemma AddFails(s: State, config: RawConfig, lookup: Option<U32>, selectors: Selectors, e: McrxError)
    requires SelectorsOk(selectors, s.subs)
    requires
      if config.Validate().Err? then e == config.Validate().error
      else if |s.subs| >= s.limits.maxSubscriptions then e == SubscriptionLimitExceeded(s.limits.maxSubscriptions)
      else SelectorOf(config) !in selectors && lookup.None? && e == InterfaceLookupFailed
    ensures Add(s, config, lookup) == (s, Err(e))
  {
    hide SelectorsOk, CachedKey;
    CacheIsCachedKey(selectors, s.subs, SelectorOf(config));
  }

  lemma LeaveUnjoins(s: State, id: Id, leaveOk: bool, s': State, r: Result<(), McrxError>)
    requires (s', r) == Leave(s, id, leaveOk) && r.Ok?
    ensures id in s'.subs && !s'.subs[id].joined
  {
  }

  lemma StoredIsCached(selectors: Selectors, subs: Subscriptions, id: Id)
    requires SelectorsOk(selectors, subs) && id in subs
    ensures KeyCached(selectors, subs[id]) && selectors[SelectorOf(subs[id].config)].references > 0
  {
    InOwnSelector(subs, id);
  }

  /** Dropping a subscription that is not joined, and its share of the cache. */
  lemma RemoveCompletes(left: State, id: Id, selectors': Selectors, s': State, captures: Captures)
    requires id in left.subs && !left.subs[id].joined && Inv(left) && s' == left.(subs := left.subs - {id})
    requires SelectorsOk(selectors', left.subs - {id}) && CapturesOk(captures, left.subs, left.kernel)
    ensures Inv(s') && SelectorsOk(selectors', s'.subs) && CapturesOk(captures, s'.subs, s'.kernel)
  {
    hide SubsOk, OrderOk, OpenOk, InstalledOk, QueueOk, LedgerOk, SelectorsOk, CapturesOk;
    UnjoinedChange(left, s');
    RemoveKeepsSubs(left, id, s');
    CapturesUnjoinedChange(captures, left.subs, left.kernel, s'.subs);
  }

  lemma CaptureServes(captures: Captures, subs: Subscriptions, kernel: Kernel, key: CaptureKey)
    requires CapturesOk(captures, subs, kernel) && key in captures
    ensures key in kernel && captures[key].demultiplexer.Indexes(JoinedOn(subs, key))
  {
    hide CaptureDemultiplexer.Indexes;
  }

  lemma FirstIsStored(s: State, reading: Reading, id: Id)
    requires Inv(s) && MatchesOf(s, reading) != [] && id == MatchesOf(s, reading)[0]
    ensures id in s.subs
  {
    hide OrderOk, OpenOk, InstalledOk, QueueOk, LedgerOk;
    MatchesExact(s, reading);
    assert id in MatchesOf(s, reading);
  }

  /** A reading recorded with its matches is the abstract step. */
  lemma TakeCompletes(s: State, reading: Reading, rest: seq<Event>, s': State, matched: bool)
    requires reading.key in s.wire && s.wire[reading.key] == [Got(reading.captured)] + rest
    requires matched <==> MatchesOf(s, reading) != []
    requires s' == s.(wire := s.wire[reading.key := rest], log := s.log + [reading], pending := s'.pending,
                      unmatched := if matched then s.unmatched else s.unmatched + {|s.log|})
    requires s'.pending == if matched then s.pending + [NewlyQueued(s, reading)] else s.pending
    requires |s.pending| < s.limits.maxPending && Inv(s)
    ensures (s', matched) == TakeReading(s, reading, rest) && Inv(s')
  {
    hide SubsOk, OrderOk, OpenOk, InstalledOk, QueueOk, LedgerOk, Scan;
    var t := TakeReading(s, reading, rest);
    TakeEffect(s, reading, rest, t.0, t.1);
    TakeKeepsInv(s, reading, rest, t.0, t.1);
  }

  // The receive loops, one unfolding at a time.

  lemma TurnEnds(s: State, key: CaptureKey, turns: nat, target: nat, budget: nat, q: nat, c: nat)
    requires turns == 0 || q == target || c == budget
    ensures FillFrom(s, key, turns, target, budget, q, c) == (s, if turns == 0 then Exhausted(q, c) else TargetMet(q))
  {
  }

  lemma TurnGoesOn(
    s: State, key: CaptureKey, turns: nat, target: nat, budget: nat, q: nat, c: nat, e: Event, s': State, matched: bool)
    requires turns > 0 && q != target && c != budget && Filling(s, target, q)
    requires e == Head(s, key)
    requires !e.Got? ==> s' == Popped(s, key)
    requires e.Got? ==> (s', matched) == TakeReading(s, Reading(key, e.captured), Popped(s, key).wire[key])
    ensures e.Fault? ==> FillFrom(s, key, turns, target, budget, q, c) == (s', Failed)
    ensures e.Blocked? ==> FillFrom(s, key, turns, target, budget, q, c) == (s', Exhausted(q, c))
    ensures e.Got? ==> Filling(s', target, if matched then q + 1 else q)
    ensures e.Got? ==>
      FillFrom(s, key, turns, target, budget, q, c)
      == FillFrom(s', key, turns - 1, target, budget, if matched then q + 1 else q, c + 1)
  {
    hide Scan;
  }

  lemma FillEnds(s: State, target: nat, budget: nat, q: nat, c: nat)
    ensures FillCaptures(s, 0, target, budget, q, c) == (s, Ok(q))
  {
  }

  lemma CursorListed(captures: Captures, s: State)
    requires Inv(s) && CapturesOk(captures, s.subs, s.kernel) && s.order != []
    ensures s.cursor < |s.order| && s.order[s.cursor] in captures
  {
    hide SubsOk, InstalledOk, QueueOk, LedgerOk, Capture.Serves, HasJoined;
    assert s.order[s.cursor] in s.order;
  }

  lemma CaptureVisited(
    s: State, key: CaptureKey, left: nat, target: nat, budget: nat, q: nat, c: nat, advanced: State, s': State,
    turn: Turn)
    requires left > 0 && s.cursor < |s.order| && key == s.order[s.cursor] && advanced == Advanced(s)
    requires Filling(s, target, q) && c <= budget
    requires (s', turn) == FillFrom(advanced, key, target, target, budget, q, c)
    ensures turn.Exhausted? ==> Filling(s', target, turn.queued) && turn.captured <= budget
    ensures FillCaptures(s, left, target, budget, q, c)
      == match turn
         case Exhausted(q', c') => FillCaptures(s', left - 1, target, budget, q', c')
         case TargetMet(q') => (s', Ok(q'))
         case Failed => (s', Err(ReceiveFailed))
  {
    hide FillFrom;
    FillFromOk(advanced, key, target, target, budget, q, c, s', turn);
  }

  lemma QueueSplit(packets: seq<SharedPacket>, serials: seq<nat>, n: nat)
    requires |packets| == |serials| && n <= |packets|
    ensures QueueOf(packets[..n], serials[..n]) == QueueOf(packets, serials)[..n]
    ensures QueueOf(packets[n..], serials[n..]) == QueueOf(packets, serials)[n..]
  {
  }

  lemma QueueConcat(packets: seq<SharedPacket>, serials: seq<nat>, more: seq<SharedPacket>, moreSerials: seq<nat>)
    requires |packets| == |serials| && |more| == |moreSerials|
    ensures QueueOf(packets + more, serials + moreSerials) == QueueOf(packets, serials) + QueueOf(more, moreSerials)
  {
  }

  lemma BatchStarts(s: State, max: nat, s': State, drained: seq<Queued>, wanted: nat)
    requires max > 0 && (s', drained) == Hand(s, AtMost(max, s)) && wanted == max - |drained|
    ensures Continues(Batch(s, max), drained, BatchLoop(s', wanted))
  {
    hide BatchLoop;
  }

  lemma BatchLoopEnds(s: State)
    ensures BatchLoop(s, 0) == (s, [], None) && Batch(s, 0) == (s, [], None)
  {
  }

  lemma BatchStops(s: State, wanted: nat, filled: State, queued: Result<nat, McrxError>)
    requires wanted > 0 && (filled, queued) == Fill(s, wanted) && (queued.Err? || queued.value == 0)
    ensures BatchLoop(s, wanted) == (filled, [], if queued.Err? then Some(queued.error) else None)
  {
    hide Fill;
  }

  /** A fill that queued something makes the batch progress. */
  lemma BatchGoesOn(
    s: State, wanted: nat, filled: State, queued: Result<nat, McrxError>, mid: State, more: seq<Queued>,
    batch: BatchResult<State, Queued, McrxError>, soFar: seq<Queued>)
    requires Inv(s) && wanted > 0 && (filled, queued) == Fill(s, wanted) && queued.Ok? && queued.value > 0
    requires (mid, more) == Hand(filled, AtMost(wanted, filled))
    requires Continues(batch, soFar, BatchLoop(s, wanted))
    ensures 0 < |more| <= wanted
    ensures Continues(batch, soFar + more, BatchLoop(mid, wanted - |more|))
  {
    hide SubsOk, OrderOk, OpenOk, InstalledOk, LedgerOk, Fill;
    FillBounds(s, wanted, filled, queued);
    var rest := BatchLoop(mid, wanted - |more|);
    assert soFar + (more + rest.1) == (soFar + more) + rest.1;
  }

  /** What a receive reports, as the abstract engine sees it. */
  function Reported(r: Result<Option<SharedPacket>, McrxError>, serial: nat): Result<Option<Queued>, McrxError> {
    match r
    case Err(e) => Err(e)
    case Ok(None) => Ok(None)
    case Ok(Some(p)) => Ok(Some(Seen(p, serial)))
  }

  lemma QueueEnds(packets: seq<SharedPacket>, serials: seq<nat>, id: Id, subs: Subscriptions)
    requires |packets| == |serials|
    ensures var queue := QueueOf(packets, serials);
      |queue| == |packets| && QueueOf([], []) == [] && queue[0..] == queue && Purge(queue[|packets|..], id, subs) == []
  {
    hide PurgeOne;
  }

  lemma QueueAt(packets: seq<SharedPacket>, serials: seq<nat>, i: nat)
    requires |packets| == |serials| && i < |packets|
    ensures var queue := QueueOf(packets, serials); queue[i] == Seen(packets[i], serials[i]) && queue[i] in queue
  {
  }

  lemma QueueGrows(packets: seq<SharedPacket>, serials: seq<nat>, p: SharedPacket, serial: nat)
    requires |packets| == |serials|
    ensures QueueOf(packets + [p], serials + [serial]) == QueueOf(packets, serials) + [Seen(p, serial)]
  {
  }

  lemma PurgeHead(queue: seq<Queued>, i: nat, id: Id, subs: Subscriptions)
    requires i < |queue|
    ensures Purge(queue[i..], id, subs)
      == (match PurgeOne(queue[i], id, subs) case Some(q) => [q] case None => []) + Purge(queue[i + 1..], id, subs)
  {
    hide PurgeOne;
    assert queue[i..][0] == queue[i] && queue[i..][1..] == queue[i + 1..];
  }

  lemma KernelAfterLeave(kernel: Kernel, key: CaptureKey, mk: MembershipKey, last: bool, kernel': Kernel)
    requires key in kernel
    requires kernel' == if last then kernel[key := kernel[key] - {mk}] else kernel
    ensures kernel' == RemovedAt(kernel, key, mk, last) && kernel' == kernel[key := kernel'[key]]
  {
    PutTwice(kernel, key, kernel[key], kernel[key]);
  }

  /** The capture's count says whether anyone is still joined. */
  lemma StillServed(subs: Subscriptions, id: Id, c: Capture, installed: map<MembershipKey, RawConfig>)
    requires id in subs && subs[id].joined && c.Serves(JoinedOn(subs, subs[id].key) - {id}, installed)
    ensures c.memberships == 0 <==> !HasJoined(WithJoined(subs, id, false), subs[id].key)
  {
    hide CaptureDemultiplexer.Indexes, JoinedOn;
    var m' := JoinedOn(WithJoined(subs, id, false), subs[id].key);
    JoinedOnLeave(subs, id, subs[id].key);
    assert |m'| == 0 <==> m' == map[];
  }

  lemma ListedWhileJoined(s: State, id: Id)
    requires Inv(s) && id in s.subs && s.subs[id].joined
    ensures s.subs[id].key in s.order
  {
    hide SubsOk, OpenOk, InstalledOk, QueueOk, LedgerOk;
    JoinedOnExact(s.subs, s.subs[id].key, id);
  }

  /** The ways a leave fails. */
  lemma LeaveFails(s: State, id: Id, leaveOk: bool, e: McrxError)
    requires
      if id !in s.subs then e == SubscriptionNotFound
      else if !s.subs[id].joined then e == SubscriptionNotJoined
      else
        && e == SocketOptionFailed && !leaveOk
        && !HasMember(WithJoined(s.subs, id, false), s.subs[id].key, MembershipKeyOf(s.subs[id].config))
    ensures Leave(s, id, leaveOk) == (s, Err(e))
  {
  }

  /** A leave whose kernel leave, if needed, succeeds. */
  lemma LeaveSucceeds(s: State, id: Id, leaveOk: bool, left: State, s': State)
    requires Inv(s) && LeavesTo(s, id, left) && ClosesTo(left, s.subs[id].key, s')
    requires leaveOk || HasMember(WithJoined(s.subs, id, false), s.subs[id].key, MembershipKeyOf(s.subs[id].config))
    ensures (s', Ok(())) == Leave(s, id, leaveOk) && Inv(s')
  {
    hide SubsOk, OrderOk, OpenOk, InstalledOk, QueueOk, LedgerOk, Purge, HasMember, HasJoined;
    LeftStateInv(s, id, left, s');
  }

  lemma CapturesUnjoinedChange(captures: Captures, subs: Subscriptions, kernel: Kernel, subs': Subscriptions)
    requires CapturesOk(captures, subs, kernel) && SameJoined(subs, subs')
    ensures CapturesOk(captures, subs', kernel)
  {
    hide Capture.Serves;
    SameMemberships(subs, subs');
  }

  lemma EmptyServes()
    ensures NO_MEMBERSHIPS.Serves(map[], map[])
  {
    var d := CaptureDemultiplexer(map[]);
    forall g, s, x ensures !d.Group(g).Lists(s, x) {
      assert d.Group(g) == EMPTY_GROUP;
    }
  }

  /** The index lookup answers the linear scan over the joined subscriptions. */
  lemma LookupIsScan(s: State, reading: Reading, found: Option<MatchingIds>)
    requires Inv(s)
    requires var m := JoinedOn(s.subs, reading.key);
      var group, source := reading.captured.group, reading.captured.sourceIp;
      && (found.None? ==> forall x :: x in m ==> !Wants(m[x], group, source))
      && (found.Some? ==> found.value.AsSlice() != [] && Ascending(found.value.AsSlice()))
      && (found.Some? ==> forall x :: x in found.value.AsSlice() <==> x in m && Wants(m[x], group, source))
    ensures MatchesOf(s, reading) == if found.Some? then found.value.AsSlice() else []
  {
    MatchesExact(s, reading);
    var ids := if found.Some? then found.value.AsSlice() else [];
    forall x ensures x in MatchesOf(s, reading) <==> x in ids {
      assert ListedOk(s.subs, reading, x) <==>
        x in JoinedOn(s.subs, reading.key)
        && Wants(JoinedOn(s.subs, reading.key)[x], reading.captured.group, reading.captured.sourceIp);
    }
    AscendingUnique(MatchesOf(s, reading), ids);
  }

  /** A capture about to be opened has no joined subscription yet. */
  lemma FirstJoin(s: State, key: CaptureKey)
    requires Inv(s) && key !in s.kernel
    ensures JoinedOn(s.subs, key) == map[]
    ensures NO_MEMBERSHIPS.Serves(JoinedOn(s.subs, key), map[])
  {
    EmptyServes();
    assert forall id :: id !in JoinedOn(s.subs, key);
  }

  /** Closing a capture right after opening it restores order, cursor and maps. */
  lemma CloseUndoesOpen(
    order: seq<CaptureKey>, cursor: nat, captures: Captures, kernel: Kernel, wire: map<CaptureKey, seq<Event>>,
    key: CaptureKey)
    requires key !in order && (if order == [] then cursor == 0 else cursor < |order|)
    requires key !in captures && key !in kernel && key !in wire
    ensures WithoutFirst(order + [key], key) == order && WrapCursor(cursor, |order|) == cursor
    ensures captures[key := NO_MEMBERSHIPS] - {key} == captures
    ensures kernel[key := map[]] - {key} == kernel && wire[key := []] - {key} == wire
  {
    hide WithoutFirst;
    WithoutLast(order, key);
    PutThenTake(captures, key, NO_MEMBERSHIPS);
    PutThenTake(kernel, key, map[]);
    PutThenTake(wire, key, []);
  }

  lemma PutThenTake<K, V>(m: map<K, V>, k: K, v: V)
    requires k !in m
    ensures m[k := v] - {k} == m
  {
  }

  lemma PutTwice<K, V>(m: map<K, V>, k: K, a: V, b: V)
    ensures m[k := a][k := b] == m[k := b]
    ensures k in m && m[k] == b ==> m[k := b] == m
  {
  }

  /** Installing on a capture that is open, already or from just now. */
  lemma InstalledInPlace(kernel: Kernel, key: CaptureKey, config: RawConfig)
    ensures var mk := MembershipKeyOf(config);
      if key in kernel && mk in kernel[key] then InstalledAt(kernel, key, config) == kernel
      else if key in kernel then InstalledAt(kernel, key, config) == kernel[key := kernel[key][mk := config]]
      else InstalledAt(kernel, key, config) == kernel[key := map[]][key := map[][mk := config]]
  {
    var mk := MembershipKeyOf(config);
    if key !in kernel {
      PutTwice(kernel, key, map[], map[][mk := config]);
    } else if mk in kernel[key] {
      PutTwice(kernel, key, kernel[key], kernel[key]);
    }
  }

  lemma JoinedOnExact(subs: Subscriptions, key: CaptureKey, id: Id)
    ensures id in JoinedOn(subs, key) <==> id in subs && subs[id].joined && subs[id].key == key
    ensures id in JoinedOn(subs, key) ==> JoinedOn(subs, key)[id] == subs[id].config && HasJoined(subs, key)
  {
  }

  /** The ways a join fails. */
  lemma JoinFails(s: State, id: Id, openOk: bool, joinOk: bool, e: McrxError)
    requires
      if id !in s.subs then e == SubscriptionNotFound
      else if s.subs[id].joined then e == SubscriptionAlreadyJoined
      else if s.subs[id].key !in s.kernel && !openOk then e == SocketOpenFailed
      else
        && e == SocketOptionFailed && !joinOk
        && (s.subs[id].key in s.kernel ==> MembershipKeyOf(s.subs[id].config) !in s.kernel[s.subs[id].key])
    ensures Join(s, id, openOk, joinOk) == (s, Err(e))
  {
  }

  /** A join whose system calls succeed reaches the joined state. */
  lemma JoinSucceeds(s: State, id: Id, openOk: bool, joinOk: bool, s': State)
    requires Inv(s) && JoinsTo(s, id, s')
    requires var key, mk := s.subs[id].key, MembershipKeyOf(s.subs[id].config);
      && (key in s.kernel || openOk) && (mk in (if key in s.kernel then s.kernel[key] else map[]) || joinOk)
    ensures (s', Ok(())) == Join(s, id, openOk, joinOk) && Inv(s')
  {
    hide SubsOk, OrderOk, OpenOk, InstalledOk, QueueOk, LedgerOk;
    JoinedStateInv(s, id, s');
  }

  lemma {:induction false} WithoutLast<T>(xs: seq<T>, x: T)
    requires x !in xs
    ensures WithoutFirst(xs + [x], x) == xs
  {
    if xs == [] {
      assert xs + [x] == [x];
    } else {
      WithoutLast(xs[1..], x);
      assert (xs + [x])[1..] == xs[1..] + [x];
    }
  }

  // ---------------------------------------------------------------- the context

  class SharedRawContext {
    const limits: Limits
    var subscriptions: Subscriptions
    var resolvedKeys: Selectors
    var captures: Captures
    var captureOrder: seq<CaptureKey>
    var pending: seq<SharedPacket>
    var nextId: Id
    var cursor: nat

    // The operating system: receive queues of the open sockets, and the
    // memberships installed on them.
    var wire: map<CaptureKey, seq<Event>>
    ghost var kernel: Kernel

    // The ledger.
    ghost var serials: seq<nat>
    ghost var log: seq<Reading>
    ghost var unmatched: set<nat>
    ghost var delivered: seq<nat>
    ghost var purged: set<nat>

    ghost predicate Matched()
      reads this
    {
      |pending| == |serials|
    }

    ghost function View(): State
      reads this
      requires Matched()
    {
      State(limits, subscriptions, nextId, captureOrder, cursor, QueueOf(pending, serials), kernel, wire,
            log, unmatched, delivered, purged)
    }

    /** The derived structures agree with the stored subscriptions. */
    ghost predicate Agrees()
      reads this
    {
      SelectorsOk(resolvedKeys, subscriptions) && CapturesOk(captures, subscriptions, kernel)
    }

    ghost predicate Valid()
      reads this
    {
      Matched() && Agrees() && Inv(View())
    }

    constructor (limits: Limits)
      requires limits.maxSubscriptions > 0 && limits.maxPending > 0
      ensures Valid() && View() == Initial(limits)
    {
      this.limits := limits;
      subscriptions, resolvedKeys, captures, captureOrder, pending := map[], map[], map[], [], [];
      nextId, cursor, wire, kernel := 1, 0, map[], map[];
      serials, log, unmatched, delivered, purged := [], [], {}, [], {};
      new;
      assert QueueOf(pending, serials) == [];
      InitialInv(limits);
    }

    static method WithLimits(limits: Limits) returns (r: Result<SharedRawContext, McrxError>)
      ensures r.Ok? <==> limits.maxSubscriptions > 0 && limits.maxPending > 0
      ensures r.Ok? ==> fresh(r.value) && r.value.Valid() && r.value.View() == Initial(limits)
      ensures r.Err? ==> r.error == InvalidSharedRawCaptureLimits
    {
      if limits.maxSubscriptions == 0 || limits.maxPending == 0 {
        return Err(InvalidSharedRawCaptureLimits);
      }
      var context := new SharedRawContext(limits);
      return Ok(context);
    }

    // -------------------------------------------------------------- add

    method ResolveCaptureKey(config: RawConfig, lookup: Option<U32>) returns (r: Result<CaptureKey, McrxError>)
      modifies `resolvedKeys
      ensures var selector := SelectorOf(config); var before := old(resolvedKeys);
        && (r.Err? ==>
              r.error == InterfaceLookupFailed && selector !in before && lookup.None? && resolvedKeys == before)
        && (r.Ok? ==> resolvedKeys == before[selector := Resolved(r.value,
              (if selector in before then before[selector].references else 0) + 1)])
        && (r.Ok? && selector in before ==> r.value == before[selector].key)
        && (r.Ok? && selector !in before ==> lookup.Some? && r.value == CaptureKey(config.Family(), lookup.value))
    {
      var selector := SelectorOf(config);
      if selector in resolvedKeys {
        var entry := resolvedKeys[selector];
        resolvedKeys := resolvedKeys[selector := entry.(references := entry.references + 1)];
        return Ok(entry.key);
      }
      match lookup {
        case None => return Err(InterfaceLookupFailed);
        case Some(index) =>
          var key := CaptureKey(config.Family(), index);
          resolvedKeys := resolvedKeys[selector := Resolved(key, 1)];
          return Ok(key);
      }
    }

    method AddSubscription(config: RawConfig, lookup: Option<U32>) returns (r: Result<Id, McrxError>)
      requires Valid()
      modifies `subscriptions, `resolvedKeys, `nextId
      ensures Valid()
      ensures (View(), r) == Add(old(View()), config, lookup)
      ensures r.Err? ==> unchanged(this)
    {
      hide Inv, SelectorsOk, CapturesOk, QueueOf, Add;
      if config.Validate().Err? {
        AddFails(View(), config, lookup, resolvedKeys, config.Validate().error);
        return Err(config.Validate().error);
      }
      if |subscriptions| >= limits.maxSubscriptions {
        AddFails(View(), config, lookup, resolvedKeys, SubscriptionLimitExceeded(limits.maxSubscriptions));
        return Err(SubscriptionLimitExceeded(limits.maxSubscriptions));
      }
      var resolved := ResolveCaptureKey(config, lookup);
      if resolved.Err? {
        AddFails(View(), config, lookup, resolvedKeys, resolved.error);
        return Err(resolved.error);
      }
      var id := nextId;
      nextId := nextId + 1;
      subscriptions := subscriptions[id := Subscription(config, resolved.value, false)];
      AddCompletes(old(View()), config, lookup, old(resolvedKeys), resolved.value, captures, resolvedKeys, View());
      return Ok(id);
    }

    // -------------------------------------------------------------- join

    /** The kernel join of a socket; asked at most once per membership. */
    method KernelJoin(key: CaptureKey, config: RawConfig, ok: bool) returns (joined: bool)
      requires key in kernel && MembershipKeyOf(config) !in kernel[key]
      modifies `kernel
      ensures joined == ok
      ensures kernel
        == if ok then old(kernel)[key := old(kernel)[key][MembershipKeyOf(config) := config]] else old(kernel)
    {
      if ok {
        kernel := kernel[key := kernel[key][MembershipKeyOf(config) := config]];
      }
      return ok;
    }

    method OpenCapture(key: CaptureKey)
      requires key !in captures && key !in kernel
      modifies `captures, `captureOrder, `kernel, `wire
      ensures captures == old(captures)[key := NO_MEMBERSHIPS]
      ensures captureOrder == old(captureOrder) + [key]
      ensures kernel == old(kernel)[key := map[]] && wire == old(wire)[key := []]
    {
      captures := captures[key := NO_MEMBERSHIPS];
      captureOrder := captureOrder + [key];
      kernel := kernel[key := map[]];
      wire := wire[key := []];
    }

    method RemoveCapture(key: CaptureKey)
      requires key in captureOrder
      modifies `captures, `captureOrder, `cursor, `kernel, `wire
      ensures captures == old(captures) - {key}
      ensures captureOrder == WithoutFirst(old(captureOrder), key)
      ensures cursor == WrapCursor(old(cursor), |captureOrder|)
      ensures kernel == old(kernel) - {key} && wire == old(wire) - {key}
    {
      captures := captures - {key};
      var index := Position(captureOrder, key);
      captureOrder := captureOrder[..index.value] + captureOrder[index.value + 1..];
      if captureOrder == [] {
        cursor := 0;
      } else {
        cursor := cursor % |captureOrder|;
      }
      kernel := kernel - {key};
      wire := wire - {key};
    }

    /** What opening a capture relies on: one that is not open is listed nowhere,
        an open one knows its kernel memberships. */
    ghost predicate Openable(key: CaptureKey)
      reads this
    {
      && (key in captures <==> key in kernel)
      && (key in captures ==> captures[key].kernelMemberships.Keys == kernel[key].Keys)
      && (key !in captures ==> key !in captureOrder && key !in wire)
      && (if captureOrder == [] then cursor == 0 else cursor < |captureOrder|)
    }

    lemma ValidIsOpenable(key: CaptureKey)
      requires Valid()
      ensures Openable(key)
    {
      hide SubsOk, InstalledOk, QueueOk, LedgerOk, HasJoined, SelectorsOk;
      assert key in View().order <==> HasJoined(subscriptions, key);
      assert key in wire.Keys <==> key in kernel.Keys;
    }

    /** Opens the capture if needed and installs the membership unless it already
        is; a refused kernel join closes a capture opened for it. */
    method EnsureMembership(key: CaptureKey, config: RawConfig, openOk: bool, joinOk: bool)
      returns (r: Result<(), McrxError>)
      requires Openable(key)
      modifies `captures, `captureOrder, `cursor, `kernel, `wire
      ensures r.Err? ==> unchanged(this)
      ensures r.Err? ==> r.error == if key !in old(kernel) && !openOk then SocketOpenFailed else SocketOptionFailed
      ensures var installed := if key in old(kernel) then old(kernel)[key] else map[];
        r.Ok? <==> (key in old(kernel) || openOk) && (MembershipKeyOf(config) in installed || joinOk)
      ensures r.Ok? ==> kernel == InstalledAt(old(kernel), key, config) && cursor == old(cursor)
      ensures r.Ok? && key in old(captures) ==> unchanged(`captures, `captureOrder, `wire)
      ensures r.Ok? && key !in old(captures) ==>
        captures == old(captures)[key := NO_MEMBERSHIPS]
        && captureOrder == old(captureOrder) + [key] && wire == old(wire)[key := []]
    {
      hide WithoutFirst;
      var mk := MembershipKeyOf(config);
      var created := key !in captures;
      if created {
        if !openOk {
          return Err(SocketOpenFailed);
        }
        CloseUndoesOpen(captureOrder, cursor, captures, kernel, wire, key);
        OpenCapture(key);
      }
      if mk !in captures[key].kernelMemberships {
        var joined := KernelJoin(key, config, joinOk);
        if !joined {
          if created {
            RemoveCapture(key);
          }
          return Err(SocketOptionFailed);
        }
      }
      InstalledInPlace(old(kernel), key, config);
      return Ok(());
    }

    method JoinSubscription(id: Id, openOk: bool, joinOk: bool) returns (r: Result<(), McrxError>)
      requires Valid()
      modifies `subscriptions, `captures, `captureOrder, `cursor, `kernel, `wire
      ensures Valid()
      ensures (View(), r) == Join(old(View()), id, openOk, joinOk)
      ensures r == JoinAnswer(old(View()), id, openOk, joinOk)
      ensures r.Ok? ==> id in subscriptions && subscriptions[id].joined
                        && Installed(View(), subscriptions[id].key, subscriptions[id].config)
      ensures r.Err? ==> unchanged(this)
    {
      hide Inv, SelectorsOk, CapturesOk, Capture.Serves, JoinedOn, QueueOf, Join, JoinAnswer, Installed;
      if id !in subscriptions {
        JoinFails(View(), id, openOk, joinOk, SubscriptionNotFound);
        r := Err(SubscriptionNotFound);
      } else if subscriptions[id].joined {
        JoinFails(View(), id, openOk, joinOk, SubscriptionAlreadyJoined);
        r := Err(SubscriptionAlreadyJoined);
      } else {
        var sub := subscriptions[id];
        var key := sub.key;
        ValidIsOpenable(key);
        r := EnsureMembership(key, sub.config, openOk, joinOk);
        if r.Err? {
          JoinFails(View(), id, openOk, joinOk, r.error);
        } else {
          FinishJoin(id, openOk, joinOk, old(View()), old(captures));
          assert r.value == ();
        }
      }
      JoinReaches(old(View()), id, openOk, joinOk, View(), r);
    }

    /** The end of a join begun in `s`, once the kernel has the membership. */
    method FinishJoin(id: Id, openOk: bool, joinOk: bool, ghost s: State, ghost before: Captures)
      requires Matched() && id in s.subs && !s.subs[id].joined
      requires Inv(s) && SelectorsOk(resolvedKeys, s.subs) && CapturesOk(before, s.subs, s.kernel)
      requires var key, mk := s.subs[id].key, MembershipKeyOf(s.subs[id].config);
        && (key in s.kernel || openOk) && (mk in (if key in s.kernel then s.kernel[key] else map[]) || joinOk)
        && View() == JoinedState(s, id).(subs := s.subs)
        && captures == if key in before then before else before[key := NO_MEMBERSHIPS]
      modifies `subscriptions, `captures
      ensures Valid() && (View(), Ok(())) == Join(s, id, openOk, joinOk)
    {
      hide Inv, SelectorsOk, CapturesOk, Capture.Serves, JoinedOn, QueueOf, Join;
      var sub := subscriptions[id];
      var key := sub.key;
      ghost var m, installed := JoinedOn(subscriptions, key), if key in s.kernel then s.kernel[key] else map[];
      CaptureBeforeJoin(before, s, key, captures, m, installed);
      JoinedOnExact(subscriptions, key, id);
      var capture := captures[key].Enter(id, sub.config, m, installed);
      PutTwice(before, key, NO_MEMBERSHIPS, capture);
      captures := captures[key := capture];
      subscriptions := subscriptions[id := sub.(joined := true)];
      JoinCompletes(s, id, openOk, joinOk, resolvedKeys, before, capture, View(), captures);
    }

    // -------------------------------------------------------------- leave

    /** The kernel leave of a socket; names the config that performed the join. */
    method KernelLeave(key: CaptureKey, config: RawConfig, ok: bool) returns (left: bool)
      requires key in kernel && MembershipKeyOf(config) in kernel[key] && kernel[key][MembershipKeyOf(config)] == config
      modifies `kernel
      ensures left == ok
      ensures kernel == if ok then old(kernel)[key := old(kernel)[key] - {MembershipKeyOf(config)}] else old(kernel)
    {
      if ok {
        kernel := kernel[key := kernel[key] - {MembershipKeyOf(config)}];
      }
      return ok;
    }

    /** One queued packet without a leaving subscription: untouched, dropped, or
        re-addressed. */
    method WithoutSubscriber(p: SharedPacket, id: Id, ghost serial: nat) returns (r: Option<SharedPacket>)
      requires p.ids.AsSlice() != [] && forall x :: x in p.ids.AsSlice() ==> x in subscriptions
      ensures PurgeOne(Seen(p, serial), id, subscriptions)
        == match r case None => None case Some(kept) => Some(Seen(kept, serial))
    {
      var index := Position(p.ids.AsSlice(), id);
      if index.None? {
        return Some(p);
      }
      if |p.ids.AsSlice()| == 1 {
        return None;
      }
      var ids := p.ids.RemoveExisting(index.value);
      var primary := ids.AsSlice()[0];
      assert primary in p.ids.AsSlice();
      if p.packet.subscriptionId != primary {
        return Some(SharedPacket(Restamp(p.packet, primary, subscriptions[primary].config), ids));
      }
      return Some(SharedPacket(p.packet, ids));
    }

    /** The retain loop over the queue. */
    method RemovePendingMembership(id: Id)
      requires Matched()
      requires forall q :: q in QueueOf(pending, serials) ==>
        q.ids != [] && forall x :: x in q.ids ==> x in subscriptions
      modifies `pending, `serials
      ensures Matched()
      ensures QueueOf(pending, serials) == Purge(QueueOf(old(pending), old(serials)), id, subscriptions)
    {
      hide PurgeOne, Purge, QueueOf;
      var kept: seq<SharedPacket> := [];
      ghost var keptSerials: seq<nat> := [];
      ghost var queue, all := QueueOf(pending, serials), Purge(QueueOf(pending, serials), id, subscriptions);
      QueueEnds(pending, serials, id, subscriptions);
      var i := 0;
      while i < |pending|
        invariant pending == old(pending) && serials == old(serials)
        invariant i <= |pending| == |queue| && |kept| == |keptSerials|
        invariant all == QueueOf(kept, keptSerials) + Purge(queue[i..], id, subscriptions)
      {
        QueueAt(pending, serials, i);
        var p := WithoutSubscriber(pending[i], id, serials[i]);
        PurgeHead(queue, i, id, subscriptions);
        if p.Some? {
          QueueGrows(kept, keptSerials, p.value, serials[i]);
          kept, keptSerials := kept + [p.value], keptSerials + [serials[i]];
        }
        i := i + 1;
      }
      pending, serials := kept, keptSerials;
    }

    /** Marks a subscription as not joined and takes it out of the queue. */
    method Unsubscribe(id: Id)
      requires Matched() && id in subscriptions && subscriptions[id].joined
      requires forall q :: q in QueueOf(pending, serials) ==>
        q.ids != [] && forall x :: x in q.ids ==> x in subscriptions
      modifies `subscriptions, `pending, `serials, `purged
      ensures Matched() && subscriptions == WithJoined(old(subscriptions), id, false)
      ensures QueueOf(pending, serials) == Purge(old(View()).pending, id, subscriptions)
      ensures purged == old(purged) + (Serials(old(View()).pending) - Serials(QueueOf(pending, serials)))
    {
      hide QueueOf, Purge, Serials;
      subscriptions := subscriptions[id := subscriptions[id].(joined := false)];
      RemovePendingMembership(id);
      purged := purged + (Serials(QueueOf(old(pending), old(serials))) - Serials(QueueOf(pending, serials)));
    }

    /** A capture's bookkeeping of a leave, with the kernel leave of the last
        member of a kernel membership. */
    method ReleaseMembership(key: CaptureKey, id: Id, config: RawConfig, leaveOk: bool, ghost m: Memberships)
      returns (released: bool)
      requires key in captures && key in kernel && captures[key].Serves(m, kernel[key]) && id in m && m[id] == config
      requires var mk := MembershipKeyOf(config);
        && mk in captures[key].kernelMemberships && mk in kernel[key]
        && captures[key].kernelMemberships[mk].joinedConfig == kernel[key][mk]
        && MembershipKeyOf(kernel[key][mk]) == mk
        && (captures[key].kernelMemberships[mk].references == 1 <==> MembersOf(m, mk) == {id})
      modifies `captures, `kernel
      ensures released <==> leaveOk || MembersOf(m, MembershipKeyOf(config)) != {id}
      ensures !released ==> unchanged(`captures, `kernel)
      ensures released ==> key in kernel && kernel == old(kernel)[key := kernel[key]]
      ensures released ==> kernel == RemovedAt(old(kernel), key, MembershipKeyOf(config),
        MembersOf(m, MembershipKeyOf(config)) == {id})
      ensures released ==> key in captures && captures == old(captures)[key := captures[key]]
      ensures released ==> captures[key].Serves(m - {id}, kernel[key])
    {
      hide Capture.Serves, MembersOf;
      var mk := MembershipKeyOf(config);
      var membership := captures[key].kernelMemberships[mk];
      if membership.references == 1 {
        var left := KernelLeave(key, membership.joinedConfig, leaveOk);
        if !left {
          return false;
        }
      }
      var capture := captures[key].Exit(id, config, m, old(kernel)[key]);
      captures := captures[key := capture];
      KernelAfterLeave(old(kernel), key, mk, MembersOf(m, mk) == {id}, kernel);
      return true;
    }

    method LeaveSubscription(id: Id, leaveOk: bool) returns (r: Result<(), McrxError>)
      requires Valid()
      modifies `subscriptions, `captures, `captureOrder, `cursor, `kernel, `wire, `pending, `serials, `purged
      ensures Valid()
      ensures (View(), r) == Leave(old(View()), id, leaveOk)
      ensures r.Err? ==> unchanged(this)
    {
      hide Inv, SelectorsOk, CapturesOk, Capture.Serves, JoinedOn, QueueOf, Leave, Purge, MembersOf, Serials;
      hide HasMember, HasJoined;
      if id !in subscriptions {
        LeaveFails(View(), id, leaveOk, SubscriptionNotFound);
        return Err(SubscriptionNotFound);
      }
      if !subscriptions[id].joined {
        LeaveFails(View(), id, leaveOk, SubscriptionNotJoined);
        return Err(SubscriptionNotJoined);
      }
      var sub := subscriptions[id];
      var key, mk := sub.key, MembershipKeyOf(sub.config);
      ghost var m := JoinedOn(subscriptions, key);
      CaptureOfJoined(captures, View(), id, m);
      LastMember(subscriptions, id, key, mk);
      var released := ReleaseMembership(key, id, sub.config, leaveOk, m);
      if !released {
        LeaveFails(View(), id, leaveOk, SocketOptionFailed);
        return Err(SocketOptionFailed);
      }
      FinishLeave(id, leaveOk, old(View()), old(captures));
      return Ok(());
    }

    /** The end of a leave begun in `s`, once the capture's bookkeeping is done:
        the subscription, the queue, and an empty capture's closing. */
    method FinishLeave(id: Id, leaveOk: bool, ghost s: State, ghost before: Captures)
      requires Matched() && id in s.subs && s.subs[id].joined && View() == s.(kernel := kernel)
      requires Inv(s) && SelectorsOk(resolvedKeys, s.subs) && CapturesOk(before, s.subs, s.kernel)
      requires leaveOk || HasMember(WithJoined(s.subs, id, false), s.subs[id].key, MembershipKeyOf(s.subs[id].config))
      requires var key, mk := s.subs[id].key, MembershipKeyOf(s.subs[id].config);
        && key in kernel && kernel == s.kernel[key := kernel[key]]
        && kernel == RemovedAt(s.kernel, key, mk, !HasMember(WithJoined(s.subs, id, false), key, mk))
        && key in before && key in captures && captures == before[key := captures[key]]
        && captures[key].Serves(JoinedOn(s.subs, key) - {id}, kernel[key])
      modifies `subscriptions, `captures, `captureOrder, `cursor, `kernel, `wire, `pending, `serials, `purged
      ensures Valid() && (View(), Ok(())) == Leave(s, id, leaveOk)
    {
      hide Inv, SelectorsOk, CapturesOk, Capture.Serves, JoinedOn, QueueOf, Leave, Purge, Serials, HasMember, HasJoined;
      var key := subscriptions[id].key;
      var capture := captures[key];
      QueueNamesStored(s);
      Unsubscribe(id);
      ghost var left := View();
      if capture.memberships == 0 {
        ListedWhileJoined(s, id);
        RemoveCapture(key);
      }
      LeaveCompletes(s, id, leaveOk, resolvedKeys, before, capture, left, View(), captures);
    }

    // -------------------------------------------------------------- remove

    method ReleaseCaptureKey(config: RawConfig)
      requires SelectorOf(config) in resolvedKeys && resolvedKeys[SelectorOf(config)].references > 0
      modifies `resolvedKeys
      ensures var selector := SelectorOf(config); var entry := old(resolvedKeys)[selector];
        resolvedKeys == if entry.references == 1 then old(resolvedKeys) - {selector}
                        else old(resolvedKeys)[selector := Resolved(entry.key, entry.references - 1)]
    {
      var selector := SelectorOf(config);
      var entry := resolvedKeys[selector].(references := resolvedKeys[selector].references - 1);
      resolvedKeys := if entry.references == 0 then resolvedKeys - {selector} else resolvedKeys[selector := entry];
    }

    method RemoveSubscription(id: Id, leaveOk: bool) returns (r: Result<bool, McrxError>)
      requires Valid()
      modifies `subscriptions, `resolvedKeys, `captures, `captureOrder, `cursor, `kernel, `wire
      modifies `pending, `serials, `purged
      ensures Valid()
      ensures (View(), r) == Remove(old(View()), id, leaveOk)
      ensures r.Err? || r == Ok(false) ==> unchanged(this)
    {
      hide Inv, SelectorsOk, CapturesOk, QueueOf, Leave;
      if id !in subscriptions {
        return Ok(false);
      }
      if subscriptions[id].joined {
        var left := LeaveSubscription(id, leaveOk);
        if left.Err? {
          return Err(left.error);
        }
        LeaveUnjoins(old(View()), id, leaveOk, View(), left);
      }
      var removed := subscriptions[id];
      ghost var left, cached := View(), resolvedKeys;
      StoredIsCached(resolvedKeys, subscriptions, id);
      subscriptions := subscriptions - {id};
      ReleaseCaptureKey(removed.config);
      SelectorReleased(cached, left.subs, id, resolvedKeys);
      RemoveCompletes(left, id, resolvedKeys, View(), captures);
      return Ok(true);
    }

    // -------------------------------------------------------------- receive

    /** The network: something arrives at the socket of a capture, if it is open. */
    method Arrive(key: CaptureKey, events: seq<Event>)
      requires Valid()
      modifies `wire
      ensures Valid()
      ensures View() == SharedRuns.Arrives(old(View()), key, events)
    {
      hide Inv, SelectorsOk, CapturesOk, QueueOf;
      if key in wire {
        wire := wire[key := wire[key] + events];
      }
      SharedRuns.ArriveKeepsInv(old(View()), key, events, View());
    }

    /** recv_shared_raw_datagram on one capture socket. */
    method ReceiveShared(key: CaptureKey) returns (e: Event)
      requires Matched()
      modifies `wire
      ensures Matched() && View() == Popped(old(View()), key) && e == Head(old(View()), key)
    {
      if key in wire && wire[key] != [] {
        e := wire[key][0];
        wire := wire[key := wire[key][1..]];
      } else {
        e := Blocked;
      }
    }

    /** Queues a datagram under its matches, or counts it as unmatched. */
    method Record(key: CaptureKey, captured: Captured, found: Option<MatchingIds>) returns (matched: bool)
      requires Matched()
      requires found.Some? ==> found.value.AsSlice() != [] && found.value.AsSlice()[0] in subscriptions
      modifies `pending, `serials, `log, `unmatched
      ensures Matched() && matched == found.Some? && log == old(log) + [Reading(key, captured)]
      ensures unmatched == if matched then old(unmatched) else old(unmatched) + {|old(log)|}
      ensures matched ==> var ids := found.value.AsSlice();
        QueueOf(pending, serials) == QueueOf(old(pending), old(serials))
          + [Queued(RawPacketFromCaptured(ids[0], subscriptions[ids[0]].config, captured), ids, |old(log)|)]
      ensures !matched ==> pending == old(pending) && serials == old(serials)
    {
      hide QueueOf;
      ghost var serial := |log|;
      log := log + [Reading(key, captured)];
      match found {
        case None =>
          unmatched := unmatched + {serial};
          return false;
        case Some(ids) =>
          var primary := ids.AsSlice()[0];
          var packet := RawPacketFromCaptured(primary, subscriptions[primary].config, captured);
          QueueGrows(pending, serials, SharedPacket(packet, ids), serial);
          pending, serials := pending + [SharedPacket(packet, ids)], serials + [serial];
          return true;
      }
    }

    /** One receive on a capture, with its lookup and queueing. */
    method TakeNext(key: CaptureKey) returns (e: Event, matched: bool)
      requires Valid() && key in captures && |pending| < limits.maxPending
      modifies `wire, `pending, `serials, `log, `unmatched
      ensures Valid()
      ensures e == Head(old(View()), key)
      ensures !e.Got? ==> View() == Popped(old(View()), key)
      ensures e.Got? ==>
        (View(), matched) == TakeReading(old(View()), Reading(key, e.captured), Popped(old(View()), key).wire[key])
    {
      hide Inv, SelectorsOk, CapturesOk, QueueOf, TakeReading, Scan, JoinedOn, Wants, Ascending;
      hide CaptureDemultiplexer.Indexes;
      e := ReceiveShared(key);
      matched := false;
      if !e.Got? {
        PopKeepsInv(old(View()), key, View());
        return;
      }
      ghost var reading := Reading(key, e.captured);
      CaptureServes(captures, subscriptions, kernel, key);
      var index := captures[key].demultiplexer;
      var found := index.Matches(e.captured.group, e.captured.sourceIp, JoinedOn(subscriptions, key));
      LookupIsScan(old(View()), reading, found);
      if found.Some? {
        FirstIsStored(old(View()), reading, found.value.AsSlice()[0]);
      }
      matched := Record(key, e.captured, found);
      TakeCompletes(old(View()), reading, wire[key], View(), matched);
    }

    /** The inner loop of fill_pending. */
    method CaptureTurn(key: CaptureKey, target: nat, budget: nat, queued: nat, captured: nat) returns (turn: Turn)
      requires Valid() && key in captures && Filling(View(), target, queued) && captured <= budget
      modifies `wire, `pending, `serials, `log, `unmatched
      ensures Valid()
      ensures (View(), turn) == FillFrom(old(View()), key, target, target, budget, queued, captured)
    {
      hide Inv, SelectorsOk, CapturesOk, QueueOf, FillFrom, TakeReading, Popped, Head;
      var q: nat, c: nat, i := queued, captured, 0;
      ghost var turns: nat, goal := target, FillFrom(View(), key, target, target, budget, queued, captured);
      while i < target
        invariant i <= target && turns == target - i
        invariant Valid() && Filling(View(), target, q) && c <= budget
        invariant FillFrom(View(), key, turns, target, budget, q, c) == goal
      {
        ghost var s := View();
        if q == target || c == budget {
          TurnEnds(s, key, turns, target, budget, q, c);
          return TargetMet(q);
        }
        var e, matched := TakeNext(key);
        TurnGoesOn(s, key, turns, target, budget, q, c, e, View(), matched);
        match e {
          case Fault => return Failed;
          case Blocked => return Exhausted(q, c);
          case Got(_) =>
            q, c := if matched then q + 1 else q, c + 1;
        }
        i := i + 1;
        turns := turns - 1;
      }
      TurnEnds(View(), key, turns, target, budget, q, c);
      return Exhausted(q, c);
    }

    method FillPending(max: nat) returns (r: Result<nat, McrxError>)
      requires Valid()
      modifies `cursor, `wire, `pending, `serials, `log, `unmatched
      ensures Valid()
      ensures (View(), r) == Fill(old(View()), max)
    {
      hide Inv, SelectorsOk, CapturesOk, QueueOf, FillFrom, FillCaptures;
      var room := if limits.maxPending >= |pending| then limits.maxPending - |pending| else 0;
      var target := if max < room then max else room;
      if captureOrder == [] || target == 0 {
        return Ok(0);
      }
      var count := |captureOrder|;
      var budget := target + count;
      var q: nat, c: nat, i := 0, 0, 0;
      ghost var left: nat, goal := count, FillCaptures(View(), count, target, budget, 0, 0);
      while i < count
        invariant i <= count && left == count - i && captureOrder == old(captureOrder)
        invariant Valid() && Filling(View(), target, q) && c <= budget
        invariant FillCaptures(View(), left, target, budget, q, c) == goal
      {
        ghost var s := View();
        CursorListed(captures, s);
        var key := captureOrder[cursor];
        cursor := (cursor + 1) % count;
        ghost var advanced := View();
        AdvanceKeepsInv(s, advanced);
        var turn := CaptureTurn(key, target, budget, q, c);
        CaptureVisited(s, key, left, target, budget, q, c, advanced, View(), turn);
        match turn {
          case TargetMet(queued) => return Ok(queued);
          case Failed => return Err(ReceiveFailed);
          case Exhausted(queued, captured) =>
            q, c := queued, captured;
        }
        i := i + 1;
        left := left - 1;
      }
      FillEnds(View(), target, budget, q, c);
      return Ok(q);
    }

    method PopFront() returns (p: Option<SharedPacket>, ghost serial: nat)
      requires Valid()
      modifies `pending, `serials, `delivered
      ensures Valid()
      ensures p.None? ==> old(pending) == [] && View() == old(View())
      ensures p.Some? ==> old(pending) != [] && Seen(p.value, serial) == old(View()).pending[0]
      ensures p.Some? ==> View() == Hand(old(View()), 1).0
    {
      hide Inv, SelectorsOk, CapturesOk;
      if pending == [] {
        p, serial := None, 0;
        return;
      }
      p, serial := Some(pending[0]), serials[0];
      QueueSplit(pending, serials, 1);
      pending, serials, delivered := pending[1..], serials[1..], delivered + [serial];
      assert SerialSeq(old(View()).pending[..1]) == [serial];
      HandKeepsInv(old(View()), 1, View(), old(View()).pending[..1]);
    }

    method TryRecvAny() returns (r: Result<Option<SharedPacket>, McrxError>, ghost serial: nat)
      requires Valid()
      modifies `cursor, `wire, `pending, `serials, `log, `unmatched, `delivered
      ensures Valid()
      ensures (View(), Reported(r, serial)) == Recv(old(View()))
      ensures r.Ok? && r.value.Some? ==> ReportsReading(View(), Seen(r.value.value, serial))
    {
      hide Inv, SelectorsOk, CapturesOk, QueueOf, Fill, Hand, ReportsReading;
      var first;
      first, serial := PopFront();
      if first.Some? {
        r := Ok(first);
        RecvDelivers(old(View()), View(), Reported(r, serial));
        return;
      }
      var filled := FillPending(1);
      if filled.Err? {
        r := Err(filled.error);
        return;
      }
      first, serial := PopFront();
      r := Ok(first);
      RecvDelivers(old(View()), View(), Reported(r, serial));
    }

    method DrainPending(max: nat) returns (packets: seq<SharedPacket>, ghost handed: seq<nat>)
      requires Valid()
      modifies `pending, `serials, `delivered
      ensures Valid() && |packets| == |handed| == AtMost(max, old(View()))
      ensures (View(), QueueOf(packets, handed)) == Hand(old(View()), AtMost(max, old(View())))
    {
      hide Inv, SelectorsOk, CapturesOk;
      var drained := if max < |pending| then max else |pending|;
      packets, handed := pending[..drained], serials[..drained];
      QueueSplit(pending, serials, drained);
      assert SerialSeq(QueueOf(packets, handed)) == handed;
      pending, serials, delivered := pending[drained..], serials[drained..], delivered + handed;
      HandKeepsInv(old(View()), drained, View(), QueueOf(packets, handed));
    }

    /** try_recv_batch_into; `packets` are those appended to the caller's vector,
        also when the call ends in an error. */
    method TryRecvBatch(max: nat)
      returns (packets: seq<SharedPacket>, ghost handed: seq<nat>, r: Result<nat, McrxError>)
      requires Valid()
      modifies `cursor, `wire, `pending, `serials, `log, `unmatched, `delivered
      ensures Valid() && |packets| == |handed|
      ensures r.Ok? ==> r.value == |packets| <= max
      ensures (View(), QueueOf(packets, handed), if r.Ok? then None else Some(r.error)) == Batch(old(View()), max)
      ensures forall q :: q in QueueOf(packets, handed) ==> ReportsReading(View(), q)
    {
      hide Inv, SelectorsOk, CapturesOk, QueueOf, Fill, Hand, Batch, BatchLoop, ReportsReading;
      BatchLoopEnds(View());
      if max == 0 {
        packets, handed := [], [];
        r := Ok(0);
        BatchDelivers(old(View()), max, View(), QueueOf(packets, handed), None);
        return;
      }
      packets, handed := DrainPending(max);
      var wanted: nat := max - |packets|;
      ghost var batch := Batch(old(View()), max);
      BatchStarts(old(View()), max, View(), QueueOf(packets, handed), wanted);
      while wanted > 0
        invariant Valid() && |packets| == |handed| && |packets| + wanted == max
        invariant Continues(batch, QueueOf(packets, handed), BatchLoop(View(), wanted))
        decreases wanted
      {
        ghost var s := View();
        var queued := FillPending(wanted);
        if queued.Err? || queued.value == 0 {
          BatchStops(s, wanted, View(), queued);
          ContinuesToEnd(batch, QueueOf(packets, handed), BatchLoop(s, wanted));
          r := if queued.Err? then Err(queued.error) else Ok(|packets|);
          BatchDelivers(old(View()), max, View(), QueueOf(packets, handed), batch.2);
          return;
        }
        ghost var filled := View();
        var more, moreHanded := DrainPending(wanted);
        BatchGoesOn(s, wanted, filled, queued, View(), QueueOf(more, moreHanded), batch, QueueOf(packets, handed));
        QueueConcat(packets, handed, more, moreHanded);
        packets, handed := packets + more, handed + moreHanded;
        wanted := wanted - |more|;
      }
      BatchLoopEnds(View());
      ContinuesToEnd(batch, QueueOf(packets, handed), BatchLoop(View(), 0));
      r := Ok(|packets|);
      BatchDelivers(old(View()), max, View(), QueueOf(packets, handed), None);
    }
  }
}
