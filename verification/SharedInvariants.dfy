/** What every run of the shared raw capture engine keeps. */
module SharedInvariants {
  import opened Wrappers
  import opened Net
  import opened Config
  import opened Packets
  import opened IdLists
  import opened Demux
  import opened SharedSpec

  // ---------------------------------------------------------------- the invariant

  ghost predicate SubOk(s: State, id: Id)
    requires id in s.subs
  {
    && id < s.nextId
    && IsValid(s.subs[id].config)
    && s.subs[id].key.family == s.subs[id].config.Family()
  }

  ghost predicate SubsOk(s: State) {
    && |s.subs| <= s.limits.maxSubscriptions
    && (forall id :: id in s.subs ==> SubOk(s, id))
    && (forall i, j :: i in s.subs && j in s.subs && SelectorOf(s.subs[i].config) == SelectorOf(s.subs[j].config)
          ==> s.subs[i].key == s.subs[j].key)
  }

  ghost predicate Distinct<T>(xs: seq<T>) {
    forall i, j :: 0 <= i < j < |xs| ==> xs[i] != xs[j]
  }

  /** The capture order lists each capture with a joined subscription once, and
      the cursor points into it. */
  ghost predicate OrderOk(s: State) {
    && Distinct(s.order)
    && (forall key :: key in s.order <==> HasJoined(s.subs, key))
    && (if s.order == [] then s.cursor == 0 else s.cursor < |s.order|)
  }

  /** Exactly the captures with a joined subscription are open. */
  ghost predicate OpenOk(s: State) {
    && s.wire.Keys == s.kernel.Keys
    && (forall key :: key in s.kernel <==> HasJoined(s.subs, key))
  }

  /** The kernel holds, on each open capture, exactly the memberships of the
      joined subscriptions, each installed by a config with that membership. */
  ghost predicate InstalledOk(s: State) {
    && (forall key, mk :: key in s.kernel ==> (mk in s.kernel[key] <==> HasMember(s.subs, key, mk)))
    && (forall key, mk :: key in s.kernel && mk in s.kernel[key] ==> MembershipKeyOf(s.kernel[key][mk]) == mk)
  }

  ghost predicate KernelOk(s: State) {
    OpenOk(s) && InstalledOk(s)
  }

  /** A queued packet lists, ascending, some currently joined subscriptions of the
      capture it was read from, each wanting it; it is addressed to the first,
      with that subscription's interface metadata. */
  ghost predicate QueuedOk(subs: Subscriptions, log: seq<Reading>, q: Queued) {
    && q.serial < |log|
    && q.ids != [] && Ascending(q.ids)
    && (forall id :: id in q.ids ==> ListedOk(subs, log[q.serial], id))
    && q.ids[0] in subs
    && q.packet == RawPacketFromCaptured(q.ids[0], subs[q.ids[0]].config, log[q.serial].captured)
  }

  ghost predicate ListedOk(subs: Subscriptions, reading: Reading, id: Id) {
    && id in subs && subs[id].joined && subs[id].key == reading.key
    && Wants(subs[id].config, reading.captured.group, reading.captured.sourceIp)
  }

  ghost predicate QueueOk(s: State) {
    && |s.pending| <= s.limits.maxPending
    && forall q :: q in s.pending ==> QueuedOk(s.subs, s.log, q)
  }

  /** Everything handed over, then everything still queued, by log position. */
  function History(s: State): seq<nat> {
    s.delivered + SerialSeq(s.pending)
  }

  ghost predicate OneFate(a: bool, b: bool, c: bool) {
    (a || b || c) && !(a && b) && !(a && c) && !(b && c)
  }

  /** Conservation: every datagram ever read is exactly one of unmatched, purged,
      or delivered-or-pending; deliveries and the queue together follow the order
      of reading, so nothing is handed over twice or out of order. */
  ghost predicate LedgerOk(s: State) {
    && Ascending(History(s))
    && (forall i :: i in History(s) ==> i < |s.log|)
    && (forall i :: i in s.unmatched ==> i < |s.log|)
    && (forall i :: i in s.purged ==> i < |s.log|)
    && (forall i: nat :: i < |s.log| ==> OneFate(i in s.unmatched, i in s.purged, i in History(s)))
  }

  ghost predicate Inv(s: State) {
    && s.limits.maxSubscriptions > 0 && s.limits.maxPending > 0
    && SubsOk(s) && OrderOk(s) && KernelOk(s) && QueueOk(s) && LedgerOk(s)
  }

  lemma InitialInv(limits: Limits)
    requires limits.maxSubscriptions > 0 && limits.maxPending > 0
    ensures Inv(Initial(limits))
  {
    assert forall key :: JoinedOn(map[], key) == map[];
  }

  // ---------------------------------------------------------------- add

  lemma QueuedOkKept(subs: Subscriptions, subs': Subscriptions, log: seq<Reading>, q: Queued)
    requires forall id :: id in subs && subs[id].joined ==> id in subs' && subs'[id] == subs[id]
    requires QueuedOk(subs, log, q)
    ensures QueuedOk(subs', log, q)
  {
    assert q.ids[0] in q.ids;
    assert ListedOk(subs, log[q.serial], q.ids[0]);
    forall id | id in q.ids ensures ListedOk(subs', log[q.serial], id) {
      assert ListedOk(subs, log[q.serial], id);
    }
  }

  ghost predicate SameJoined(subs: Subscriptions, subs': Subscriptions) {
    && (forall id :: id in subs && subs[id].joined ==> id in subs' && subs'[id] == subs[id])
    && (forall id :: id in subs' && subs'[id].joined ==> id in subs && subs[id].joined)
  }

  lemma SameMemberships(subs: Subscriptions, subs': Subscriptions)
    requires SameJoined(subs, subs')
    ensures forall key :: JoinedOn(subs', key) == JoinedOn(subs, key)
    ensures forall key :: HasJoined(subs', key) == HasJoined(subs, key)
    ensures forall key, mk :: HasMember(subs', key, mk) == HasMember(subs, key, mk)
  {
    forall key ensures JoinedOn(subs', key) == JoinedOn(subs, key) {
    }
    forall key ensures HasJoined(subs', key) == HasJoined(subs, key) {
      assert JoinedOn(subs', key) == JoinedOn(subs, key);
    }
    forall key, mk ensures HasMember(subs', key, mk) == HasMember(subs, key, mk) {
      assert JoinedOn(subs', key) == JoinedOn(subs, key);
    }
  }

  /** Changing only subscriptions that are not joined keeps everything that
      depends on the joined ones. */
  lemma UnjoinedChange(s: State, s': State)
    requires Inv(s) && SameJoined(s.subs, s'.subs)
    requires s' == s.(subs := s'.subs, nextId := s'.nextId)
    ensures OrderOk(s') && KernelOk(s') && QueueOk(s') && LedgerOk(s')
  {
    hide SubsOk, JoinedOn, HasJoined, HasMember, QueueOk, LedgerOk;
    SameMemberships(s.subs, s'.subs);
    QueueAndLedgerKept(s, s');
  }

  /** Growing the set of joined subscriptions keeps the queue and the ledger. */
  lemma QueueAndLedgerKept(s: State, s': State)
    requires QueueOk(s) && LedgerOk(s)
    requires forall id :: id in s.subs && s.subs[id].joined ==> id in s'.subs && s'.subs[id] == s.subs[id]
    requires s'.limits == s.limits && s'.pending == s.pending && s'.log == s.log
    requires s'.unmatched == s.unmatched && s'.delivered == s.delivered && s'.purged == s.purged
    ensures QueueOk(s') && LedgerOk(s')
  {
    forall q | q in s'.pending ensures QueuedOk(s'.subs, s'.log, q) {
      QueuedOkKept(s.subs, s'.subs, s.log, q);
    }
    assert History(s') == History(s);
  }

  lemma AddKeepsInv(s: State, config: RawConfig, lookup: Option<U32>, s': State, r: Result<Id, McrxError>)
    requires Inv(s) && (s', r) == Add(s, config, lookup)
    ensures Inv(s')
  {
    hide SubsOk, OrderOk, OpenOk, InstalledOk, QueueOk, LedgerOk;
    if r.Ok? {
      var key := s'.subs[s.nextId].key;
      NextIdIsNew(s);
      AddEffect(s, config, lookup, s', r, key);
      UnjoinedChange(s, s');
      AddKeepsSubs(s, config, s', key);
    }
  }

  lemma NextIdIsNew(s: State)
    requires Inv(s)
    ensures s.nextId !in s.subs
  {
    assert s.nextId in s.subs ==> SubOk(s, s.nextId);
  }

  lemma AddEffect(
    s: State, config: RawConfig, lookup: Option<U32>, s': State, r: Result<Id, McrxError>, key: CaptureKey)
    requires (s', r) == Add(s, config, lookup) && r.Ok? && key == s'.subs[s.nextId].key
    requires SubsOk(s)
    ensures IsValid(config) && |s.subs| < s.limits.maxSubscriptions
    ensures s' == s.(subs := s.subs[s.nextId := Subscription(config, key, false)], nextId := s.nextId + 1)
    ensures key.family == config.Family()
    ensures forall id :: id in s.subs && SelectorOf(s.subs[id].config) == SelectorOf(config) ==> s.subs[id].key == key
  {
    hide SubsOk, CachedKey;
    CachedKeyIsShared(s, SelectorOf(config));
  }

  lemma AddKeepsSubs(s: State, config: RawConfig, s': State, key: CaptureKey)
    requires SubsOk(s) && s.nextId !in s.subs
    requires IsValid(config) && |s.subs| < s.limits.maxSubscriptions && key.family == config.Family()
    requires forall id :: id in s.subs && SelectorOf(s.subs[id].config) == SelectorOf(config) ==> s.subs[id].key == key
    requires s' == s.(subs := s.subs[s.nextId := Subscription(config, key, false)], nextId := s.nextId + 1)
    ensures SubsOk(s')
  {
    hide IsValid, SelectorOf;
    forall id | id in s'.subs ensures SubOk(s', id) {
      assert id != s.nextId ==> SubOk(s, id);
    }
  }

  /** All stored subscriptions of one selector share the cached key. */
  lemma CachedKeyIsShared(s: State, selector: Selector)
    requires SubsOk(s)
    ensures forall id :: id in s.subs && SelectorOf(s.subs[id].config) == selector ==>
      CachedKey(s.subs, selector) == Some(s.subs[id].key)
    ensures CachedKey(s.subs, selector).Some? ==> CachedKey(s.subs, selector).value.family == selector.family
  {
    if CachedKey(s.subs, selector).Some? {
      var id :| id in s.subs && SelectorOf(s.subs[id].config) == selector;
      assert SubOk(s, id);
    }
  }

  // ---------------------------------------------------------------- join

  function WithJoined(subs: Subscriptions, id: Id, joined: bool): Subscriptions
    requires id in subs
  {
    subs[id := subs[id].(joined := joined)]
  }

  /** Joining adds the id to its own capture's memberships and no other. */
  lemma JoinedOnJoin(subs: Subscriptions, id: Id, key: CaptureKey)
    requires id in subs && !subs[id].joined
    ensures JoinedOn(WithJoined(subs, id, true), key)
      == if key == subs[id].key then JoinedOn(subs, key)[id := subs[id].config] else JoinedOn(subs, key)
    ensures HasJoined(WithJoined(subs, id, true), key) <==> HasJoined(subs, key) || key == subs[id].key
  {
    var m, m' := JoinedOn(subs, key), JoinedOn(WithJoined(subs, id, true), key);
    if key == subs[id].key {
      assert m' == m[id := subs[id].config];
      assert id in m';
    } else {
      assert m' == m;
    }
  }

  lemma HasMemberJoin(subs: Subscriptions, id: Id, key: CaptureKey, mk: MembershipKey)
    requires id in subs && !subs[id].joined
    ensures HasMember(WithJoined(subs, id, true), key, mk)
      <==> HasMember(subs, key, mk) || (key == subs[id].key && mk == MembershipKeyOf(subs[id].config))
  {
    JoinedOnJoin(subs, id, key);
    var m, m' := JoinedOn(subs, key), JoinedOn(WithJoined(subs, id, true), key);
    if HasMember(subs, key, mk) {
      var x :| x in m && MembershipKeyOf(m[x]) == mk;
      assert x != id && x in m' && m'[x] == m[x];
    }
    if key == subs[id].key {
      assert id in m' && m'[id] == subs[id].config;
    }
  }

  lemma JoinKeepsInv(s: State, id: Id, openOk: bool, joinOk: bool, s': State, r: Result<(), McrxError>)
    requires Inv(s) && (s', r) == Join(s, id, openOk, joinOk)
    ensures Inv(s')
  {
    JoinEffect(s, id, openOk, joinOk, s', r);
    if r.Ok? {
      JoinedStateInv(s, id, s');
    }
  }

  /** The state after a successful join. */
  function JoinedState(s: State, id: Id): State
    requires id in s.subs
  {
    var key := s.subs[id].key;
    s.(subs := WithJoined(s.subs, id, true),
       order := if key in s.kernel then s.order else s.order + [key],
       kernel := InstalledAt(s.kernel, key, s.subs[id].config),
       wire := if key in s.kernel then s.wire else s.wire[key := []])
  }

  lemma JoinEffect(s: State, id: Id, openOk: bool, joinOk: bool, s': State, r: Result<(), McrxError>)
    requires (s', r) == Join(s, id, openOk, joinOk)
    ensures r.Err? ==> s' == s
    ensures r.Ok? ==> id in s.subs && !s.subs[id].joined && s' == JoinedState(s, id)
  {
  }

  ghost predicate JoinsTo(s: State, id: Id, s': State) {
    id in s.subs && !s.subs[id].joined && s' == JoinedState(s, id)
  }

  lemma JoinedStateInv(s: State, id: Id, s': State)
    requires Inv(s) && JoinsTo(s, id, s')
    ensures Inv(s')
  {
    JoinKeepsSubs(s, id, s');
    JoinKeepsOrder(s, id, s');
    JoinKeepsOpen(s, id, s');
    JoinKeepsInstalled(s, id, s');
    JoinKeepsQueue(s, id, s');
  }

  lemma JoinKeepsSubs(s: State, id: Id, s': State)
    requires SubsOk(s) && JoinsTo(s, id, s')
    ensures SubsOk(s')
  {
    forall x | x in s'.subs ensures SubOk(s', x) {
      assert SubOk(s, x);
    }
  }

  lemma JoinKeepsQueue(s: State, id: Id, s': State)
    requires QueueOk(s) && LedgerOk(s) && JoinsTo(s, id, s')
    ensures QueueOk(s') && LedgerOk(s')
  {
    QueueAndLedgerKept(s, s');
  }

  lemma JoinKeepsOrder(s: State, id: Id, s': State)
    requires OrderOk(s) && KernelOk(s) && JoinsTo(s, id, s')
    ensures OrderOk(s')
  {
    forall key ensures key in s'.order <==> HasJoined(s'.subs, key) {
      JoinedOnJoin(s.subs, id, key);
    }
    assert s.subs[id].key in s.order <==> HasJoined(s.subs, s.subs[id].key);
  }

  lemma JoinKeepsOpen(s: State, id: Id, s': State)
    requires OpenOk(s) && JoinsTo(s, id, s')
    ensures OpenOk(s')
  {
    var key0 := s.subs[id].key;
    forall key ensures key in s'.kernel <==> HasJoined(s'.subs, key) {
      JoinedOnJoin(s.subs, id, key);
    }
    assert s'.wire.Keys == s'.kernel.Keys by {
      assert key0 in s.kernel.Keys <==> key0 in s.wire.Keys;
    }
  }

  lemma JoinKeepsInstalled(s: State, id: Id, s': State)
    requires KernelOk(s) && JoinsTo(s, id, s')
    ensures InstalledOk(s')
  {
    forall key, mk | key in s'.kernel
      ensures mk in s'.kernel[key] <==> HasMember(s'.subs, key, mk)
      ensures mk in s'.kernel[key] ==> MembershipKeyOf(s'.kernel[key][mk]) == mk
    {
      HasMemberJoin(s.subs, id, key, mk);
      MemberIsJoined(s.subs, key, mk);
      if key in s.kernel && mk in s.kernel[key] {
        assert s'.kernel[key][mk] == s.kernel[key][mk];
      }
    }
  }

  lemma MemberIsJoined(subs: Subscriptions, key: CaptureKey, mk: MembershipKey)
    ensures HasMember(subs, key, mk) ==> HasJoined(subs, key)
  {
  }

  /** The kernel after a join of `config` on the capture. */
  function InstalledAt(kernel: Kernel, key: CaptureKey, config: RawConfig): Kernel {
    var mk, installed := MembershipKeyOf(config), if key in kernel then kernel[key] else map[];
    kernel[key := if mk in installed then installed else installed[mk := config]]
  }

  // ---------------------------------------------------------------- leave

  /** The state after a successful leave, before an empty capture is closed. */
  ghost function LeftState(s: State, id: Id): State
    requires id in s.subs
  {
    var key, mk := s.subs[id].key, MembershipKeyOf(s.subs[id].config);
    var subs := WithJoined(s.subs, id, false);
    var pending := Purge(s.pending, id, subs);
    s.(subs := subs,
       pending := pending,
       kernel := RemovedAt(s.kernel, key, mk, !HasMember(subs, key, mk)),
       purged := s.purged + (Serials(s.pending) - Serials(pending)))
  }

  /** The kernel after the last member of `mk`, if `last`, left the capture. */
  function RemovedAt(kernel: Kernel, key: CaptureKey, mk: MembershipKey, last: bool): Kernel {
    var installed := if key in kernel then kernel[key] else map[];
    kernel[key := if last then installed - {mk} else installed]
  }

  ghost predicate LeavesTo(s: State, id: Id, s': State) {
    id in s.subs && s.subs[id].joined && s' == LeftState(s, id)
  }

  ghost predicate ClosesTo(s: State, key: CaptureKey, s': State) {
    s' == if HasJoined(s.subs, key) then s else CloseCapture(s, key)
  }

  lemma LeaveEffect(s: State, id: Id, leaveOk: bool, s': State, r: Result<(), McrxError>) returns (left: State)
    requires (s', r) == Leave(s, id, leaveOk)
    ensures r.Err? ==> s' == s
    ensures r.Ok? ==> LeavesTo(s, id, left) && ClosesTo(left, s.subs[id].key, s')
  {
    left := s;
    if r.Ok? {
      left := LeftState(s, id);
    }
  }

  lemma LeaveKeepsInv(s: State, id: Id, leaveOk: bool, s': State, r: Result<(), McrxError>)
    requires Inv(s) && (s', r) == Leave(s, id, leaveOk)
    ensures Inv(s')
  {
    var left := LeaveEffect(s, id, leaveOk, s', r);
    if r.Ok? {
      LeftStateInv(s, id, left, s');
    }
  }

  lemma LeftStateInv(s: State, id: Id, left: State, s': State)
    requires Inv(s) && LeavesTo(s, id, left) && ClosesTo(left, s.subs[id].key, s')
    ensures Inv(s')
  {
    LeaveKeepsSubs(s, id, left);
    LeaveKeepsInstalled(s, id, left);
    LeaveKeepsQueue(s, id, left);
    LeaveKeepsLedger(s, id, left);
    CloseKeepsRest(left, s.subs[id].key, s');
    LeaveKeepsOpen(s, id, left, s');
    LeaveKeepsOrder(s, id, left, s');
  }

  lemma LeaveKeepsSubs(s: State, id: Id, s': State)
    requires SubsOk(s) && LeavesTo(s, id, s')
    ensures SubsOk(s')
  {
    hide Purge, HasMember, RemovedAt, Serials, IsValid, SelectorOf;
    forall x | x in s'.subs ensures SubOk(s', x) {
      assert SubOk(s, x);
    }
  }

  /** Leaving removes the id from its own capture's memberships and no other. */
  lemma JoinedOnLeave(subs: Subscriptions, id: Id, key: CaptureKey)
    requires id in subs && subs[id].joined
    ensures JoinedOn(WithJoined(subs, id, false), key)
      == if key == subs[id].key then JoinedOn(subs, key) - {id} else JoinedOn(subs, key)
    ensures key != subs[id].key ==> (HasJoined(WithJoined(subs, id, false), key) <==> HasJoined(subs, key))
    ensures HasJoined(subs, subs[id].key)
  {
    var m, m' := JoinedOn(subs, key), JoinedOn(WithJoined(subs, id, false), key);
    assert id in JoinedOn(subs, subs[id].key);
    if key == subs[id].key {
      assert m' == m - {id};
    } else {
      assert m' == m;
    }
  }

  lemma HasMemberLeave(subs: Subscriptions, id: Id, key: CaptureKey, mk: MembershipKey)
    requires id in subs && subs[id].joined
    requires key != subs[id].key || mk != MembershipKeyOf(subs[id].config)
    ensures HasMember(WithJoined(subs, id, false), key, mk) <==> HasMember(subs, key, mk)
  {
    JoinedOnLeave(subs, id, key);
    var m, m' := JoinedOn(subs, key), JoinedOn(WithJoined(subs, id, false), key);
    if HasMember(subs, key, mk) {
      var x :| x in m && MembershipKeyOf(m[x]) == mk;
      assert x in m' && m'[x] == m[x];
    }
  }

  lemma LeaveKeepsInstalled(s: State, id: Id, s': State)
    requires KernelOk(s) && LeavesTo(s, id, s')
    ensures InstalledOk(s')
  {
    var key0, mk0 := s.subs[id].key, MembershipKeyOf(s.subs[id].config);
    JoinedOnLeave(s.subs, id, key0);
    forall key, mk | key in s'.kernel
      ensures mk in s'.kernel[key] <==> HasMember(s'.subs, key, mk)
      ensures mk in s'.kernel[key] ==> MembershipKeyOf(s'.kernel[key][mk]) == mk
    {
      if key != key0 || mk != mk0 {
        HasMemberLeave(s.subs, id, key, mk);
      } else {
        assert HasMember(s.subs, key0, mk0) by {
          assert id in JoinedOn(s.subs, key0) && JoinedOn(s.subs, key0)[id] == s.subs[id].config;
        }
      }
    }
  }

  // The queue.

  lemma {:induction false} WithoutIdExact(ids: seq<Id>, id: Id)
    requires Ascending(ids)
    ensures Ascending(WithoutFirst(ids, id))
    ensures forall x :: x in WithoutFirst(ids, id) <==> x in ids && x != id
    ensures id in ids ==> |WithoutFirst(ids, id)| == |ids| - 1
  {
    if ids != [] {
      assert ids == [ids[0]] + ids[1..];
      assert forall x :: x in ids[1..] ==> ids[0] < x;
      if ids[0] != id {
        WithoutIdExact(ids[1..], id);
        AscendingCons(ids[0], WithoutFirst(ids[1..], id));
      }
    }
  }

  lemma PurgeOneOk(subs: Subscriptions, id: Id, log: seq<Reading>, q: Queued, p: Option<Queued>)
    requires id in subs && subs[id].joined && QueuedOk(subs, log, q)
    requires p == PurgeOne(q, id, WithJoined(subs, id, false))
    ensures p.Some? ==> QueuedOk(WithJoined(subs, id, false), log, p.value) && p.value.serial == q.serial
    ensures p.Some? ==> id !in p.value.ids && forall x :: x in p.value.ids <==> x in q.ids && x != id
    ensures p.None? ==> q.ids == [id]
  {
    var subs' := WithJoined(subs, id, false);
    WithoutIdExact(q.ids, id);
    if p.Some? {
      var ids := p.value.ids;
      assert ids != [] && forall x :: x in ids ==> x in q.ids && x != id;
      assert ids[0] in ids;
      forall x | x in ids ensures ListedOk(subs', log[q.serial], x) {
        assert ListedOk(subs, log[q.serial], x);
      }
      assert ListedOk(subs', log[q.serial], ids[0]);
    }
  }

  /** Purging maps each queued packet to itself, its re-addressed form, or
      nothing, keeping the order of the rest. */
  lemma {:induction false} PurgeOk(
    subs: Subscriptions, id: Id, log: seq<Reading>, pending: seq<Queued>, after: seq<Queued>)
    requires id in subs && subs[id].joined
    requires forall q :: q in pending ==> QueuedOk(subs, log, q)
    requires after == Purge(pending, id, WithJoined(subs, id, false))
    ensures |after| <= |pending|
    ensures forall q :: q in after ==> QueuedOk(WithJoined(subs, id, false), log, q)
    ensures forall x :: x in SerialSeq(after) ==> x in SerialSeq(pending)
    decreases pending
  {
    if pending != [] {
      var first, rest := pending[0], pending[1..];
      assert first in pending;
      var p := PurgeOne(first, id, WithJoined(subs, id, false));
      PurgeOneOk(subs, id, log, first, p);
      var after' := Purge(rest, id, WithJoined(subs, id, false));
      PurgeOk(subs, id, log, rest, after');
      assert SerialSeq(pending) == [first.serial] + SerialSeq(rest);
      if p.Some? {
        assert after == [p.value] + after';
        assert SerialSeq(after) == [first.serial] + SerialSeq(after');
      } else {
        assert after == after';
      }
    }
  }

  lemma {:induction false} PurgeKeepsOrder(
    before: seq<nat>, subs: Subscriptions, id: Id, pending: seq<Queued>, after: seq<Queued>)
    requires after == Purge(pending, id, subs)
    requires Ascending(before + SerialSeq(pending))
    ensures Ascending(before + SerialSeq(after))
    decreases pending
  {
    if pending != [] {
      var first, rest := pending[0], pending[1..];
      var after' := Purge(rest, id, subs);
      assert SerialSeq(pending) == [first.serial] + SerialSeq(rest);
      assert before + SerialSeq(pending) == (before + [first.serial]) + SerialSeq(rest);
      match PurgeOne(first, id, subs) {
        case Some(q) =>
          assert q.serial == first.serial;
          PurgeKeepsOrder(before + [first.serial], subs, id, rest, after');
          assert after == [q] + after';
          assert before + SerialSeq(after) == (before + [first.serial]) + SerialSeq(after');
        case None =>
          AscendingDrop(before, first.serial, SerialSeq(rest));
          PurgeKeepsOrder(before, subs, id, rest, after');
          assert after == after';
      }
    }
  }

  lemma AscendingDrop(a: seq<nat>, x: nat, b: seq<nat>)
    requires Ascending(a + [x] + b)
    ensures Ascending(a + b)
  {
    var with, without := a + [x] + b, a + b;
    forall i, j | 0 <= i < j < |without| ensures without[i] < without[j] {
      var i', j' := if i < |a| then i else i + 1, if j < |a| then j else j + 1;
      assert with[i'] == without[i] && with[j'] == without[j];
    }
  }

  lemma LeaveKeepsQueue(s: State, id: Id, s': State)
    requires QueueOk(s) && LeavesTo(s, id, s')
    ensures QueueOk(s')
  {
    PurgeOk(s.subs, id, s.log, s.pending, s'.pending);
  }

  lemma SerialsAreSeq(pending: seq<Queued>)
    ensures forall x :: x in Serials(pending) <==> x in SerialSeq(pending)
  {
    forall q | q in pending ensures q.serial in SerialSeq(pending) {
      var i :| 0 <= i < |pending| && pending[i] == q;
      assert SerialSeq(pending)[i] == q.serial;
    }
    forall x | x in SerialSeq(pending) ensures x in Serials(pending) {
      var i :| 0 <= i < |pending| && SerialSeq(pending)[i] == x;
      assert pending[i] in pending;
    }
  }

  /** Two halves of an ascending sequence share no element. */
  lemma HalvesDisjoint(a: seq<nat>, b: seq<nat>, x: nat)
    requires Ascending(a + b)
    ensures !(x in a && x in b)
    ensures x in a + b <==> x in a || x in b
  {
    forall i, j | 0 <= i < |a| && 0 <= j < |b| ensures a[i] < b[j] {
      assert (a + b)[i] == a[i] && (a + b)[|a| + j] == b[j];
    }
  }

  lemma LeaveKeepsLedger(s: State, id: Id, s': State)
    requires QueueOk(s) && LedgerOk(s) && LeavesTo(s, id, s')
    ensures LedgerOk(s')
  {
    PurgeOk(s.subs, id, s.log, s.pending, s'.pending);
    PurgeKeepsOrder(s.delivered, s'.subs, id, s.pending, s'.pending);
    SerialsAreSeq(s.pending);
    SerialsAreSeq(s'.pending);
    forall x ensures x in History(s) <==> x in s.delivered || x in Serials(s.pending) {
      HalvesDisjoint(s.delivered, SerialSeq(s.pending), x);
    }
    forall x ensures x in History(s') <==> x in s.delivered || x in Serials(s'.pending) {
      HalvesDisjoint(s.delivered, SerialSeq(s'.pending), x);
    }
    forall i: nat | i < |s'.log| ensures OneFate(i in s'.unmatched, i in s'.purged, i in History(s')) {
      HalvesDisjoint(s.delivered, SerialSeq(s.pending), i);
      assert OneFate(i in s.unmatched, i in s.purged, i in History(s));
    }
  }

  // The capture order.

  lemma {:induction false} WithoutKeyExact(order: seq<CaptureKey>, key: CaptureKey)
    requires Distinct(order)
    ensures Distinct(WithoutFirst(order, key))
    ensures forall k :: k in WithoutFirst(order, key) <==> k in order && k != key
    ensures key in order ==> |WithoutFirst(order, key)| == |order| - 1
  {
    if order != [] {
      var first, rest := order[0], order[1..];
      assert order == [first] + rest;
      assert first !in rest;
      if first != key {
        WithoutKeyExact(rest, key);
        var after := WithoutFirst(rest, key);
        forall i, j | 0 <= i < j < |[first] + after| ensures ([first] + after)[i] != ([first] + after)[j] {
          assert ([first] + after)[j] == after[j - 1] && after[j - 1] in after;
        }
      }
    }
  }

  lemma CloseKeepsRest(s: State, key: CaptureKey, s': State)
    requires SubsOk(s) && InstalledOk(s) && QueueOk(s) && LedgerOk(s) && ClosesTo(s, key, s')
    ensures SubsOk(s') && InstalledOk(s') && QueueOk(s') && LedgerOk(s')
  {
    CloseKeepsSubs(s, key, s');
    assert History(s') == History(s);
  }

  lemma CloseKeepsSubs(s: State, key: CaptureKey, s': State)
    requires SubsOk(s) && ClosesTo(s, key, s')
    ensures SubsOk(s')
  {
    forall id | id in s'.subs ensures SubOk(s', id) {
      assert SubOk(s, id);
    }
  }

  lemma LeaveKeepsOpen(s: State, id: Id, left: State, s': State)
    requires OpenOk(s) && LeavesTo(s, id, left) && ClosesTo(left, s.subs[id].key, s')
    ensures OpenOk(s')
  {
    hide Purge, HasMember, Serials, JoinedOn, HasJoined, WithoutFirst, WrapCursor;
    var key0 := s.subs[id].key;
    JoinedOnLeave(s.subs, id, key0);
    forall key ensures key in s'.kernel <==> HasJoined(s'.subs, key) {
      JoinedOnLeave(s.subs, id, key);
    }
    assert left.kernel.Keys == s.kernel.Keys by {
      assert key0 in s.kernel;
    }
  }

  lemma LeaveKeepsOrder(s: State, id: Id, left: State, s': State)
    requires OrderOk(s) && LeavesTo(s, id, left) && ClosesTo(left, s.subs[id].key, s')
    ensures OrderOk(s')
  {
    var key0 := s.subs[id].key;
    JoinedOnLeave(s.subs, id, key0);
    assert key0 in s.order;
    WithoutKeyExact(s.order, key0);
    forall key ensures key in s'.order <==> HasJoined(s'.subs, key) {
      JoinedOnLeave(s.subs, id, key);
    }
  }

  // ---------------------------------------------------------------- remove

  /** The state a removal reaches by leaving first, when joined. */
  lemma RemoveEffect(s: State, id: Id, leaveOk: bool, s': State, r: Result<bool, McrxError>)
    returns (left: State, lr: Result<(), McrxError>)
    requires (s', r) == Remove(s, id, leaveOk)
    ensures id !in s.subs ==> s' == s && r == Ok(false)
    ensures id in s.subs && s.subs[id].joined ==> (left, lr) == Leave(s, id, leaveOk)
    ensures id in s.subs && !s.subs[id].joined ==> left == s && lr == Ok(())
    ensures id in s.subs && lr.Err? ==> s' == left && r == Err(lr.error)
    ensures id in s.subs && lr.Ok? ==>
      id in left.subs && !left.subs[id].joined && s' == left.(subs := left.subs - {id}) && r == Ok(true)
  {
    left, lr := s, Ok(());
    if id in s.subs && s.subs[id].joined {
      left, lr := Leave(s, id, leaveOk).0, Leave(s, id, leaveOk).1;
    }
  }

  lemma RemoveKeepsInv(s: State, id: Id, leaveOk: bool, s': State, r: Result<bool, McrxError>)
    requires Inv(s) && (s', r) == Remove(s, id, leaveOk)
    ensures Inv(s')
  {
    hide SubsOk, OrderOk, OpenOk, InstalledOk, QueueOk, LedgerOk, Leave, Remove;
    var left, lr := RemoveEffect(s, id, leaveOk, s', r);
    if id in s.subs {
      if s.subs[id].joined {
        LeaveKeepsInv(s, id, leaveOk, left, lr);
      }
      if lr.Ok? {
        UnjoinedChange(left, s');
        RemoveKeepsSubs(left, id, s');
      }
    }
  }

  lemma RemoveKeepsSubs(s: State, id: Id, s': State)
    requires SubsOk(s) && s' == s.(subs := s.subs - {id})
    ensures SubsOk(s')
  {
    forall x | x in s'.subs ensures SubOk(s', x) {
      assert SubOk(s, x);
    }
    assert s'.subs.Keys <= s.subs.Keys;
    SubsetSize(s'.subs.Keys, s.subs.Keys);
  }

  lemma {:induction false} SubsetSize<T>(a: set<T>, b: set<T>)
    requires a <= b
    ensures |a| <= |b|
  {
    assert b == a + (b - a);
  }
}
