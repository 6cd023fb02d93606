/** What joins, leaves and adds of the shared raw capture engine do (src/raw/shared.rs),
    told by groups, sources and interfaces alone: which kernel memberships a capture
    socket holds, when a call needs the kernel or the interface lookup, and when it is
    refused. */
module SharedKernel {
  import opened Wrappers
  import opened Net
  import opened Config
  import opened IdLists
  import opened Demux
  import opened SharedSpec
  import opened SharedInvariants

  /** The same multicast channel: group and source filter. */
  predicate SameChannel(a: RawConfig, b: RawConfig) {
    a.group == b.group && a.source == b.source
  }

  /** A kernel membership for the config's channel is installed on the capture. */
  ghost predicate Installed(s: State, key: CaptureKey, config: RawConfig) {
    key in s.kernel && exists c :: c in s.kernel[key].Values && SameChannel(c, config)
  }

  /** Another subscription is joined to the channel of `id` on its capture. */
  ghost predicate Shared(s: State, id: Id)
    requires id in s.subs
  {
    exists other :: other != id && IsMember(s, other, s.subs[id].key, s.subs[id].config)
  }

  ghost predicate IsMember(s: State, id: Id, key: CaptureKey, config: RawConfig) {
    id in s.subs && s.subs[id].joined && s.subs[id].key == key && SameChannel(s.subs[id].config, config)
  }

  /** The kernel holds a membership for the channel of every joined subscription on its
      capture, one per channel, and no other. */
  ghost predicate KernelExact(s: State) {
    && (forall id :: id in s.subs && s.subs[id].joined ==> Installed(s, s.subs[id].key, s.subs[id].config))
    && (forall key, c :: key in s.kernel && c in s.kernel[key].Values ==> exists id :: IsMember(s, id, key, c))
    && (forall key, a, b :: key in s.kernel && a in s.kernel[key] && b in s.kernel[key] && a != b ==>
          !SameChannel(s.kernel[key][a], s.kernel[key][b]))
  }

  /** A membership key stands for a channel. */
  lemma KeyIsChannel(a: RawConfig, b: RawConfig)
    ensures MembershipKeyOf(a) == MembershipKeyOf(b) <==> SameChannel(a, b)
  {
  }

  lemma InstalledIsKeyed(s: State, key: CaptureKey, config: RawConfig)
    requires InstalledOk(s) && key in s.kernel
    ensures Installed(s, key, config) <==> MembershipKeyOf(config) in s.kernel[key]
    ensures Installed(s, key, config) <==> exists id :: IsMember(s, id, key, config)
  {
    var mk := MembershipKeyOf(config);
    if Installed(s, key, config) {
      var c :| c in s.kernel[key].Values && SameChannel(c, config);
      var k :| k in s.kernel[key] && s.kernel[key][k] == c;
      KeyIsChannel(c, config);
      assert k == mk;
    }
    if mk in s.kernel[key] {
      KeyIsChannel(s.kernel[key][mk], config);
      assert s.kernel[key][mk] in s.kernel[key].Values;
      assert HasMember(s.subs, key, mk);
      var id :| id in JoinedOn(s.subs, key) && MembershipKeyOf(JoinedOn(s.subs, key)[id]) == mk;
      KeyIsChannel(s.subs[id].config, config);
      assert IsMember(s, id, key, config);
    }
    if id :| IsMember(s, id, key, config) {
      KeyIsChannel(s.subs[id].config, config);
      assert id in JoinedOn(s.subs, key) && JoinedOn(s.subs, key)[id] == s.subs[id].config;
      assert HasMember(s.subs, key, mk);
    }
  }

  /** The invariant, told by channels. */
  lemma InvMeansExact(s: State)
    requires Inv(s)
    ensures KernelExact(s)
  {
    hide SubsOk, OrderOk, OpenOk, InstalledOk, QueueOk, LedgerOk, Installed, IsMember, SameChannel;
    forall id | id in s.subs && s.subs[id].joined ensures Installed(s, s.subs[id].key, s.subs[id].config) {
      JoinedIsInstalled(s, id);
    }
    forall key, c | key in s.kernel && c in s.kernel[key].Values ensures exists id :: IsMember(s, id, key, c) {
      InstalledIsJoined(s, key, c);
    }
    forall key, a, b | key in s.kernel && a in s.kernel[key] && b in s.kernel[key] && a != b
      ensures !SameChannel(s.kernel[key][a], s.kernel[key][b])
    {
      KeysAreChannels(s, key, a, b);
    }
  }

  lemma JoinedIsInstalled(s: State, id: Id)
    requires KernelOk(s) && id in s.subs && s.subs[id].joined
    ensures s.subs[id].key in s.kernel && Installed(s, s.subs[id].key, s.subs[id].config)
  {
    hide InstalledOk, Installed;
    HasOne(s.subs, s.subs[id].key, id);
    assert IsMember(s, id, s.subs[id].key, s.subs[id].config);
    InstalledIsKeyed(s, s.subs[id].key, s.subs[id].config);
  }

  lemma HasOne(subs: Subscriptions, key: CaptureKey, id: Id)
    requires id in subs && subs[id].joined && subs[id].key == key
    ensures HasJoined(subs, key)
  {
    assert id in JoinedOn(subs, key);
  }

  lemma InstalledIsJoined(s: State, key: CaptureKey, c: RawConfig)
    requires InstalledOk(s) && key in s.kernel && c in s.kernel[key].Values
    ensures exists id :: IsMember(s, id, key, c)
  {
    hide InstalledOk, IsMember;
    assert SameChannel(c, c);
    InstalledIsKeyed(s, key, c);
  }

  lemma KeysAreChannels(s: State, key: CaptureKey, a: MembershipKey, b: MembershipKey)
    requires InstalledOk(s) && key in s.kernel && a in s.kernel[key] && b in s.kernel[key] && a != b
    ensures !SameChannel(s.kernel[key][a], s.kernel[key][b])
  {
    KeyIsChannel(s.kernel[key][a], s.kernel[key][b]);
  }

  // ---------------------------------------------------------------- join

  /** When a join fails, and how. */
  ghost function JoinAnswer(s: State, id: Id, openOk: bool, joinOk: bool): Result<(), McrxError> {
    if id !in s.subs then Err(SubscriptionNotFound)
    else if s.subs[id].joined then Err(SubscriptionAlreadyJoined)
    else if s.subs[id].key !in s.kernel && !openOk then Err(SocketOpenFailed)
    else if !Installed(s, s.subs[id].key, s.subs[id].config) && !joinOk then Err(SocketOptionFailed)
    else Ok(())
  }

  /** The configs with a kernel membership on a capture. */
  function InstalledOn(s: State, key: CaptureKey): set<RawConfig> {
    if key in s.kernel then s.kernel[key].Values else {}
  }

  /** A join opens a socket exactly when its capture has none, and makes a kernel join
      exactly when its channel is not installed there; it fails exactly when a call it
      makes fails, and then nothing changes. A successful join marks the subscription,
      installs its config on its capture if its channel was missing, and touches no
      other capture; a new capture goes to the end of the order with an empty socket. */
  lemma JoinExactly(s: State, id: Id, openOk: bool, joinOk: bool, s': State, r: Result<(), McrxError>)
    requires Inv(s) && (s', r) == Join(s, id, openOk, joinOk)
    ensures r == JoinAnswer(s, id, openOk, joinOk)
    ensures r.Err? ==> s' == s
    ensures r.Ok? ==>
      var sub := s.subs[id];
      && s'.subs == s.subs[id := sub.(joined := true)]
      && s'.kernel.Keys == s.kernel.Keys + {sub.key}
      && InstalledOn(s', sub.key)
         == InstalledOn(s, sub.key) + (if Installed(s, sub.key, sub.config) then {} else {sub.config})
      && (forall key :: key != sub.key ==> InstalledOn(s', key) == InstalledOn(s, key))
      && s'.order == (if sub.key in s.kernel then s.order else s.order + [sub.key])
      && s'.wire == (if sub.key in s.kernel then s.wire else s.wire[sub.key := []])
      && s' == s.(subs := s'.subs, kernel := s'.kernel, order := s'.order, wire := s'.wire)
  {
    hide SubsOk, OrderOk, OpenOk, InstalledOk, QueueOk, LedgerOk, Installed, Join, JoinAnswer;
    JoinAnswers(s, id, openOk, joinOk, r);
    JoinEffect(s, id, openOk, joinOk, s', r);
    if r.Ok? {
      JoinInstalls(s, id, s');
    }
  }

  /** In particular the joined channel is installed on the subscription's capture. */
  lemma JoinReaches(s: State, id: Id, openOk: bool, joinOk: bool, s': State, r: Result<(), McrxError>)
    requires Inv(s) && (s', r) == Join(s, id, openOk, joinOk)
    ensures r == JoinAnswer(s, id, openOk, joinOk)
    ensures r.Ok? ==> id in s'.subs && s'.subs[id].joined && Installed(s', s'.subs[id].key, s'.subs[id].config)
  {
    hide SubsOk, OrderOk, OpenOk, InstalledOk, QueueOk, LedgerOk, Installed, Join, JoinAnswer;
    JoinExactly(s, id, openOk, joinOk, s', r);
    if r.Ok? {
      JoinKeepsInv(s, id, openOk, joinOk, s', r);
      JoinedIsInstalled(s', id);
    }
  }

  lemma JoinAnswers(s: State, id: Id, openOk: bool, joinOk: bool, r: Result<(), McrxError>)
    requires InstalledOk(s) && r == Join(s, id, openOk, joinOk).1
    ensures r == JoinAnswer(s, id, openOk, joinOk)
  {
    hide InstalledOk, Installed;
    if id in s.subs {
      var key, config := s.subs[id].key, s.subs[id].config;
      if key in s.kernel {
        InstalledIsKeyed(s, key, config);
      } else {
        NotInstalled(s, key, config);
      }
    }
  }

  lemma JoinInstalls(s: State, id: Id, s': State)
    requires InstalledOk(s) && JoinsTo(s, id, s')
    ensures s'.kernel.Keys == s.kernel.Keys + {s.subs[id].key}
    ensures InstalledOn(s', s.subs[id].key) == InstalledOn(s, s.subs[id].key)
      + (if Installed(s, s.subs[id].key, s.subs[id].config) then {} else {s.subs[id].config})
    ensures forall key :: key != s.subs[id].key ==> InstalledOn(s', key) == InstalledOn(s, key)
  {
    hide InstalledOk, Installed;
    var key, config := s.subs[id].key, s.subs[id].config;
    if key in s.kernel {
      InstalledIsKeyed(s, key, config);
      PutValues(s.kernel[key], MembershipKeyOf(config), config);
    } else {
      NotInstalled(s, key, config);
      PutValues(map[], MembershipKeyOf(config), config);
    }
  }

  lemma NotInstalled(s: State, key: CaptureKey, config: RawConfig)
    requires key !in s.kernel
    ensures !Installed(s, key, config)
  {
  }

  lemma PutValues(m: map<MembershipKey, RawConfig>, k: MembershipKey, c: RawConfig)
    ensures k !in m ==> m[k := c].Values == m.Values + {c}
  {
    if k !in m {
      var m' := m[k := c];
      assert m'[k] == c;
      forall v | v in m.Values ensures v in m'.Values {
        var x :| x in m && m[x] == v;
        assert m'[x] == v;
      }
    }
  }

  // ---------------------------------------------------------------- leave

  /** When a leave fails, and how. */
  ghost function LeaveAnswer(s: State, id: Id, leaveOk: bool): Result<(), McrxError> {
    if id !in s.subs then Err(SubscriptionNotFound)
    else if !s.subs[id].joined then Err(SubscriptionNotJoined)
    else if !Shared(s, id) && !leaveOk then Err(SocketOptionFailed)
    else Ok(())
  }

  /** No other subscription is joined on the capture of `id`. */
  ghost predicate LastOnCapture(s: State, id: Id)
    requires id in s.subs
  {
    forall other :: other in s.subs && s.subs[other].joined && s.subs[other].key == s.subs[id].key ==> other == id
  }

  /** A leave makes a kernel leave exactly when no other subscription shares its channel
      on its capture, fails exactly when that call fails, and then nothing changes. A
      successful one takes the channel's membership, and that alone, out of the kernel if
      nobody shares it, and closes the socket of a capture nobody is joined on any more:
      out of the order, the cursor wrapped, what it held unread dropped. */
  lemma LeaveExactly(s: State, id: Id, leaveOk: bool, s': State, r: Result<(), McrxError>)
    requires Inv(s) && (s', r) == Leave(s, id, leaveOk)
    ensures r == LeaveAnswer(s, id, leaveOk)
    ensures r.Err? ==> s' == s
    ensures r.Ok? ==>
      var sub := s.subs[id];
      && s'.subs == s.subs[id := sub.(joined := false)]
      && (forall c :: c in InstalledOn(s', sub.key) <==>
            c in InstalledOn(s, sub.key) && (Shared(s, id) || !SameChannel(c, sub.config)))
      && (forall key :: key != sub.key ==> InstalledOn(s', key) == InstalledOn(s, key))
      && (if LastOnCapture(s, id) then
            && s'.kernel == s.kernel - {sub.key} && s'.wire == s.wire - {sub.key}
            && s'.order == WithoutFirst(s.order, sub.key)
            && s'.cursor == (if s'.order == [] then 0 else s.cursor % |s'.order|)
          else
            && s'.kernel.Keys == s.kernel.Keys && s'.wire == s.wire
            && s'.order == s.order && s'.cursor == s.cursor)
      && s'.log == s.log && s'.delivered == s.delivered && s'.unmatched == s.unmatched
      && s'.limits == s.limits && s'.nextId == s.nextId
  {
    hide SubsOk, OrderOk, OpenOk, InstalledOk, QueueOk, LedgerOk, Leave, LeaveAnswer;
    LeaveAnswers(s, id, leaveOk, r);
    var left := LeaveEffect(s, id, leaveOk, s', r);
    if r.Ok? {
      LeaveTakesOut(s, id, left, s');
    }
  }

  lemma LeaveAnswers(s: State, id: Id, leaveOk: bool, r: Result<(), McrxError>)
    requires r == Leave(s, id, leaveOk).1
    ensures r == LeaveAnswer(s, id, leaveOk)
  {
    hide Purge, HasMember, HasJoined, Shared;
    if id in s.subs && s.subs[id].joined {
      SharedIsMember(s, id, WithJoined(s.subs, id, false));
    }
  }

  lemma LeaveTakesOut(s: State, id: Id, left: State, s': State)
    requires KernelOk(s) && LeavesTo(s, id, left) && ClosesTo(left, s.subs[id].key, s')
    ensures var sub := s.subs[id];
      && s'.subs == s.subs[id := sub.(joined := false)]
      && (forall c :: c in InstalledOn(s', sub.key) <==>
            c in InstalledOn(s, sub.key) && (Shared(s, id) || !SameChannel(c, sub.config)))
      && (forall key :: key != sub.key ==> InstalledOn(s', key) == InstalledOn(s, key))
      && (if LastOnCapture(s, id) then
            && s'.kernel == s.kernel - {sub.key} && s'.wire == s.wire - {sub.key}
            && s'.order == WithoutFirst(s.order, sub.key)
            && s'.cursor == (if s'.order == [] then 0 else s.cursor % |s'.order|)
          else
            && s'.kernel.Keys == s.kernel.Keys && s'.wire == s.wire
            && s'.order == s.order && s'.cursor == s.cursor)
  {
    hide InstalledOk, HasMember, HasJoined, Purge, Serials, WithoutFirst, Shared, LastOnCapture, SameChannel;
    var key, config := s.subs[id].key, s.subs[id].config;
    var subs := WithJoined(s.subs, id, false);
    HasOne(s.subs, key, id);
    SharedIsMember(s, id, subs);
    LastIsUnjoined(s, id, subs);
    LeaveMemberships(s, id, subs, s.kernel[key] - {MembershipKeyOf(config)});
  }

  lemma SharedIsMember(s: State, id: Id, subs: Subscriptions)
    requires id in s.subs && s.subs[id].joined && subs == WithJoined(s.subs, id, false)
    ensures Shared(s, id) <==> HasMember(subs, s.subs[id].key, MembershipKeyOf(s.subs[id].config))
  {
    var key, config := s.subs[id].key, s.subs[id].config;
    var m := JoinedOn(subs, key);
    if Shared(s, id) {
      var other :| other != id && IsMember(s, other, key, config);
      KeyIsChannel(s.subs[other].config, config);
      assert other in m && MembershipKeyOf(m[other]) == MembershipKeyOf(config);
    }
    if HasMember(subs, key, MembershipKeyOf(config)) {
      var other :| other in m && MembershipKeyOf(m[other]) == MembershipKeyOf(config);
      KeyIsChannel(s.subs[other].config, config);
      assert other != id && IsMember(s, other, key, config);
    }
  }

  lemma LastIsUnjoined(s: State, id: Id, subs: Subscriptions)
    requires id in s.subs && s.subs[id].joined && subs == WithJoined(s.subs, id, false)
    ensures LastOnCapture(s, id) <==> !HasJoined(subs, s.subs[id].key)
    ensures LastOnCapture(s, id) ==> !Shared(s, id)
  {
    var m := JoinedOn(subs, s.subs[id].key);
    if !LastOnCapture(s, id) {
      var other :| other in s.subs && s.subs[other].joined && s.subs[other].key == s.subs[id].key && other != id;
      assert other in m;
    }
  }

  /** Taking out the key of a channel takes out the config that joined it. */
  lemma LeaveMemberships(s: State, id: Id, subs: Subscriptions, rest: map<MembershipKey, RawConfig>)
    requires InstalledOk(s) && id in s.subs && s.subs[id].joined && s.subs[id].key in s.kernel
    requires rest == s.kernel[s.subs[id].key] - {MembershipKeyOf(s.subs[id].config)}
    ensures forall c :: c in rest.Values <==>
      c in s.kernel[s.subs[id].key].Values && !SameChannel(c, s.subs[id].config)
    ensures LastOnCapture(s, id) ==> rest.Values == {}
  {
    var key, config := s.subs[id].key, s.subs[id].config;
    var installed := s.kernel[key];
    forall c ensures c in rest.Values <==> c in installed.Values && !SameChannel(c, config) {
      KeyIsChannel(c, config);
      if c in installed.Values {
        var k :| k in installed && installed[k] == c;
        assert MembershipKeyOf(c) == k;
        if !SameChannel(c, config) {
          assert k in rest && rest[k] == c;
        }
      }
    }
    if LastOnCapture(s, id) {
      forall c | c in installed.Values ensures SameChannel(c, config) {
        assert SameChannel(c, c);
        assert Installed(s, key, c);
        InstalledIsKeyed(s, key, c);
      }
    }
  }

  /** A removal of a joined subscription leaves first, and fails exactly when the leave
      does; then, or at once if it is not joined, the subscription is forgotten. */
  lemma RemoveExactly(s: State, id: Id, leaveOk: bool, s': State, r: Result<bool, McrxError>)
    requires Inv(s) && (s', r) == Remove(s, id, leaveOk)
    ensures r == if id !in s.subs then Ok(false)
      else if s.subs[id].joined && !Shared(s, id) && !leaveOk then Err(SocketOptionFailed)
      else Ok(true)
    ensures r != Ok(true) ==> s' == s
    ensures r == Ok(true) ==>
      var left := if s.subs[id].joined then Leave(s, id, leaveOk).0 else s;
      s' == left.(subs := s.subs - {id})
  {
    hide SubsOk, OrderOk, OpenOk, InstalledOk, QueueOk, LedgerOk, Leave, Remove, Shared;
    var left, lr := RemoveEffect(s, id, leaveOk, s', r);
    if id in s.subs && s.subs[id].joined {
      LeaveExactly(s, id, leaveOk, left, lr);
    }
  }

  // ---------------------------------------------------------------- add

  /** The same interface selection in the same family. */
  predicate SameSelection(a: RawConfig, b: RawConfig) {
    a.Family() == b.Family() && a.interface == b.interface && a.interfaceIndex == b.interfaceIndex
  }

  /** A stored subscription with the same selection fixes the capture. */
  ghost predicate Selected(s: State, config: RawConfig, key: CaptureKey) {
    exists id :: id in s.subs && SameSelection(s.subs[id].config, config) && s.subs[id].key == key
  }

  /** An add looks the interface up exactly when no stored subscription selects the same
      interface in the same family, and otherwise takes that subscription's capture; it
      fails exactly on an invalid config, a full context or a failed lookup, and then
      nothing changes. A successful one stores the config, not joined, under a fresh id. */
  lemma AddExactly(s: State, config: RawConfig, lookup: Option<U32>, s': State, r: Result<Id, McrxError>)
    requires Inv(s) && (s', r) == Add(s, config, lookup)
    ensures r.Err? <==>
      || !IsValid(config)
      || |s.subs| >= s.limits.maxSubscriptions
      || (lookup.None? && forall key :: !Selected(s, config, key))
    ensures r.Err? ==> s' == s
    ensures !IsValid(config) ==> r == Err(config.Validate().error)
    ensures IsValid(config) && |s.subs| >= s.limits.maxSubscriptions ==>
      r == Err(SubscriptionLimitExceeded(s.limits.maxSubscriptions))
    ensures r.Err? && IsValid(config) && |s.subs| < s.limits.maxSubscriptions ==> r == Err(InterfaceLookupFailed)
    ensures r.Ok? ==>
      && r.value == s.nextId && r.value !in s.subs && s'.nextId == s.nextId + 1
      && r.value in s'.subs && s'.subs == s.subs[r.value := s'.subs[r.value]]
      && s'.subs[r.value].config == config && !s'.subs[r.value].joined
      && s' == s.(subs := s'.subs, nextId := s'.nextId)
    ensures r.Ok? && (exists key :: Selected(s, config, key)) ==> Selected(s, config, s'.subs[r.value].key)
    ensures r.Ok? && (forall key :: !Selected(s, config, key)) ==>
      s'.subs[r.value].key == CaptureKey(config.Family(), lookup.value)
  {
    hide OrderOk, OpenOk, InstalledOk, QueueOk, LedgerOk;
    NextIdIsNew(s);
    CachedIsSelected(s, config);
  }

  lemma CachedIsSelected(s: State, config: RawConfig)
    requires SubsOk(s)
    ensures CachedKey(s.subs, SelectorOf(config)).None? <==> forall key :: !Selected(s, config, key)
    ensures CachedKey(s.subs, SelectorOf(config)).Some? ==>
      Selected(s, config, CachedKey(s.subs, SelectorOf(config)).value)
  {
    if id :| id in s.subs && SameSelection(s.subs[id].config, config) {
      assert SelectorOf(s.subs[id].config) == SelectorOf(config);
      CachedKeyIsShared(s, SelectorOf(config));
      assert Selected(s, config, s.subs[id].key);
    }
  }

  /** Two stored subscriptions with the same selection use one capture. */
  lemma SelectionFixesCapture(s: State, i: Id, j: Id)
    requires Inv(s) && i in s.subs && j in s.subs && SameSelection(s.subs[i].config, s.subs[j].config)
    ensures s.subs[i].key == s.subs[j].key
  {
    assert SelectorOf(s.subs[i].config) == SelectorOf(s.subs[j].config);
  }
}
