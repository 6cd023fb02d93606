/** The derived state of the shared raw capture engine (src/raw/shared.rs): the
    reference-counted selector cache and, per capture socket, the reference-counted
    kernel memberships and the index, each with the agreement it must keep with
    the stored subscriptions. */
module SharedCaches {
  import opened Wrappers
  import opened Config
  import opened IdLists
  import opened Demux
  import opened SharedSpec
  import opened SharedInvariants

  // ---------------------------------------------------------------- captures

  datatype KernelMembership = KernelMembership(references: nat, joinedConfig: RawConfig)

  /** The members of one kernel membership. */
  ghost function MembersOf(m: Memberships, mk: MembershipKey): set<Id> {
    set id | id in m && MembershipKeyOf(m[id]) == mk
  }

  ghost predicate Counts(entry: KernelMembership, members: set<Id>, config: RawConfig) {
    entry.references == |members| > 0 && entry.joinedConfig == config
  }

  /** The entry of `mk` after one more member joined. */
  function Joined(kernel: map<MembershipKey, KernelMembership>, mk: MembershipKey, config: RawConfig)
    : KernelMembership
  {
    if mk in kernel then kernel[mk].(references := kernel[mk].references + 1) else KernelMembership(1, config)
  }

  /** The kernel memberships after one member of `mk` left. */
  function Parted(kernel: map<MembershipKey, KernelMembership>, mk: MembershipKey): map<MembershipKey, KernelMembership>
    requires mk in kernel && kernel[mk].references > 0
  {
    if kernel[mk].references == 1 then kernel - {mk}
    else kernel[mk := kernel[mk].(references := kernel[mk].references - 1)]
  }

  datatype Capture = Capture(
    memberships: nat,
    kernelMemberships: map<MembershipKey, KernelMembership>,
    demultiplexer: CaptureDemultiplexer)
  {
    /** The capture's bookkeeping is that of the joined subscriptions `m` over the
        kernel memberships `installed`: the membership count, one reference per
        member, the config that joined, and the index. */
    ghost predicate Serves(m: Memberships, installed: map<MembershipKey, RawConfig>) {
      && memberships == |m|
      && kernelMemberships.Keys == installed.Keys
      && (forall mk :: mk in kernelMemberships ==> CountsOk(m, installed, mk))
      && (forall id :: id in m ==> MembershipKeyOf(m[id]) in kernelMemberships)
      && demultiplexer.Indexes(m)
    }

    ghost predicate CountsOk(m: Memberships, installed: map<MembershipKey, RawConfig>, mk: MembershipKey)
      requires mk in kernelMemberships && mk in installed
    {
      Counts(kernelMemberships[mk], MembersOf(m, mk), installed[mk])
    }

    /** The bookkeeping of a join, after the kernel has it. */
    method Enter(id: Id, config: RawConfig, ghost m: Memberships, ghost installed: map<MembershipKey, RawConfig>)
      returns (r: Capture)
      requires Serves(m, installed) && id !in m
      ensures r.Serves(m[id := config],
        if MembershipKeyOf(config) in installed then installed else installed[MembershipKeyOf(config) := config])
    {
      var mk := MembershipKeyOf(config);
      var entry := Joined(kernelMemberships, mk, config);
      var index := demultiplexer.Insert(id, config, m);
      r := Capture(memberships + 1, kernelMemberships[mk := entry], index);
      EnterCounts(id, config, m, installed, r);
    }

    lemma EnterCounts(
      id: Id, config: RawConfig, m: Memberships, installed: map<MembershipKey, RawConfig>, r: Capture)
      requires Serves(m, installed) && id !in m
      requires var mk := MembershipKeyOf(config);
        r.kernelMemberships == kernelMemberships[mk := Joined(kernelMemberships, mk, config)]
      requires r.memberships == memberships + 1 && r.demultiplexer.Indexes(m[id := config])
      ensures r.Serves(m[id := config],
        if MembershipKeyOf(config) in installed then installed else installed[MembershipKeyOf(config) := config])
    {
      hide CaptureDemultiplexer.Indexes, MembersOf;
      var mk, m' := MembershipKeyOf(config), m[id := config];
      var installed' := if mk in installed then installed else installed[mk := config];
      assert |m'| == |m| + 1;
      forall k | k in r.kernelMemberships ensures k in installed' && r.CountsOk(m', installed', k) {
        if k == mk {
          EnterCount(id, config, m, installed, r);
        } else {
          MembersEnter(m, id, config, k);
          assert CountsOk(m, installed, k);
        }
      }
    }

    lemma EnterCount(
      id: Id, config: RawConfig, m: Memberships, installed: map<MembershipKey, RawConfig>, r: Capture)
      requires Serves(m, installed) && id !in m
      requires var mk := MembershipKeyOf(config);
        mk in r.kernelMemberships && r.kernelMemberships[mk] == Joined(kernelMemberships, mk, config)
      ensures var mk := MembershipKeyOf(config);
        Counts(r.kernelMemberships[mk], MembersOf(m[id := config], mk),
               if mk in installed then installed[mk] else config)
    {
      hide CaptureDemultiplexer.Indexes;
      var mk := MembershipKeyOf(config);
      MembersEnter(m, id, config, mk);
      if mk in kernelMemberships {
        assert CountsOk(m, installed, mk);
      } else {
        assert MembersOf(m, mk) == {};
      }
    }

    /** The bookkeeping of a leave: the kernel membership goes with its last
        member. */
    method Exit(id: Id, config: RawConfig, ghost m: Memberships, ghost installed: map<MembershipKey, RawConfig>)
      returns (r: Capture)
      requires Serves(m, installed) && id in m && m[id] == config
      ensures r.Serves(m - {id},
        if MembersOf(m, MembershipKeyOf(config)) == {id} then installed - {MembershipKeyOf(config)} else installed)
    {
      var mk := MembershipKeyOf(config);
      ExitLast(id, m, installed);
      assert m.Keys == (m - {id}).Keys + {id};
      var kernel := Parted(kernelMemberships, mk);
      var index := demultiplexer.Remove(id, config, m);
      r := Capture(memberships - 1, kernel, index);
      ExitCounts(id, m, installed, r, m - {id}, if MembersOf(m, mk) == {id} then installed - {mk} else installed);
    }

    lemma ExitCounts(
      id: Id, m: Memberships, installed: map<MembershipKey, RawConfig>, r: Capture, m': Memberships,
      installed': map<MembershipKey, RawConfig>)
      requires Serves(m, installed) && id in m && m' == m - {id}
      requires var mk := MembershipKeyOf(m[id]);
        && mk in kernelMemberships && kernelMemberships[mk].references > 0
        && r.kernelMemberships == Parted(kernelMemberships, mk)
        && installed' == if MembersOf(m, mk) == {id} then installed - {mk} else installed
      requires r.memberships == memberships - 1 && r.demultiplexer.Indexes(m')
      ensures r.Serves(m', installed')
    {
      hide CaptureDemultiplexer.Indexes, MembersOf, MembershipKeyOf, Counts, Parted;
      assert m.Keys == m'.Keys + {id};
      forall k | k in r.kernelMemberships ensures k in installed' && r.CountsOk(m', installed', k) {
        ExitCount(id, m, installed, r, k);
      }
      ExitKeys(id, m, installed, r);
      forall x | x in m' ensures MembershipKeyOf(m'[x]) in r.kernelMemberships {
        ExitKeeps(id, m, installed, r, x);
      }
    }

    lemma ExitKeys(id: Id, m: Memberships, installed: map<MembershipKey, RawConfig>, r: Capture)
      requires Serves(m, installed) && id in m
      requires var mk := MembershipKeyOf(m[id]);
        && mk in kernelMemberships && kernelMemberships[mk].references > 0
        && r.kernelMemberships == Parted(kernelMemberships, mk)
      ensures var mk := MembershipKeyOf(m[id]);
        r.kernelMemberships.Keys == (if MembersOf(m, mk) == {id} then installed - {mk} else installed).Keys
    {
      hide CaptureDemultiplexer.Indexes, MembersOf, MembershipKeyOf, Counts;
      ExitLast(id, m, installed);
    }

    lemma ExitKeeps(id: Id, m: Memberships, installed: map<MembershipKey, RawConfig>, r: Capture, x: Id)
      requires Serves(m, installed) && id in m && x in m && x != id
      requires var mk := MembershipKeyOf(m[id]);
        && mk in kernelMemberships && kernelMemberships[mk].references > 0
        && r.kernelMemberships == Parted(kernelMemberships, mk)
      ensures MembershipKeyOf(m[x]) in r.kernelMemberships
    {
      hide CaptureDemultiplexer.Indexes, MembersOf, Counts;
      ExitLast(id, m, installed);
      if MembershipKeyOf(m[x]) == MembershipKeyOf(m[id]) {
        OtherMember(m, id, x);
      }
    }

    lemma ExitLast(id: Id, m: Memberships, installed: map<MembershipKey, RawConfig>)
      requires Serves(m, installed) && id in m
      ensures var mk := MembershipKeyOf(m[id]);
        mk in kernelMemberships && kernelMemberships[mk].references > 0
        && (MembersOf(m, mk) == {id} <==> kernelMemberships[mk].references == 1)
    {
      hide CaptureDemultiplexer.Indexes;
      var mk := MembershipKeyOf(m[id]);
      assert CountsOk(m, installed, mk);
      MembersExit(m, id, mk);
    }

    lemma ExitCount(
      id: Id, m: Memberships, installed: map<MembershipKey, RawConfig>, r: Capture, k: MembershipKey)
      requires Serves(m, installed) && id in m
      requires var mk := MembershipKeyOf(m[id]);
        && mk in kernelMemberships && kernelMemberships[mk].references > 0
        && r.kernelMemberships == Parted(kernelMemberships, mk)
      requires k in r.kernelMemberships
      ensures var mk := MembershipKeyOf(m[id]);
        var installed' := if MembersOf(m, mk) == {id} then installed - {mk} else installed;
        k in installed' && Counts(r.kernelMemberships[k], MembersOf(m - {id}, k), installed'[k])
    {
      hide CaptureDemultiplexer.Indexes, MembersOf;
      var mk := MembershipKeyOf(m[id]);
      assert CountsOk(m, installed, k);
      ExitLast(id, m, installed);
      MembersExit(m, id, k);
    }
  }

  lemma OtherMember(m: Memberships, id: Id, x: Id)
    requires x in m && id in m && x != id
    ensures MembersOf(m, MembershipKeyOf(m[x])) != {id}
  {
    assert x in MembersOf(m, MembershipKeyOf(m[x]));
  }

  lemma MembersEnter(m: Memberships, id: Id, config: RawConfig, mk: MembershipKey)
    requires id !in m
    ensures |MembersOf(m[id := config], mk)| == |MembersOf(m, mk)| + (if MembershipKeyOf(config) == mk then 1 else 0)
  {
    if MembershipKeyOf(config) == mk {
      assert MembersOf(m[id := config], mk) == MembersOf(m, mk) + {id};
    } else {
      assert MembersOf(m[id := config], mk) == MembersOf(m, mk);
    }
  }

  lemma MembersExit(m: Memberships, id: Id, mk: MembershipKey)
    requires id in m
    ensures |MembersOf(m - {id}, mk)| == |MembersOf(m, mk)| - (if MembershipKeyOf(m[id]) == mk then 1 else 0)
    ensures MembershipKeyOf(m[id]) == mk ==> (MembersOf(m, mk) == {id} <==> |MembersOf(m, mk)| == 1)
  {
    if MembershipKeyOf(m[id]) == mk {
      assert MembersOf(m, mk) == MembersOf(m - {id}, mk) + {id};
      if |MembersOf(m, mk)| == 1 {
        assert MembersOf(m - {id}, mk) == {};
      }
    } else {
      assert MembersOf(m - {id}, mk) == MembersOf(m, mk);
    }
  }

  // The membership count is the sum of the reference counts.

  ghost function Pick(kernel: map<MembershipKey, KernelMembership>): (mk: MembershipKey)
    requires kernel != map[]
    ensures mk in kernel
  {
    assert kernel.Keys != {};
    var mk :| mk in kernel.Keys;
    mk
  }

  ghost function TotalReferences(kernel: map<MembershipKey, KernelMembership>): nat
    decreases |kernel|
  {
    if kernel == map[] then 0
    else
      var mk := Pick(kernel);
      assert kernel.Keys == (kernel - {mk}).Keys + {mk};
      kernel[mk].references + TotalReferences(kernel - {mk})
  }

  lemma WithoutMembers(m: Memberships, mk: MembershipKey, k: MembershipKey)
    requires k != mk
    ensures MembersOf(m - MembersOf(m, mk), k) == MembersOf(m, k)
  {
  }

  lemma WithoutMembersKeys(m: Memberships, mk: MembershipKey)
    ensures |m| == |m - MembersOf(m, mk)| + |MembersOf(m, mk)|
    ensures forall id :: id in m - MembersOf(m, mk) ==> MembershipKeyOf(m[id]) != mk
  {
    var members := MembersOf(m, mk);
    var m' := m - members;
    assert m.Keys == m'.Keys + members && m'.Keys !! members;
  }

  lemma TotalUnfolds(kernel: map<MembershipKey, KernelMembership>)
    ensures kernel == map[] ==> TotalReferences(kernel) == 0
    ensures kernel != map[] ==> var mk := Pick(kernel);
      && TotalReferences(kernel) == kernel[mk].references + TotalReferences(kernel - {mk})
      && |kernel - {mk}| < |kernel|
  {
    if kernel != map[] {
      var mk := Pick(kernel);
      assert kernel.Keys == (kernel - {mk}).Keys + {mk};
    }
  }

  lemma {:induction false} ReferencesSum(kernel: map<MembershipKey, KernelMembership>, m: Memberships)
    requires forall mk :: mk in kernel ==> kernel[mk].references == |MembersOf(m, mk)|
    requires forall id :: id in m ==> MembershipKeyOf(m[id]) in kernel
    ensures TotalReferences(kernel) == |m|
    decreases |kernel|
  {
    hide MembersOf, MembershipKeyOf, TotalReferences;
    TotalUnfolds(kernel);
    if kernel == map[] {
      assert m == map[];
    } else {
      var mk := Pick(kernel);
      var rest, m' := kernel - {mk}, m - MembersOf(m, mk);
      forall k | k in rest ensures rest[k].references == |MembersOf(m', k)| {
        WithoutMembers(m, mk, k);
      }
      WithoutMembersKeys(m, mk);
      ReferencesSum(rest, m');
    }
  }

  /** Each capture's membership count equals the sum of its kernel reference
      counts, and each kernel membership is some member's. */
  lemma MembershipsAreReferences(c: Capture, m: Memberships, installed: map<MembershipKey, RawConfig>)
    requires c.Serves(m, installed)
    ensures c.memberships == TotalReferences(c.kernelMemberships)
    ensures c.memberships == 0 <==> c.kernelMemberships == map[]
  {
    hide CaptureDemultiplexer.Indexes;
    forall mk | mk in c.kernelMemberships
      ensures 0 < c.kernelMemberships[mk].references == |MembersOf(m, mk)| <= |m|
    {
      assert c.CountsOk(m, installed, mk);
      SubsetSize(MembersOf(m, mk), m.Keys);
    }
    ReferencesSum(c.kernelMemberships, m);
    if c.memberships == 0 {
      assert c.kernelMemberships.Keys == {};
    }
  }

  // ---------------------------------------------------------------- selectors

  datatype Resolved = Resolved(key: CaptureKey, references: nat)

  type Selectors = map<Selector, Resolved>

  ghost function WithSelector(subs: Subscriptions, selector: Selector): set<Id> {
    set id | id in subs && SelectorOf(subs[id].config) == selector
  }

  /** The selector cache holds exactly the selectors of stored subscriptions, each
      with their shared capture key and their number. */
  ghost predicate SelectorsOk(selectors: Selectors, subs: Subscriptions) {
    && (forall selector :: selector in selectors <==> WithSelector(subs, selector) != {})
    && (forall selector :: selector in selectors ==> selectors[selector].references == |WithSelector(subs, selector)|)
    && (forall id :: id in subs ==> KeyCached(selectors, subs[id]))
  }

  ghost predicate KeyCached(selectors: Selectors, sub: Subscription) {
    SelectorOf(sub.config) in selectors && selectors[SelectorOf(sub.config)].key == sub.key
  }

  /** The cache answers what the subscriptions say. */
  lemma CacheIsCachedKey(selectors: Selectors, subs: Subscriptions, selector: Selector)
    requires SelectorsOk(selectors, subs)
    ensures CachedKey(subs, selector) == if selector in selectors then Some(selectors[selector].key) else None
  {
    if selector in selectors {
      var id :| id in WithSelector(subs, selector);
      assert id in subs && SelectorOf(subs[id].config) == selector;
    } else {
      assert forall id :: id in subs && SelectorOf(subs[id].config) == selector ==> id in WithSelector(subs, selector);
    }
    assert forall id :: id in subs ==> KeyCached(selectors, subs[id]);
  }

  lemma WithSelectorAdded(subs: Subscriptions, id: Id, sub: Subscription, selector: Selector)
    requires id !in subs
    ensures WithSelector(subs[id := sub], selector)
      == if selector == SelectorOf(sub.config) then WithSelector(subs, selector) + {id}
         else WithSelector(subs, selector)
    ensures id !in WithSelector(subs, selector)
  {
  }

  lemma WithSelectorRemoved(subs: Subscriptions, id: Id, selector: Selector)
    requires id in subs
    ensures WithSelector(subs - {id}, selector)
      == if selector == SelectorOf(subs[id].config) then WithSelector(subs, selector) - {id}
         else WithSelector(subs, selector)
    ensures |WithSelector(subs - {id}, selector)|
      == |WithSelector(subs, selector)| - (if selector == SelectorOf(subs[id].config) then 1 else 0)
  {
    if selector == SelectorOf(subs[id].config) {
      assert WithSelector(subs, selector) == WithSelector(subs - {id}, selector) + {id};
    }
  }

  lemma SelectorAdded(selectors: Selectors, subs: Subscriptions, id: Id, sub: Subscription, selectors': Selectors)
    requires SelectorsOk(selectors, subs) && id !in subs
    requires SelectorOf(sub.config) in selectors ==> selectors[SelectorOf(sub.config)].key == sub.key
    requires selectors' == selectors[SelectorOf(sub.config) := Resolved(sub.key,
      (if SelectorOf(sub.config) in selectors then selectors[SelectorOf(sub.config)].references else 0) + 1)]
    ensures SelectorsOk(selectors', subs[id := sub])
  {
    hide WithSelector;
    var subs' := subs[id := sub];
    forall selector
      ensures selector in selectors' <==> WithSelector(subs', selector) != {}
      ensures selector in selectors' ==> selectors'[selector].references == |WithSelector(subs', selector)|
    {
      WithSelectorAdded(subs, id, sub, selector);
    }
    forall x | x in subs' ensures KeyCached(selectors', subs'[x]) {
      assert x != id ==> KeyCached(selectors, subs[x]);
    }
  }

  lemma InOwnSelector(subs: Subscriptions, id: Id)
    requires id in subs
    ensures id in WithSelector(subs, SelectorOf(subs[id].config))
  {
  }

  lemma SelectorReleased(selectors: Selectors, subs: Subscriptions, id: Id, selectors': Selectors)
    requires SelectorsOk(selectors, subs) && id in subs
    requires KeyCached(selectors, subs[id])
    requires var selector := SelectorOf(subs[id].config); var entry := selectors[selector];
      selectors' == if entry.references == 1 then selectors - {selector}
                    else selectors[selector := Resolved(entry.key, entry.references - 1)]
    ensures SelectorsOk(selectors', subs - {id})
  {
    hide WithSelector;
    var subs', released := subs - {id}, SelectorOf(subs[id].config);
    forall selector
      ensures selector in selectors' <==> WithSelector(subs', selector) != {}
      ensures selector in selectors' ==> selectors'[selector].references == |WithSelector(subs', selector)|
    {
      WithSelectorRemoved(subs, id, selector);
      assert WithSelector(subs', selector) == {} <==> |WithSelector(subs', selector)| == 0;
    }
    forall x | x in subs' ensures KeyCached(selectors', subs'[x]) {
      assert KeyCached(selectors, subs[x]);
      InOwnSelector(subs', x);
    }
  }

  /** Joining or leaving does not touch the cache's subject. */
  lemma SelectorsUnaffected(selectors: Selectors, subs: Subscriptions, id: Id, joined: bool)
    requires SelectorsOk(selectors, subs) && id in subs
    ensures SelectorsOk(selectors, WithJoined(subs, id, joined))
  {
    var subs' := WithJoined(subs, id, joined);
    forall selector ensures WithSelector(subs', selector) == WithSelector(subs, selector) {
    }
    forall x | x in subs' ensures KeyCached(selectors, subs'[x]) {
      assert KeyCached(selectors, subs[x]);
    }
  }

  // ---------------------------------------------------------------- all captures

  type Captures = map<CaptureKey, Capture>

  ghost predicate CapturesOk(captures: Captures, subs: Subscriptions, kernel: Kernel) {
    && captures.Keys == kernel.Keys
    && forall key :: key in captures ==> captures[key].Serves(JoinedOn(subs, key), kernel[key])
  }
}
