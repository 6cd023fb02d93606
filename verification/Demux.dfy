/** The `(group, source)` index of one shared capture (src/raw/shared.rs). The
    index structures are owned values nested in hash maps, so each update
    produces the value that replaces the old one. */
module Demux {
  import opened Wrappers
  import opened Net
  import opened Config
  import opened IpParsing
  import opened IdLists

  /** One matching id inline, or several. */
  datatype MatchingIds = One(id: Id) | Many(ids: seq<Id>) {

    function AsSlice(): seq<Id> {
      match this
      case One(id) => [id]
      case Many(ids) => ids
    }

    static method FromSortedSlices(first: seq<Id>, second: seq<Id>) returns (r: Option<MatchingIds>)
      ensures r.None? <==> first == [] && second == []
      ensures r.Some? ==> r.value.AsSlice() == Merged(first, second)
    {
      var total := |first| + |second|;
      if total == 0 {
        return None;
      } else if total == 1 {
        return Some(One(if first != [] then first[0] else second[0]));
      } else {
        var ids := MergeIds(first, second);
        return Some(Many(ids));
      }
    }

    /** remove_existing: only reached when at least two ids match. */
    method RemoveExisting(index: nat) returns (r: MatchingIds)
      requires index < |AsSlice()| && |AsSlice()| >= 2
      ensures r.AsSlice() == AsSlice()[..index] + AsSlice()[index + 1..]
    {
      var rest := ids[..index] + ids[index + 1..];
      r := if |rest| == 1 then One(rest[0]) else Many(rest);
    }
  }

  datatype GroupDemultiplexer = GroupDemultiplexer(anySource: seq<Id>, sources: map<IpAddr, seq<Id>>) {

    /** The ids bound to one source, or to any source. */
    function Ids(source: Option<IpAddr>): seq<Id> {
      match source
      case None => anySource
      case Some(s) => if s in sources then sources[s] else []
    }

    predicate Lists(source: Option<IpAddr>, id: Id) {
      id in Ids(source)
    }

    predicate Valid() {
      && Ascending(anySource)
      && forall s :: s in sources ==> Ascending(sources[s]) && sources[s] != []
    }

    predicate IsEmpty() {
      anySource == [] && sources == map[]
    }

    method Insert(id: Id, source: Option<IpAddr>) returns (r: GroupDemultiplexer)
      requires Valid()
      ensures r.Valid() && !r.IsEmpty()
      ensures forall s, x :: r.Lists(s, x) <==> Lists(s, x) || (x == id && source == s)
    {
      var ids := InsertId(Ids(source), id);
      match source {
        case Some(s) =>
          r := this.(sources := sources[s := ids]);
        case None =>
          r := this.(anySource := ids);
      }
      assert r.Ids(source) == ids && id in ids;
      assert forall s :: s != source ==> r.Ids(s) == Ids(s);
    }

    method Remove(id: Id, source: Option<IpAddr>) returns (r: GroupDemultiplexer)
      requires Valid()
      ensures r.Valid()
      ensures forall s, x :: r.Lists(s, x) <==> Lists(s, x) && !(x == id && source == s)
    {
      r := this;
      match source {
        case Some(s) =>
          if s in sources {
            var ids := RemoveId(sources[s], id);
            if ids == [] {
              r := this.(sources := sources - {s});
              assert forall x :: Lists(source, x) && x != id ==> x in ids;
            } else {
              r := this.(sources := sources[s := ids]);
            }
          }
        case None =>
          var ids := RemoveId(anySource, id);
          r := this.(anySource := ids);
      }
      assert forall s :: s != source ==> r.Ids(s) == Ids(s);
    }

    method Matches(source: IpAddr) returns (r: Option<MatchingIds>)
      requires Valid()
      ensures r.None? ==> forall x :: !Lists(None, x) && !Lists(Some(source), x)
      ensures r.Some? ==> r.value.AsSlice() != [] && Ascending(r.value.AsSlice())
      ensures r.Some? ==> forall x :: x in r.value.AsSlice() <==> Lists(None, x) || Lists(Some(source), x)
    {
      MergedIsUnion(anySource, Ids(Some(source)));
      r := MatchingIds.FromSortedSlices(anySource, Ids(Some(source)));
    }
  }

  const EMPTY_GROUP := GroupDemultiplexer([], map[])

  /** The joined subscriptions an index stands for. */
  type Memberships = map<Id, RawConfig>

  /** The userspace predicate on a captured datagram's addresses. */
  predicate Wants(c: RawConfig, group: IpAddr, source: IpAddr) {
    PacketMatchesConfig(ParsedIp(source, group, 0, 0), c)
  }

  datatype CaptureDemultiplexer = CaptureDemultiplexer(groups: map<IpAddr, GroupDemultiplexer>) {

    function Group(group: IpAddr): GroupDemultiplexer {
      if group in groups then groups[group] else EMPTY_GROUP
    }

    predicate Valid() {
      forall g :: g in groups ==> groups[g].Valid() && !groups[g].IsEmpty()
    }

    /** The index lists exactly the memberships `m`: under each group the
        any-source ids, and per source the ids bound to that source. */
    ghost predicate Indexes(m: Memberships) {
      && Valid()
      && forall g, s, x :: Group(g).Lists(s, x) <==> x in m && m[x].group == g && m[x].SourceAddr() == s
    }

    method Insert(id: Id, config: RawConfig, ghost m: Memberships) returns (r: CaptureDemultiplexer)
      requires Indexes(m) && id !in m
      ensures r.Indexes(m[id := config])
    {
      var group := Group(config.group).Insert(id, config.SourceAddr());
      r := CaptureDemultiplexer(groups[config.group := group]);
      assert r.Group(config.group) == group;
      assert forall g :: g != config.group ==> r.Group(g) == Group(g);
    }

    method Remove(id: Id, config: RawConfig, ghost m: Memberships) returns (r: CaptureDemultiplexer)
      requires Indexes(m) && id in m && m[id] == config
      ensures r.Indexes(m - {id})
    {
      assert Group(config.group).Lists(config.SourceAddr(), id);
      var group := groups[config.group].Remove(id, config.SourceAddr());
      if group.IsEmpty() {
        r := CaptureDemultiplexer(groups - {config.group});
        assert forall s, x :: !group.Lists(s, x) && !EMPTY_GROUP.Lists(s, x);
      } else {
        r := CaptureDemultiplexer(groups[config.group := group]);
        assert r.Group(config.group) == group;
      }
      assert forall g :: g != config.group ==> r.Group(g) == Group(g);
    }

    /** The lookup answers the linear scan: the ascending ids of exactly the
        memberships whose config wants the datagram, or nothing. */
    method Matches(group: IpAddr, source: IpAddr, ghost m: Memberships) returns (r: Option<MatchingIds>)
      requires Indexes(m)
      ensures r.None? ==> forall x :: x in m ==> !Wants(m[x], group, source)
      ensures r.Some? ==> r.value.AsSlice() != [] && Ascending(r.value.AsSlice())
      ensures r.Some? ==> forall x :: x in r.value.AsSlice() <==> x in m && Wants(m[x], group, source)
    {
      assert forall x :: x in m ==>
        (Wants(m[x], group, source) <==> Group(group).Lists(None, x) || Group(group).Lists(Some(source), x));
      if group in groups {
        r := groups[group].Matches(source);
      } else {
        assert Group(group) == EMPTY_GROUP;
        assert forall x :: !EMPTY_GROUP.Lists(None, x) && !EMPTY_GROUP.Lists(Some(source), x);
        r := None;
      }
      if r.Some? {
        forall x ensures x in r.value.AsSlice() <==> x in m && Wants(m[x], group, source) {
          assert Group(group).Lists(None, x) <==> x in m && m[x].group == group && m[x].SourceAddr() == None;
          assert Group(group).Lists(Some(source), x) <==>
            x in m && m[x].group == group && m[x].SourceAddr() == Some(source);
        }
      }
    }
  }

  /** Validation ties a source to source-specific groups and forbids it
      elsewhere, so no group's index ever holds both any-source and per-source
      ids, and a merge never meets one id twice. */
  lemma NoMixedGroups(d: CaptureDemultiplexer, m: Memberships, group: IpAddr, source: IpAddr, a: Id, b: Id)
    requires d.Indexes(m)
    requires forall x :: x in m ==> IsValid(m[x])
    ensures !(d.Group(group).Lists(None, a) && d.Group(group).Lists(Some(source), b))
  {
    if d.Group(group).Lists(None, a) && d.Group(group).Lists(Some(source), b) {
      ValidationExactly(m[a]);
      ValidationExactly(m[b]);
    }
  }
}
