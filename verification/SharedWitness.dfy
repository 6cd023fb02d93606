/** A concrete run of the shared capture engine (src/raw/shared.rs) after which one
    of two open captures is never served. */
module SharedWitness {
  import opened Wrappers
  import opened Net
  import opened Config
  import opened IdLists
  import opened SharedSpec
  import SharedKernel
  import opened SharedRuns
  import opened SharedCursor
  import opened SharedRounds
  import opened SharedStarvation

  /** 239.1.1.1 and ff05::1, from any source. */
  const CONFIG4 := RawConfig(V4([239, 1, 1, 1]), Any, None, None)
  const CONFIG6 := RawConfig(V6([255, 5, 0, 0, 0, 0, 0, 0, 0, 0, 0, 0, 0, 0, 0, 1]), Any, None, None)
  const KEY4 := CaptureKey(Ipv4, 1)
  const KEY6 := CaptureKey(Ipv6, 1)

  /** The default limits. */
  const LIMITS := Limits(4096, 1024)

  lemma BothValid()
    ensures IsValid(CONFIG4) && IsValid(CONFIG6)
  {
  }

  /** `count` datagrams that a subscription wants. */
  function Burst(c: RawConfig, count: nat): seq<Event>
    requires IsValid(c)
  {
    seq(count, _ => Got(Sample(c)))
  }

  /** Subscribe to one IPv4 and one IPv6 group on the same interface, join both, and
      let `count` datagrams arrive for each. */
  function Schedule(count: nat): seq<Op>
    requires IsValid(CONFIG4) && IsValid(CONFIG6)
  {
    [AddOp(CONFIG4, Some(1))] + ([AddOp(CONFIG6, Some(1))]
    + ([JoinOp(1, true, true)] + ([JoinOp(2, true, true)]
    + ([Arrive(KEY4, Burst(CONFIG4, count))] + ([Arrive(KEY6, Burst(CONFIG6, count))] + [])))))
  }

  lemma RunOne(s: State, op: Op, ops: seq<Op>)
    ensures Run(s, [op] + ops) == Run(Step(s, op), ops)
  {
    assert ([op] + ops)[0] == op && ([op] + ops)[1..] == ops;
  }

  lemma AddNew(s: State, c: RawConfig, index: U32, s': State)
    requires IsValid(c) && |s.subs| < s.limits.maxSubscriptions && s' == Step(s, AddOp(c, Some(index)))
    requires forall id :: id in s.subs ==> SelectorOf(s.subs[id].config) != SelectorOf(c)
    ensures s' == s.(subs := s.subs[s.nextId := Subscription(c, CaptureKey(c.Family(), index), false)],
                     nextId := s.nextId + 1)
  {
  }

  lemma JoinNew(s: State, id: Id, s': State)
    requires id in s.subs && !s.subs[id].joined && s.subs[id].key !in s.kernel && s' == Step(s, JoinOp(id, true, true))
    ensures s' == s.(subs := s.subs[id := s.subs[id].(joined := true)], order := s.order + [s.subs[id].key],
                     kernel := s'.kernel, wire := s.wire[s.subs[id].key := []])
    ensures s'.kernel.Keys == s.kernel.Keys + {s.subs[id].key}
  {
  }

  /** What the schedule leads to. */
  ghost predicate Reached(s: State, count: nat)
    requires IsValid(CONFIG4) && IsValid(CONFIG6)
  {
    && s.subs == map[1 := Subscription(CONFIG4, KEY4, true), 2 := Subscription(CONFIG6, KEY6, true)]
    && s.nextId == 3 && s.order == [KEY4, KEY6] && s.cursor == 0 && s.pending == []
    && s.wire == map[KEY4 := Burst(CONFIG4, count), KEY6 := Burst(CONFIG6, count)]
  }

  lemma ScheduleReaches(count: nat, s: State)
    requires IsValid(CONFIG4) && IsValid(CONFIG6) && s == Run(Initial(LIMITS), Schedule(count))
    ensures Reached(s, count)
  {
    hide Run, Burst, IsValid;
    var arrivals := [Arrive(KEY4, Burst(CONFIG4, count))] + ([Arrive(KEY6, Burst(CONFIG6, count))] + []);
    var joins := [JoinOp(1, true, true)] + ([JoinOp(2, true, true)] + arrivals);
    var added := AddBoth(Initial(LIMITS), joins);
    var joined := JoinBoth(added, arrivals);
    ArrivalsReach(joined, count, s);
  }

  lemma AddBoth(s: State, rest: seq<Op>) returns (s': State)
    requires IsValid(CONFIG4) && IsValid(CONFIG6) && s == Initial(LIMITS)
    ensures Run(s, [AddOp(CONFIG4, Some(1))] + ([AddOp(CONFIG6, Some(1))] + rest)) == Run(s', rest)
    ensures s' == s.(subs := map[1 := Subscription(CONFIG4, KEY4, false), 2 := Subscription(CONFIG6, KEY6, false)],
                     nextId := 3)
  {
    hide Step, Run, IsValid;
    var a, b := AddOp(CONFIG4, Some(1)), AddOp(CONFIG6, Some(1));
    var s1 := Step(s, a);
    s' := Step(s1, b);
    AddNew(s, CONFIG4, 1, s1);
    AddNew(s1, CONFIG6, 1, s');
    RunOne(s, a, [b] + rest);
    RunOne(s1, b, rest);
    assert s'.subs == map[1 := Subscription(CONFIG4, KEY4, false), 2 := Subscription(CONFIG6, KEY6, false)];
  }

  lemma JoinBoth(s: State, rest: seq<Op>) returns (s': State)
    requires s.subs == map[1 := Subscription(CONFIG4, KEY4, false), 2 := Subscription(CONFIG6, KEY6, false)]
    requires s.order == [] && s.wire == map[] && s.kernel == map[]
    ensures Run(s, [JoinOp(1, true, true)] + ([JoinOp(2, true, true)] + rest)) == Run(s', rest)
    ensures s' == s.(
      subs := map[1 := Subscription(CONFIG4, KEY4, true), 2 := Subscription(CONFIG6, KEY6, true)],
      order := [KEY4, KEY6], kernel := s'.kernel, wire := map[KEY4 := [], KEY6 := []])
  {
    hide Step, Run;
    var a, b := JoinOp(1, true, true), JoinOp(2, true, true);
    var s1 := Step(s, a);
    s' := Step(s1, b);
    JoinNew(s, 1, s1);
    JoinNew(s1, 2, s');
    RunOne(s, a, [b] + rest);
    RunOne(s1, b, rest);
    assert s'.subs == map[1 := Subscription(CONFIG4, KEY4, true), 2 := Subscription(CONFIG6, KEY6, true)];
    assert s'.wire == map[KEY4 := [], KEY6 := []];
  }

  lemma ArrivalsReach(s: State, count: nat, s': State)
    requires IsValid(CONFIG4) && IsValid(CONFIG6) && s.wire == map[KEY4 := [], KEY6 := []]
    requires s' == Run(s,
      [Arrive(KEY4, Burst(CONFIG4, count))] + ([Arrive(KEY6, Burst(CONFIG6, count))] + []))
    ensures s' == s.(wire := map[KEY4 := Burst(CONFIG4, count), KEY6 := Burst(CONFIG6, count)])
  {
    hide Burst, IsValid, Run, Step;
    var first, second := Burst(CONFIG4, count), Burst(CONFIG6, count);
    var s1 := Step(s, Arrive(KEY4, first));
    var s2 := Step(s1, Arrive(KEY6, second));
    ArriveSilent(s, KEY4, first, s1);
    ArriveSilent(s1, KEY6, second, s2);
    RunOne(s, Arrive(KEY4, first), [Arrive(KEY6, second)] + []);
    RunOne(s1, Arrive(KEY6, second), []);
    RunNone(s2);
    BothArrived(s.wire, first, second);
  }

  lemma BothArrived(wire: Sockets, first: seq<Event>, second: seq<Event>)
    requires wire == map[KEY4 := [], KEY6 := []]
    ensures wire[KEY4 := first][KEY6 := second] == map[KEY4 := first, KEY6 := second]
  {
  }

  lemma RunNone(s: State)
    ensures Run(s, []) == s
  {
  }

  lemma ArriveSilent(s: State, key: CaptureKey, events: seq<Event>, s': State)
    requires key in s.wire && s.wire[key] == [] && s' == Step(s, Arrive(key, events))
    ensures s' == s.(wire := s.wire[key := events])
  {
    assert [] + events == events;
  }

  lemma ReachedReady(s: State, count: nat)
    requires IsValid(CONFIG4) && IsValid(CONFIG6) && Reached(s, count)
    ensures Ready(s, count) && GenuineSockets(s.wire)
  {
    hide IsValid, Sample, Scan, Wanted;
    SampleIsGenuine(CONFIG4);
    SampleIsGenuine(CONFIG6);
    assert 1 in JoinedOn(s.subs, KEY4) && 2 in JoinedOn(s.subs, KEY6);
    MemberWants(s, KEY4, 1, Sample(CONFIG4));
    MemberWants(s, KEY6, 2, Sample(CONFIG6));
    assert ReadyAt(s, KEY4, count) && ReadyAt(s, KEY6, count);
    forall key, i | key in s.wire && 0 <= i < |s.wire[key]| ensures GenuineEvent(key.family, s.wire[key][i]) {
    }
  }

  /** The documented round-robin order (docs/raw-packets.md) fails in a reachable
      state: with one IPv4 and one IPv6 capture open and any number of datagrams
      arrived for each, no batch of any size and no receive ever returns an IPv6 one
      while the IPv4 ones last. */
  lemma TwoCapturesStarve(count: nat) returns (ops: seq<Op>, s: State)
    ensures s == Run(Initial(LIMITS), ops) && GenuineSockets(s.wire)
    ensures s.order == [KEY4, KEY6] && Ready(s, count)
    ensures !ServedWithin(s, count, KEY6)
    ensures forall max, calls: nat :: calls * max <= count ==> !BatchServedWithin(s, max, calls, KEY6)
  {
    hide Run, ServedWithin, BatchServedWithin, Ready, GenuineSockets, IsValid, SharedKernel.KernelExact;
    BothValid();
    ops := Schedule(count);
    s := Run(Initial(LIMITS), ops);
    ScheduleReaches(count, s);
    ReachedReady(s, count);
    ReachableInv(LIMITS, ops);
    assert AtRest(s);
    RestIsIdle(s, s.wire);
    EvenStarves(s, count);
    assert KeyAhead(s, 1) == KEY6;
    forall max, calls: nat | calls * max <= count ensures !BatchServedWithin(s, max, calls, KEY6) {
      LessReady(s, count, calls * max);
      EvenStarvesBatches(s, max, calls);
    }
  }
}
