/** The per-subscription contexts (src/context.rs, src/raw/context.rs): a vector of
    subscriptions, an id counter and a round-robin cursor. `Context` and
    `RawContext` differ only in their config type, here a parameter. */
module RoundRobin {
  import opened Wrappers
  import opened Config
  import opened Packets
  import opened Batches

  datatype Subscription<C> = Subscription(id: SubscriptionId, config: C, joined: bool)

  /** What polling one socket reports. */
  datatype Outcome = Packet(payload: nat) | Empty | Fault

  /** What every socket would report during one call; silent ones are empty. */
  type Polls = map<SubscriptionId, Outcome>

  function Poll(polls: Polls, id: SubscriptionId): Outcome {
    if id in polls then polls[id] else Empty
  }

  datatype Received = Received(id: SubscriptionId, payload: nat)

  datatype State<C> = State(subs: seq<Subscription<C>>, nextId: SubscriptionId, cursor: nat) {

    ghost predicate IdsUnique() {
      forall i, j :: 0 <= i < j < |subs| ==> subs[i].id != subs[j].id
    }

    ghost predicate ConfigsUnique() {
      forall i, j :: 0 <= i < j < |subs| ==> subs[i].config != subs[j].config
    }

    /** Ids are unique and below the counter, configs are unique, and the cursor is
        in range. */
    ghost predicate Valid() {
      && IdsUnique() && ConfigsUnique()
      && (forall i :: 0 <= i < |subs| ==> subs[i].id < nextId)
      && (if subs == [] then cursor == 0 else cursor < |subs|)
    }
  }

  function Next(index: nat, n: nat): nat {
    if index + 1 == n then 0 else index + 1
  }

  predicate Answers<C>(sub: Subscription<C>, polls: Polls) {
    sub.joined && !Poll(polls, sub.id).Empty?
  }

  /** The first position, of `left` going round from `index`, whose subscription is
      joined and not empty. */
  function Answering<C>(subs: seq<Subscription<C>>, polls: Polls, index: nat, left: nat): (r: Option<nat>)
    requires index < |subs|
    ensures r.Some? ==> r.value < |subs| && Answers(subs[r.value], polls)
    decreases left
  {
    if left == 0 then None
    else if Answers(subs[index], polls) then Some(index)
    else Answering(subs, polls, Next(index, |subs|), left - 1)
  }

  /** try_recv_any. */
  function Recv<C>(s: State<C>, polls: Polls): (State<C>, Result<Option<Received>, McrxError>) {
    if s.cursor >= |s.subs| then (s, Ok(None))
    else
      match Answering(s.subs, polls, s.cursor, |s.subs|)
      case None => (s, Ok(None))
      case Some(at) =>
        var id := s.subs[at].id;
        match Poll(polls, id)
        case Packet(payload) => (s.(cursor := Next(at, |s.subs|)), Ok(Some(Received(id, payload))))
        case _ => (s, Err(ReceiveFailed))
  }

  function Add<C(==)>(s: State<C>, config: C, valid: Result<(), McrxError>, openOk: bool)
    : (State<C>, Result<SubscriptionId, McrxError>)
  {
    if valid.Err? then (s, Err(valid.error))
    else if exists i :: 0 <= i < |s.subs| && s.subs[i].config == config then (s, Err(DuplicateSubscription))
    else if !openOk then (s, Err(SocketOpenFailed))
    else (s.(subs := s.subs + [Subscription(s.nextId, config, false)], nextId := s.nextId + 1), Ok(s.nextId))
  }

  /** Vec::swap_remove: the last element takes the place of the removed one. */
  function SwapRemove<T>(xs: seq<T>, index: nat): seq<T>
    requires index < |xs|
  {
    var last := |xs| - 1;
    if index == last then xs[..last] else xs[..last][index := xs[last]]
  }

  function PositionOf<C>(subs: seq<Subscription<C>>, id: SubscriptionId): (r: Option<nat>)
    ensures r.Some? ==> r.value < |subs| && subs[r.value].id == id
    ensures r.None? ==> forall i :: 0 <= i < |subs| ==> subs[i].id != id
  {
    if subs == [] then None
    else if subs[0].id == id then Some(0)
    else
      match PositionOf(subs[1..], id)
      case None => None
      case Some(i) => Some(i + 1)
  }

  function Take<C>(s: State<C>, id: SubscriptionId): (State<C>, Option<Subscription<C>>) {
    match PositionOf(s.subs, id)
    case None => (s, None)
    case Some(at) =>
      var subs := SwapRemove(s.subs, at);
      (s.(subs := subs, cursor := if subs == [] then 0 else s.cursor % |subs|), Some(s.subs[at]))
  }

  /** join_subscription when `join`, else leave_subscription. */
  function SetJoined<C>(s: State<C>, id: SubscriptionId, join: bool, ok: bool): (State<C>, Result<(), McrxError>) {
    match PositionOf(s.subs, id)
    case None => (s, Err(SubscriptionNotFound))
    case Some(at) =>
      if s.subs[at].joined == join then
        (s, Err(if join then SubscriptionAlreadyJoined else SubscriptionNotJoined))
      else if !ok then (s, Err(SocketOptionFailed))
      else (s.(subs := s.subs[at := s.subs[at].(joined := join)]), Ok(()))
  }

  // ---------------------------------------------------------------- runs

  datatype Op<C> =
    | AddOp(config: C, valid: Result<(), McrxError>, openOk: bool)
    | TakeOp(id: SubscriptionId)
    | JoinOp(id: SubscriptionId, join: bool, ok: bool)
    | RecvOp(polls: Polls)

  function Step<C(==)>(s: State<C>, op: Op<C>): State<C> {
    match op
    case AddOp(config, valid, openOk) => Add(s, config, valid, openOk).0
    case TakeOp(id) => Take(s, id).0
    case JoinOp(id, join, ok) => SetJoined(s, id, join, ok).0
    case RecvOp(polls) => Recv(s, polls).0
  }

  function Run<C(==)>(s: State<C>, ops: seq<Op<C>>): State<C>
    decreases ops
  {
    if ops == [] then s else Run(Step(s, ops[0]), ops[1..])
  }

  /** What swap_remove keeps: every other element, at its own place or, for the
      last, at the freed one. */
  lemma SwapRemoveElements<T>(xs: seq<T>, index: nat, ys: seq<T>)
    requires index < |xs| && ys == SwapRemove(xs, index)
    ensures |ys| == |xs| - 1
    ensures forall i :: 0 <= i < |ys| ==> ys[i] == xs[if i == index then |xs| - 1 else i]
    ensures multiset(xs) == multiset(ys) + multiset{xs[index]}
  {
    var last := |xs| - 1;
    assert xs == xs[..last] + [xs[last]];
  }

  lemma TakeKeepsValid<C>(s: State<C>, id: SubscriptionId, s': State<C>, r: Option<Subscription<C>>)
    requires s.Valid() && (s', r) == Take(s, id)
    ensures s'.Valid()
    ensures r.Some? <==> exists i :: 0 <= i < |s.subs| && s.subs[i].id == id
    ensures r.Some? ==> r.value.id == id && multiset(s.subs) == multiset(s'.subs) + multiset{r.value}
    ensures r.Some? ==> |s'.subs| == |s.subs| - 1 && forall i :: 0 <= i < |s'.subs| ==>
      s'.subs[i] == if s.subs[i].id == id then s.subs[|s.subs| - 1] else s.subs[i]
    ensures r.Some? ==> s'.cursor == if s'.subs == [] then 0 else s.cursor % |s'.subs|
    ensures r.None? ==> s' == s
    ensures s'.nextId == s.nextId
  {
    if r.Some? {
      SwapRemoveElements(s.subs, PositionOf(s.subs, id).value, s'.subs);
    }
  }

  /** Ids and configs stay unique and the cursor in range under any run of adds,
      removals, joins, leaves and receives. */
  lemma {:induction false} RunKeepsValid<C>(s: State<C>, ops: seq<Op<C>>)
    requires s.Valid()
    ensures Run(s, ops).Valid()
    decreases ops
  {
    if ops != [] {
      var s' := Step(s, ops[0]);
      StepKeepsValid(s, ops[0], s');
      RunKeepsValid(s', ops[1..]);
    }
  }

  lemma StepKeepsValid<C>(s: State<C>, op: Op<C>, s': State<C>)
    requires s.Valid() && s' == Step(s, op)
    ensures s'.Valid()
  {
    match op {
      case AddOp(config, valid, openOk) =>
      case TakeOp(id) =>
        TakeKeepsValid(s, id, s', Take(s, id).1);
      case JoinOp(id, join, ok) =>
      case RecvOp(polls) =>
        RecvKeepsValid(s, polls, s');
    }
  }

  lemma RecvKeepsValid<C>(s: State<C>, polls: Polls, s': State<C>)
    requires s.Valid() && s' == Recv(s, polls).0
    ensures s'.Valid() && s'.subs == s.subs
  {
  }

  // ---------------------------------------------------------------- one call

  /** An add stores the config last, not joined, under a fresh id, and fails exactly on an
      invalid config, a duplicate or a socket that does not open. */
  lemma AddExactly<C>(
    s: State<C>, config: C, valid: Result<(), McrxError>, openOk: bool,
    s': State<C>, r: Result<SubscriptionId, McrxError>)
    requires s.Valid() && (s', r) == Add(s, config, valid, openOk)
    ensures r.Ok? <==> valid.Ok? && openOk && forall sub :: sub in s.subs ==> sub.config != config
    ensures r.Err? ==> s' == s
    ensures valid.Ok? && r.Err? ==>
      r.error == if exists sub :: sub in s.subs && sub.config == config then DuplicateSubscription else SocketOpenFailed
    ensures r.Ok? ==>
      && |s'.subs| == |s.subs| + 1 && s'.subs[..|s.subs|] == s.subs
      && s'.subs[|s.subs|].id == r.value && s'.subs[|s.subs|].config == config && !s'.subs[|s.subs|].joined
      && (forall sub :: sub in s.subs ==> sub.id < r.value < s'.nextId)
      && s'.cursor == s.cursor
  {
    if r.Err? && valid.Ok? && openOk {
      var i :| 0 <= i < |s.subs| && s.subs[i].config == config;
      assert s.subs[i] in s.subs;
    }
  }

  /** Joining and leaving switch that one flag, exactly when it stood the other way and
      the socket option took. */
  lemma SetJoinedExactly<C>(
    s: State<C>, id: SubscriptionId, join: bool, ok: bool, s': State<C>, r: Result<(), McrxError>, i: nat)
    requires s.Valid() && (s', r) == SetJoined(s, id, join, ok) && i < |s.subs|
    ensures |s'.subs| == |s.subs| && s'.nextId == s.nextId && s'.cursor == s.cursor
    ensures s'.subs[i].id == s.subs[i].id && s'.subs[i].config == s.subs[i].config
    ensures s.subs[i].id != id ==> s'.subs[i] == s.subs[i]
    ensures s.subs[i].id == id ==>
      && (r.Ok? <==> ok && s.subs[i].joined != join)
      && (r.Ok? ==> s'.subs[i].joined == join)
      && (r.Err? ==> s' == s)
      && (r.Err? && s.subs[i].joined != join ==> r.error == SocketOptionFailed)
      && (s.subs[i].joined == join ==>
            r == Err(if join then SubscriptionAlreadyJoined else SubscriptionNotJoined))
    ensures r == Err(SubscriptionNotFound) <==> forall sub :: sub in s.subs ==> sub.id != id
  {
    var at := PositionOf(s.subs, id);
    if at.Some? {
      assert s.subs[at.value] in s.subs;
    }
  }

  /** What a receive hands over is what a joined subscription's socket reported, the first
      to report anything going round from the cursor; the cursor then stands one past it.
      Anything else leaves the cursor where it was. */
  lemma RecvExactly<C>(s: State<C>, polls: Polls, s': State<C>, r: Result<Option<Received>, McrxError>)
    returns (at: nat)
    requires s.Valid() && (s', r) == Recv(s, polls)
    ensures r == Ok(None) || r.Err? ==> s' == s
    ensures r != Ok(None) ==>
      && at < |s.subs| && Answers(s.subs[at], polls)
      && (forall i :: 0 <= i < |s.subs| && Answers(s.subs[i], polls) ==>
            Distance(s.cursor, at, |s.subs|) <= Distance(s.cursor, i, |s.subs|))
      && (if Poll(polls, s.subs[at].id).Fault? then r == Err(ReceiveFailed)
          else
            && r == Ok(Some(Received(s.subs[at].id, Poll(polls, s.subs[at].id).payload)))
            && s' == s.(cursor := (at + 1) % |s.subs|))
  {
    at := 0;
    if r != Ok(None) {
      at := Answering(s.subs, polls, s.cursor, |s.subs|).value;
      NextIsModulo(at, |s.subs|);
      forall i | 0 <= i < |s.subs| && Answers(s.subs[i], polls)
        ensures Distance(s.cursor, at, |s.subs|) <= Distance(s.cursor, i, |s.subs|)
      {
        AnsweringIsNearest(s.subs, polls, s.cursor, |s.subs|, i);
      }
    }
  }

  // ---------------------------------------------------------------- fairness

  /** How many places after `from` the position `to` comes. */
  function Distance(from: nat, to: nat, n: nat): (r: nat)
    requires from < n && to < n
    ensures r < n
  {
    if from <= to then to - from else to + n - from
  }

  /** Whoever answers first comes no later than anyone else who answers. */
  lemma {:induction false} AnsweringIsNearest<C>(
    subs: seq<Subscription<C>>, polls: Polls, index: nat, left: nat, to: nat)
    requires index < |subs| && to < |subs| && Answers(subs[to], polls)
    requires Distance(index, to, |subs|) < left
    ensures var r := Answering(subs, polls, index, left);
      r.Some? && r.value < |subs| && Distance(index, r.value, |subs|) <= Distance(index, to, |subs|)
    decreases left
  {
    if !Answers(subs[index], polls) {
      AnsweringIsNearest(subs, polls, Next(index, |subs|), left - 1, to);
    }
  }

  /** Nothing is returned exactly when every joined subscription is empty. */
  lemma NothingIffAllEmpty<C>(s: State<C>, polls: Polls)
    requires s.Valid()
    ensures Recv(s, polls).1 == Ok(None) <==> forall i :: 0 <= i < |s.subs| ==> !Answers(s.subs[i], polls)
  {
    if s.subs != [] {
      forall i | 0 <= i < |s.subs| && Answers(s.subs[i], polls)
        ensures Answering(s.subs, polls, s.cursor, |s.subs|).Some?
      {
        AnsweringIsNearest(s.subs, polls, s.cursor, |s.subs|, i);
      }
    }
  }

  function RecvTimes<C>(s: State<C>, calls: seq<Polls>): seq<Result<Option<Received>, McrxError>>
    decreases calls
  {
    if calls == [] then []
    else
      var (s', r) := Recv(s, calls[0]);
      [r] + RecvTimes(s', calls[1..])
  }

  predicate ServedAt(results: seq<Result<Option<Received>, McrxError>>, k: nat, id: SubscriptionId) {
    k < |results| && Serves(results[k], id)
  }

  predicate Serves(r: Result<Option<Received>, McrxError>, id: SubscriptionId) {
    r.Ok? && r.value.Some? && r.value.value.id == id
  }

  /** Nobody joined between the cursor and `to` reports an error. */
  predicate ClearTo<C>(s: State<C>, polls: Polls, to: nat)
    requires s.cursor < |s.subs| && to < |s.subs|
  {
    forall i :: 0 <= i < |s.subs| ==> !Obstructs(s, polls, i, to)
  }

  predicate Obstructs<C>(s: State<C>, polls: Polls, i: nat, to: nat)
    requires s.cursor < |s.subs| && to < |s.subs| && i < |s.subs|
  {
    && Distance(s.cursor, i, |s.subs|) < Distance(s.cursor, to, |s.subs|)
    && s.subs[i].joined && Poll(polls, s.subs[i].id).Fault?
  }

  /** No call, until one serves `to`, meets such an error. */
  ghost predicate StaysClear<C>(s: State<C>, calls: seq<Polls>, to: nat)
    decreases calls
  {
    calls == [] ||
    (&& s.cursor < |s.subs| && to < |s.subs| && ClearTo(s, calls[0], to)
     && var (s', r) := Recv(s, calls[0]);
        Serves(r, s.subs[to].id) || StaysClear(s', calls[1..], to))
  }

  /** A call without an error between the cursor and a ready subscription serves that
      subscription, or a nearer one, moving the cursor closer without passing it. */
  lemma OneCall<C>(s: State<C>, polls: Polls, to: nat, s': State<C>, r: Result<Option<Received>, McrxError>)
    requires s.Valid() && to < |s.subs| && s.subs[to].joined && Poll(polls, s.subs[to].id).Packet?
    requires ClearTo(s, polls, to) && (s', r) == Recv(s, polls)
    ensures s'.Valid() && s'.subs == s.subs && r.Ok? && r.value.Some?
    ensures Serves(r, s.subs[to].id) || Distance(s'.cursor, to, |s.subs|) < Distance(s.cursor, to, |s.subs|)
  {
    var n := |s.subs|;
    RecvKeepsValid(s, polls, s');
    AnsweringIsNearest(s.subs, polls, s.cursor, n, to);
    var at := Answering(s.subs, polls, s.cursor, n).value;
    assert !Obstructs(s, polls, at, to);
  }

  /** Round-robin fairness: a joined subscription that stays ready through n calls on
      n subscriptions is served by one of them, however the others behave, provided
      that until then no joined one between the cursor and it reports an error. */
  lemma Fairness<C>(s: State<C>, calls: seq<Polls>, to: nat)
    requires s.Valid() && to < |s.subs| && s.subs[to].joined && |calls| >= |s.subs|
    requires forall i :: 0 <= i < |calls| ==> Poll(calls[i], s.subs[to].id).Packet?
    requires StaysClear(s, calls, to)
    ensures exists k: nat :: k < |s.subs| && ServedAt(RecvTimes(s, calls), k, s.subs[to].id)
  {
    var k := ServedBySteps(s, calls, to);
  }

  lemma {:induction false} ServedBySteps<C>(s: State<C>, calls: seq<Polls>, to: nat) returns (k: nat)
    requires s.Valid() && to < |s.subs| && s.subs[to].joined && |calls| > Distance(s.cursor, to, |s.subs|)
    requires forall i :: 0 <= i < |calls| ==> Poll(calls[i], s.subs[to].id).Packet?
    requires StaysClear(s, calls, to)
    ensures k <= Distance(s.cursor, to, |s.subs|) && ServedAt(RecvTimes(s, calls), k, s.subs[to].id)
    decreases calls
  {
    hide Recv, ClearTo;
    var (s', r) := Recv(s, calls[0]);
    OneCall(s, calls[0], to, s', r);
    if Serves(r, s.subs[to].id) {
      k := 0;
    } else {
      k := ServedBySteps(s', calls[1..], to);
      k := k + 1;
    }
  }

  /** In particular when no joined subscription ever reports an error. */
  lemma {:induction false} ErrorFreeStaysClear<C>(s: State<C>, calls: seq<Polls>, to: nat)
    requires s.Valid() && to < |s.subs|
    requires forall k, i :: 0 <= k < |calls| && 0 <= i < |s.subs| && s.subs[i].joined ==>
      !Poll(calls[k], s.subs[i].id).Fault?
    ensures StaysClear(s, calls, to)
    decreases calls
  {
    if calls != [] {
      var s' := Recv(s, calls[0]).0;
      RecvKeepsValid(s, calls[0], s');
      ErrorFreeStaysClear(s', calls[1..], to);
    }
  }

  // The exact condition, when the sockets keep reporting the same.

  /** Moving the cursor past a subscription nearer than `i` and `to` keeps their order. */
  lemma OrderKept(c: nat, at: nat, i: nat, to: nat, n: nat)
    requires c < n && at < n && i < n && to < n
    requires Distance(c, at, n) < Distance(c, i, n) && Distance(c, at, n) < Distance(c, to, n)
    ensures Distance(Next(at, n), i, n) < Distance(Next(at, n), to, n) <==> Distance(c, i, n) < Distance(c, to, n)
  {
  }

  /** A call that does not serve the ready `to` leaves a clear way clear, as seen from
      the new cursor. */
  lemma ClearAfter<C>(s: State<C>, polls: Polls, to: nat, s': State<C>, r: Result<Option<Received>, McrxError>)
    requires s.Valid() && to < |s.subs| && s.subs[to].joined && Poll(polls, s.subs[to].id).Packet?
    requires ClearTo(s, polls, to) && (s', r) == Recv(s, polls) && !Serves(r, s.subs[to].id)
    ensures s'.Valid() && s'.subs == s.subs && ClearTo(s', polls, to)
  {
    var n := |s.subs|;
    OneCall(s, polls, to, s', r);
    AnsweringIsNearest(s.subs, polls, s.cursor, n, to);
    var at := Answering(s.subs, polls, s.cursor, n).value;
    assert !Obstructs(s, polls, at, to);
    forall i | 0 <= i < n ensures !Obstructs(s', polls, i, to) {
      assert !Obstructs(s, polls, i, to);
      if Distance(s.cursor, at, n) < Distance(s.cursor, i, n) {
        OrderKept(s.cursor, at, i, to, n);
      }
    }
  }

  lemma {:induction false} ConstantStaysClear<C>(s: State<C>, polls: Polls, calls: seq<Polls>, to: nat)
    requires s.Valid() && to < |s.subs| && s.subs[to].joined && Poll(polls, s.subs[to].id).Packet?
    requires ClearTo(s, polls, to) && forall i :: 0 <= i < |calls| ==> calls[i] == polls
    ensures StaysClear(s, calls, to)
    decreases calls
  {
    hide Recv, ClearTo;
    if calls != [] {
      assert calls[0] == polls;
      var (s', r) := Recv(s, polls);
      if !Serves(r, s.subs[to].id) {
        ClearAfter(s, polls, to, s', r);
        ConstantStaysClear(s', polls, calls[1..], to);
      }
    }
  }

  /** A subscription that keeps failing, between the cursor and `to`, starves `to`: a
      call ending in an error changes nothing, and no other call passes the failing
      one. */
  lemma {:induction false} FaultStarves<C>(s: State<C>, polls: Polls, calls: seq<Polls>, i: nat, to: nat, k: nat)
    requires s.Valid() && i < |s.subs| && to < |s.subs| && Obstructs(s, polls, i, to)
    requires forall c :: 0 <= c < |calls| ==> calls[c] == polls
    ensures !ServedAt(RecvTimes(s, calls), k, s.subs[to].id)
    decreases calls
  {
    if calls != [] {
      assert calls[0] == polls;
      var (s', r) := Recv(s, polls);
      ObstructedCall(s, polls, i, to, s', r);
      FaultStarves(s', polls, calls[1..], i, to, if k > 0 then k - 1 else 0);
    }
  }

  lemma ObstructedCall<C>(
    s: State<C>, polls: Polls, i: nat, to: nat, s': State<C>, r: Result<Option<Received>, McrxError>)
    requires s.Valid() && i < |s.subs| && to < |s.subs| && Obstructs(s, polls, i, to)
    requires (s', r) == Recv(s, polls)
    ensures !Serves(r, s.subs[to].id) && s'.Valid() && s'.subs == s.subs && Obstructs(s', polls, i, to)
  {
    var n := |s.subs|;
    RecvKeepsValid(s, polls, s');
    AnsweringIsNearest(s.subs, polls, s.cursor, n, i);
    var at := Answering(s.subs, polls, s.cursor, n).value;
    assert at != to;
    if r.Ok? {
      assert at != i;
      OrderKept(s.cursor, at, i, to, n);
    }
  }

  /** When the sockets keep reporting the same, a joined ready subscription is served
      within n calls exactly when no joined one nearer to the cursor keeps failing;
      otherwise it is never served. */
  lemma ServedIffClear<C>(s: State<C>, polls: Polls, calls: seq<Polls>, to: nat)
    requires s.Valid() && to < |s.subs| && s.subs[to].joined && Poll(polls, s.subs[to].id).Packet?
    requires |calls| >= |s.subs| && forall c :: 0 <= c < |calls| ==> calls[c] == polls
    ensures (exists k: nat :: k < |s.subs| && ServedAt(RecvTimes(s, calls), k, s.subs[to].id))
      <==> ClearTo(s, polls, to)
    ensures !ClearTo(s, polls, to) ==> forall k: nat :: !ServedAt(RecvTimes(s, calls), k, s.subs[to].id)
  {
    if ClearTo(s, polls, to) {
      ConstantStaysClear(s, polls, calls, to);
      Fairness(s, calls, to);
    } else {
      var i: nat :| i < |s.subs| && Obstructs(s, polls, i, to);
      forall k: nat ensures !ServedAt(RecvTimes(s, calls), k, s.subs[to].id) {
        FaultStarves(s, polls, calls, i, to, k);
      }
    }
  }

  /** The smallest instance: of two joined subscriptions the first keeps failing and
      the second always has a packet, which no call ever returns; started at the
      second, the first call returns it. */
  lemma TwoSubscriptions<C>(a: C, b: C, calls: seq<Polls>, k: nat)
    requires a != b && |calls| > 0 && forall c :: 0 <= c < |calls| ==> calls[c] == map[1 := Fault, 2 := Packet(0)]
    ensures var subs := [Subscription(1, a, true), Subscription(2, b, true)];
      && !ServedAt(RecvTimes(State(subs, 3, 0), calls), k, 2)
      && ServedAt(RecvTimes(State(subs, 3, 1), calls), 0, 2)
  {
    var polls: Polls := map[1 := Fault, 2 := Packet(0)];
    var s := State([Subscription(1, a, true), Subscription(2, b, true)], 3, 0);
    assert Obstructs(s, polls, 0, 1);
    FaultStarves(s, polls, calls, 0, 1, k);
  }

  // ---------------------------------------------------------------- batches

  /** try_recv_batch_into: one world per attempt; the packets appended, and the
      error that ended the batch. */
  function Batch<C>(s: State<C>, calls: seq<Polls>): (State<C>, seq<Received>, Option<McrxError>)
    decreases calls
  {
    if calls == [] then (s, [], None)
    else
      match Recv(s, calls[0])
      case (s', Err(e)) => (s', [], Some(e))
      case (s', Ok(None)) => (s', [], None)
      case (s', Ok(Some(p))) =>
        var (done, rest, e) := Batch(s', calls[1..]);
        (done, [p] + rest, e)
  }

  /** A batch is a prefix of successive single receives, cut at its bound, at the
      first error, or when every joined subscription is empty. */
  lemma {:induction false} BatchIsReceives<C>(s: State<C>, calls: seq<Polls>)
    requires s.Valid()
    ensures var (s', packets, e) := Batch(s, calls); var results := RecvTimes(s, calls);
      && s'.Valid() && |packets| <= |calls| == |results|
      && (forall k :: 0 <= k < |packets| ==> results[k] == Ok(Some(packets[k])))
      && (e.Some? ==> |packets| < |calls| && results[|packets|] == Err(e.value))
      && (e.None? && |packets| < |calls| ==> results[|packets|] == Ok(None))
    decreases calls
  {
    if calls != [] {
      var (s', r) := Recv(s, calls[0]);
      RecvKeepsValid(s, calls[0], s');
      BatchIsReceives(s', calls[1..]);
    }
  }

  lemma BatchUnfolds<C>(
    s: State<C>, calls: seq<Polls>, s': State<C>, r: Result<Option<Received>, McrxError>,
    batch: BatchResult<State<C>, Received, McrxError>, soFar: seq<Received>)
    requires calls != [] && (s', r) == Recv(s, calls[0]) && Continues(batch, soFar, Batch(s, calls))
    ensures r.Err? ==> batch == (s', soFar, Some(r.error))
    ensures r == Ok(None) ==> batch == (s', soFar, None)
    ensures r.Ok? && r.value.Some? ==> Continues(batch, soFar + [r.value.value], Batch(s', calls[1..]))
  {
    assert soFar + [] == soFar;
    if r.Ok? && r.value.Some? {
      var loop := Batch(s', calls[1..]);
      assert soFar + ([r.value.value] + loop.1) == (soFar + [r.value.value]) + loop.1;
    }
  }

  /** The positions polled by the first `visited` steps of a scan from `cursor`:
      the joined ones among those passed, each once. */
  ghost predicate Polled<C>(subs: seq<Subscription<C>>, cursor: nat, visited: nat, polled: seq<nat>)
    requires cursor < |subs|
  {
    && (forall i :: i in polled ==> i < |subs| && subs[i].joined && Distance(cursor, i, |subs|) < visited)
    && (forall i: nat :: i < |subs| && subs[i].joined && Distance(cursor, i, |subs|) < visited ==> i in polled)
    && (forall a, b :: 0 <= a < b < |polled| ==> polled[a] != polled[b])
  }

  lemma VisitNext<C>(subs: seq<Subscription<C>>, cursor: nat, visited: nat, polled: seq<nat>, index: nat)
    requires cursor < |subs| && index < |subs| && Distance(cursor, index, |subs|) == visited
    requires Polled(subs, cursor, visited, polled)
    ensures Polled(subs, cursor, visited + 1, if subs[index].joined then polled + [index] else polled)
  {
    assert index !in polled;
    var polled' := if subs[index].joined then polled + [index] else polled;
    forall i: nat | i < |subs| && subs[i].joined && Distance(cursor, i, |subs|) < visited + 1 ensures i in polled' {
      assert Distance(cursor, i, |subs|) == visited ==> i == index;
    }
  }

  lemma PollsNobody<C>(subs: seq<Subscription<C>>, cursor: nat)
    requires cursor < |subs|
    ensures Polled(subs, cursor, 0, [])
  {
  }

  lemma PolledOnce<C>(subs: seq<Subscription<C>>, cursor: nat, visited: nat, polled: seq<nat>)
    requires cursor < |subs| && Polled(subs, cursor, visited, polled)
    ensures forall a, b :: 0 <= a < b < |polled| ==> polled[a] != polled[b]
    ensures forall i :: i in polled ==> i < |subs| && subs[i].joined
    ensures visited >= |subs| ==> forall i: nat :: i < |subs| && subs[i].joined ==> i in polled
  {
  }

  lemma AnsweringStep<C>(subs: seq<Subscription<C>>, polls: Polls, index: nat, left: nat)
    requires index < |subs|
    ensures Answering(subs, polls, index, left)
      == if left == 0 then None
         else if Answers(subs[index], polls) then Some(index)
         else Answering(subs, polls, Next(index, |subs|), left - 1)
  {
  }

  /** How a scan that stops at `at`, or finds nobody, reports. */
  lemma ScanEnds<C>(s: State<C>, polls: Polls, at: nat, s': State<C>, r: Result<Option<Received>, McrxError>)
    requires s.Valid()
    requires s.subs == [] ==> s' == s && r == Ok(None)
    requires s.subs != [] && Answering(s.subs, polls, s.cursor, |s.subs|).None? ==> s' == s && r == Ok(None)
    requires s.subs != [] && Answering(s.subs, polls, s.cursor, |s.subs|).Some? ==>
      && at < |s.subs| && Answering(s.subs, polls, s.cursor, |s.subs|) == Some(at)
      && (match Poll(polls, s.subs[at].id)
          case Packet(payload) =>
            s' == s.(cursor := Next(at, |s.subs|)) && r == Ok(Some(Received(s.subs[at].id, payload)))
          case _ => s' == s && r == Err(ReceiveFailed))
    ensures s'.Valid() && (s', r) == Recv(s, polls)
  {
  }

  lemma NextIsModulo(index: nat, n: nat)
    requires index < n
    ensures (index + 1) % n == Next(index, n)
  {
  }

  // ---------------------------------------------------------------- the context

  class Context<C(==)> {
    var subscriptions: seq<Subscription<C>>
    var nextId: SubscriptionId
    var cursor: nat

    ghost function View(): State<C>
      reads this
    {
      State(subscriptions, nextId, cursor)
    }

    constructor ()
      ensures View() == State([], 1, 0) && View().Valid()
    {
      subscriptions, nextId, cursor := [], 1, 0;
    }

    method Find(id: SubscriptionId) returns (at: Option<nat>)
      ensures at == PositionOf(subscriptions, id)
    {
      var i := 0;
      while i < |subscriptions|
        invariant i <= |subscriptions|
        invariant PositionOf(subscriptions, id)
          == match PositionOf(subscriptions[i..], id) case None => None case Some(k) => Some(i + k)
      {
        if subscriptions[i].id == id {
          return Some(i);
        }
        assert subscriptions[i..][1..] == subscriptions[i + 1..];
        i := i + 1;
      }
      return None;
    }

    method EnsureConfigIsUnique(config: C) returns (unique: bool)
      ensures unique <==> forall i :: 0 <= i < |subscriptions| ==> subscriptions[i].config != config
    {
      for i := 0 to |subscriptions|
        invariant forall k :: 0 <= k < i ==> subscriptions[k].config != config
      {
        if subscriptions[i].config == config {
          return false;
        }
      }
      return true;
    }

    /** `valid` is the outcome of validating the config, `openOk` of opening its
        socket. */
    method AddSubscription(config: C, valid: Result<(), McrxError>, openOk: bool)
      returns (r: Result<SubscriptionId, McrxError>)
      requires View().Valid()
      modifies `subscriptions, `nextId
      ensures View().Valid() && (View(), r) == Add(old(View()), config, valid, openOk)
    {
      if valid.Err? {
        return Err(valid.error);
      }
      var unique := EnsureConfigIsUnique(config);
      if !unique {
        return Err(DuplicateSubscription);
      }
      if !openOk {
        return Err(SocketOpenFailed);
      }
      var id := nextId;
      nextId := nextId + 1;
      subscriptions := subscriptions + [Subscription(id, config, false)];
      return Ok(id);
    }

    method TakeSubscription(id: SubscriptionId) returns (r: Option<Subscription<C>>)
      requires View().Valid()
      modifies `subscriptions, `cursor
      ensures View().Valid() && (View(), r) == Take(old(View()), id)
    {
      var at := Find(id);
      if at.None? {
        return None;
      }
      TakeKeepsValid(View(), id, Take(View(), id).0, Take(View(), id).1);
      r := Some(subscriptions[at.value]);
      var last := subscriptions[|subscriptions| - 1];
      if at.value == |subscriptions| - 1 {
        subscriptions := subscriptions[..|subscriptions| - 1];
      } else {
        subscriptions := subscriptions[..|subscriptions| - 1][at.value := last];
      }
      if subscriptions == [] {
        cursor := 0;
      } else {
        cursor := cursor % |subscriptions|;
      }
    }

    method SetMembership(id: SubscriptionId, join: bool, ok: bool) returns (r: Result<(), McrxError>)
      requires View().Valid()
      modifies `subscriptions
      ensures View().Valid() && (View(), r) == SetJoined(old(View()), id, join, ok)
    {
      var at := Find(id);
      if at.None? {
        return Err(SubscriptionNotFound);
      }
      if subscriptions[at.value].joined == join {
        return Err(if join then SubscriptionAlreadyJoined else SubscriptionNotJoined);
      }
      if !ok {
        return Err(SocketOptionFailed);
      }
      subscriptions := subscriptions[at.value := subscriptions[at.value].(joined := join)];
      return Ok(());
    }

    /** The scan loop of try_recv_any. `polled` records the positions it polls: each
        joined one at most once, and all of them when it returns nothing. */
    method TryRecvAny(polls: Polls) returns (r: Result<Option<Received>, McrxError>, ghost polled: seq<nat>)
      requires View().Valid()
      modifies `cursor
      ensures View().Valid() && (View(), r) == Recv(old(View()), polls)
      ensures forall a, b :: 0 <= a < b < |polled| ==> polled[a] != polled[b]
      ensures forall i :: i in polled ==> i < |subscriptions| && subscriptions[i].joined
      ensures r == Ok(None) ==> forall i: nat :: i < |subscriptions| && subscriptions[i].joined ==> i in polled
    {
      hide Polled, Recv, Answering, State<C>.IdsUnique, State<C>.ConfigsUnique;
      polled := [];
      var count := |subscriptions|;
      if count == 0 {
        ScanEnds(View(), polls, 0, View(), Ok(None));
        r := Ok(None);
        return;
      }
      PollsNobody(subscriptions, cursor);
      var index: nat, visited := cursor, 0;
      ghost var left: nat := count;
      while visited < count
        invariant visited <= count && left == count - visited && index < count
        invariant cursor == old(cursor)
        invariant visited < count ==> Distance(cursor, index, count) == visited
        invariant Polled(subscriptions, cursor, visited, polled)
        invariant Answering(subscriptions, polls, index, left) == Answering(subscriptions, polls, cursor, count)
      {
        var sub := subscriptions[index];
        AnsweringStep(subscriptions, polls, index, left);
        VisitNext(subscriptions, cursor, visited, polled, index);
        PolledOnce(subscriptions, cursor, visited + 1, if sub.joined then polled + [index] else polled);
        if sub.joined {
          polled := polled + [index];
          match Poll(polls, sub.id) {
            case Packet(payload) =>
              NextIsModulo(index, count);
              cursor := (index + 1) % count;
              r := Ok(Some(Received(sub.id, payload)));
              ScanEnds(old(View()), polls, index, View(), r);
              return;
            case Fault =>
              r := Err(ReceiveFailed);
              ScanEnds(old(View()), polls, index, View(), r);
              return;
            case Empty =>
          }
        }
        index := index + 1;
        if index == count {
          index := 0;
        }
        visited := visited + 1;
        left := left - 1;
      }
      PolledOnce(subscriptions, cursor, visited, polled);
      AnsweringStep(subscriptions, polls, index, 0);
      r := Ok(None);
      ScanEnds(old(View()), polls, index, View(), r);
    }

    method TryRecvBatch(calls: seq<Polls>) returns (packets: seq<Received>, r: Result<nat, McrxError>)
      requires View().Valid()
      modifies `cursor
      ensures View().Valid()
      ensures (View(), packets, if r.Ok? then None else Some(r.error)) == Batch(old(View()), calls)
      ensures r.Ok? ==> r.value == |packets|
    {
      packets := [];
      var i := 0;
      ghost var rest, batch := calls, Batch(View(), calls);
      while i < |calls|
        invariant i <= |calls| && rest == calls[i..] && View().Valid()
        invariant Continues(batch, packets, Batch(View(), rest))
      {
        ghost var s := View();
        assert rest[0] == calls[i] && rest[1..] == calls[i + 1..];
        var received, _ := TryRecvAny(calls[i]);
        BatchUnfolds(s, rest, View(), received, batch, packets);
        if received.Err? {
          r := Err(received.error);
          return;
        }
        if received.value.None? {
          r := Ok(|packets|);
          return;
        }
        packets := packets + [received.value.value];
        rest := rest[1..];
        i := i + 1;
      }
      assert rest == [] && packets + [] == packets;
      r := Ok(|packets|);
    }
  }
}
