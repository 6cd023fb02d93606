/** Where the capture cursor goes (src/raw/shared.rs). `fill_pending` advances the
    cursor before it tests whether its target is met, so the fill that serves a
    capture normally leaves the cursor two places past it. The laws here hold for
    single receives and for batches alike, since both are made of fills. */
module SharedCursor {
  import opened Wrappers
  import opened Config
  import opened Bits
  import opened SharedSpec
  import opened SharedInvariants
  import opened SharedReceive

  // ---------------------------------------------------------------- readiness

  ghost predicate Wanted(s: State, key: CaptureKey, e: Event) {
    e.Got? && MatchesOf(s, Reading(key, e.captured)) != []
  }

  /** The next `count` events of a capture are datagrams somebody wants. */
  ghost predicate ReadyAt(s: State, key: CaptureKey, count: nat) {
    && key in s.wire && count <= |s.wire[key]|
    && forall i :: 0 <= i < count ==> Wanted(s, key, s.wire[key][i])
  }

  ghost predicate Ready(s: State, count: nat) {
    forall key :: key in s.order ==> ReadyAt(s, key, count)
  }

  /** A capture at which a fill of `target` finds nothing: nothing is there yet, or
      the one packet asked for is not the one that is there. */
  ghost predicate Passes(s: State, key: CaptureKey, target: nat) {
    var e := Head(s, key);
    e.Blocked? || (target == 1 && e.Got? && MatchesOf(s, Reading(key, e.captured)) == [])
  }

  /** What the laws need of a state: an empty queue with room, and a cursor in
      range of a duplicate-free order. */
  ghost predicate Idle(s: State) {
    s.pending == [] && s.limits.maxPending > 0 && Distinct(s.order) && s.cursor < |s.order|
  }

  // ---------------------------------------------------------------- positions

  /** The position `steps` places after `c` on a circle of `n`. */
  function Ahead(c: nat, steps: nat, n: nat): (r: nat)
    requires c < n && steps <= n
    ensures r < n
  {
    if c + steps < n then c + steps else c + steps - n
  }

  /** The capture `steps` places after the cursor. */
  function KeyAhead(s: State, steps: nat): CaptureKey
    requires s.cursor < |s.order| && steps <= |s.order|
  {
    s.order[Ahead(s.cursor, steps, |s.order|)]
  }

  /** The captures at the first `steps` places from the cursor. */
  ghost function Visited(s: State, steps: nat): set<CaptureKey>
    requires s.cursor < |s.order| && steps <= |s.order|
  {
    set i | 0 <= i < steps :: KeyAhead(s, i)
  }

  /** A capture further on has not been visited. */
  lemma NotVisited(s: State, steps: nat, i: nat)
    requires Distinct(s.order) && s.cursor < |s.order| && steps <= i < |s.order|
    ensures KeyAhead(s, i) !in Visited(s, steps)
  {
    forall k | 0 <= k < steps ensures KeyAhead(s, k) != KeyAhead(s, i) {
      var a, b := Ahead(s.cursor, k, |s.order|), Ahead(s.cursor, i, |s.order|);
      assert a != b;
    }
  }

  lemma AdvancedAhead(s: State, a: State)
    requires s.order != [] && s.cursor < |s.order| && a == Advanced(s)
    ensures a == s.(cursor := Ahead(s.cursor, 1, |s.order|))
  {
    var n := |s.order|;
    ModOf(s.cursor + 1, n, if s.cursor + 1 < n then 0 else 1, Ahead(s.cursor, 1, n));
  }

  // ---------------------------------------------------------------- what a fill leaves alone

  ghost predicate SameSocket(s: State, s': State, key: CaptureKey) {
    && (key in s.wire <==> key in s'.wire)
    && (key in s.wire ==> s'.wire[key] == s.wire[key])
  }

  /** Only the sockets of `touched` were read from, and an empty one stays empty. */
  ghost predicate SocketsKept(s: State, s': State, touched: set<CaptureKey>) {
    && (forall key :: key !in touched ==> SameSocket(s, s', key))
    && (forall key :: key in s.wire && s.wire[key] == [] ==> SameSocket(s, s', key))
  }

  ghost predicate SameEngine(s: State, s': State) {
    && s'.limits == s.limits && s'.subs == s.subs && s'.nextId == s.nextId && s'.order == s.order
    && s.log <= s'.log
  }

  /** Readiness depends on the socket and the subscriptions only. */
  lemma ReadyKept(s: State, s': State, key: CaptureKey, count: nat)
    requires ReadyAt(s, key, count) && SameEngine(s, s') && SameSocket(s, s', key)
    ensures ReadyAt(s', key, count)
  {
    forall i | 0 <= i < count ensures Wanted(s', key, s'.wire[key][i]) {
      assert Wanted(s, key, s.wire[key][i]);
    }
  }

  /** What is left after the first `taken` datagrams of a ready capture. */
  lemma ReadyLeft(s: State, s': State, key: CaptureKey, taken: nat, count: nat)
    requires ReadyAt(s, key, taken + count) && SameEngine(s, s')
    requires key in s'.wire && s'.wire[key] == s.wire[key][taken..]
    ensures ReadyAt(s', key, count)
  {
    forall i | 0 <= i < count ensures Wanted(s', key, s'.wire[key][i]) {
      assert Wanted(s, key, s.wire[key][taken + i]);
    }
  }

  // ---------------------------------------------------------------- one visit

  /** A visit that finds nothing goes on to the next capture. */
  lemma PassOne(s: State, left: nat, target: nat, budget: nat, captured: nat)
    returns (mid: State, captured': nat)
    requires s.cursor < |s.order| && Passes(s, s.order[s.cursor], target)
    requires left > 0 && target > 0 && captured < budget
    ensures FillCaptures(s, left, target, budget, 0, captured)
      == FillCaptures(mid, left - 1, target, budget, 0, captured')
    ensures captured' <= captured + 1
    ensures mid == s.(cursor := Ahead(s.cursor, 1, |s.order|), wire := Popped(s, s.order[s.cursor]).wire,
                      log := mid.log, unmatched := mid.unmatched)
    ensures s.log <= mid.log
  {
    hide MatchesOf;
    var key, a := s.order[s.cursor], Advanced(s);
    AdvancedAhead(s, a);
    var e := Head(s, key);
    assert Head(a, key) == e;
    if e.Blocked? {
      mid, captured' := Popped(a, key), captured;
      assert FillFrom(a, key, target, target, budget, 0, captured) == (mid, Exhausted(0, captured));
    } else {
      UnmatchedKept(s, a, key);
      mid := UnmatchedTurn(a, key, budget, captured);
      captured' := captured + 1;
    }
  }

  lemma UnmatchedKept(s: State, a: State, key: CaptureKey)
    requires a.subs == s.subs && a.nextId == s.nextId && Head(a, key).Got?
    ensures MatchesOf(a, Reading(key, Head(a, key).captured)) == MatchesOf(s, Reading(key, Head(a, key).captured))
  {
  }

  lemma UnmatchedTurn(a: State, key: CaptureKey, budget: nat, captured: nat) returns (mid: State)
    requires Head(a, key).Got? && MatchesOf(a, Reading(key, Head(a, key).captured)) == [] && captured < budget
    ensures FillFrom(a, key, 1, 1, budget, 0, captured) == (mid, Exhausted(0, captured + 1))
    ensures mid == a.(wire := Popped(a, key).wire, log := mid.log, unmatched := mid.unmatched)
    ensures a.log <= mid.log
  {
    var reading := Reading(key, Head(a, key).captured);
    mid := TakeReading(a, reading, Popped(a, key).wire[key]).0;
    assert FillFrom(mid, key, 0, 1, budget, 0, captured + 1) == (mid, Exhausted(0, captured + 1));
  }

  /** A packet whose datagram was read from the capture. */
  ghost predicate ReadFrom(log: seq<Reading>, q: Queued, key: CaptureKey) {
    q.serial < |log| && log[q.serial].key == key
  }

  ghost predicate AllReadFrom(log: seq<Reading>, packets: seq<Queued>, key: CaptureKey) {
    forall i :: 0 <= i < |packets| ==> ReadFrom(log, packets[i], key)
  }

  /** A visit to a capture with enough ready datagrams meets the target there. */
  lemma {:induction false} TakeAll(
    s: State, key: CaptureKey, turns: nat, target: nat, budget: nat, queued: nat, captured: nat) returns (s': State)
    requires ReadyAt(s, key, turns) && queued + turns == target && captured + turns <= budget
    requires AllReadFrom(s.log, s.pending, key)
    ensures FillFrom(s, key, turns, target, budget, queued, captured) == (s', Exhausted(target, captured + turns))
    ensures s' == s.(wire := s.wire[key := s.wire[key][turns..]], log := s'.log, pending := s'.pending)
    ensures s.log <= s'.log && |s'.pending| == |s.pending| + turns && AllReadFrom(s'.log, s'.pending, key)
    decreases turns
  {
    if turns == 0 {
      s' := s;
      assert s.wire[key := s.wire[key][0..]] == s.wire;
    } else {
      var mid := TakeFirst(s, key);
      var e := s.wire[key][0];
      assert Wanted(s, key, e);
      ReadyLeft(s, mid, key, 1, turns - 1);
      s' := TakeAll(mid, key, turns - 1, target, budget, queued + 1, captured + 1);
      assert s.wire[key][1..][turns - 1..] == s.wire[key][turns..];
      assert s'.wire == s.wire[key := s.wire[key][turns..]];
    }
  }

  lemma TakeFirst(s: State, key: CaptureKey) returns (mid: State)
    requires ReadyAt(s, key, 1) && AllReadFrom(s.log, s.pending, key)
    ensures Head(s, key) == s.wire[key][0] && Head(s, key).Got?
    ensures TakeReading(s, Reading(key, s.wire[key][0].captured), s.wire[key][1..]) == (mid, true)
    ensures Popped(s, key).wire[key] == s.wire[key][1..]
    ensures mid == s.(wire := s.wire[key := s.wire[key][1..]], log := mid.log, pending := mid.pending)
    ensures s.log <= mid.log && |mid.pending| == |s.pending| + 1 && AllReadFrom(mid.log, mid.pending, key)
  {
    var e := s.wire[key][0];
    assert Wanted(s, key, e);
    mid := TakeReading(s, Reading(key, e.captured), s.wire[key][1..]).0;
    forall i | 0 <= i < |mid.pending| ensures ReadFrom(mid.log, mid.pending[i], key) {
      assert i < |s.pending| ==> ReadFrom(s.log, s.pending[i], key);
    }
  }

  /** The visit after the target is met only moves the cursor. */
  lemma AfterTarget(s: State, left: nat, target: nat, budget: nat, captured: nat)
    requires s.cursor < |s.order| && target > 0
    ensures FillCaptures(s, left, target, budget, target, captured)
      == (s.(cursor := if left == 0 then s.cursor else Ahead(s.cursor, 1, |s.order|)), Ok(target))
  {
    if left > 0 {
      var a := Advanced(s);
      AdvancedAhead(s, a);
      assert FillFrom(a, s.order[s.cursor], target, target, budget, target, captured) == (a, TargetMet(target));
    }
  }

  // ---------------------------------------------------------------- one fill

  /** The state after a fill passed over the first `j` captures from the cursor. */
  ghost predicate PassedOver(s: State, j: nat, mid: State)
    requires s.cursor < |s.order| && j <= |s.order|
  {
    && SameEngine(s, mid) && mid.pending == s.pending && mid.delivered == s.delivered
    && mid.cursor == Ahead(s.cursor, j, |s.order|)
    && SocketsKept(s, mid, Visited(s, j))
  }

  /** The first `j` captures from the cursor have nothing for a fill of `target`. */
  ghost predicate PassesFor(s: State, j: nat, target: nat)
    requires s.cursor < |s.order| && j <= |s.order|
  {
    forall i :: 0 <= i < j ==> Passes(s, KeyAhead(s, i), target)
  }

  lemma {:induction false} PassOver(s: State, j: nat, left: nat, target: nat, budget: nat, captured: nat)
    returns (mid: State, captured': nat)
    requires Distinct(s.order) && s.cursor < |s.order| && j <= left <= |s.order|
    requires target > 0 && captured + j <= budget && PassesFor(s, j, target)
    ensures FillCaptures(s, left, target, budget, 0, captured)
      == FillCaptures(mid, left - j, target, budget, 0, captured')
    ensures captured' <= captured + j && PassedOver(s, j, mid)
    decreases j
  {
    hide Passes, Distinct;
    if j == 0 {
      mid, captured' := s, captured;
    } else {
      assert KeyAhead(s, 0) == s.order[s.cursor];
      var first, c := PassOne(s, left, target, budget, captured);
      FirstPassed(s, j, target, first);
      mid, captured' := PassOver(first, j - 1, left - 1, target, budget, c);
      PassedOverNext(s, j, first, mid);
    }
  }

  lemma FirstPassed(s: State, j: nat, target: nat, first: State)
    requires Distinct(s.order) && s.cursor < |s.order| && 0 < j <= |s.order| && PassesFor(s, j, target)
    requires first == s.(cursor := Ahead(s.cursor, 1, |s.order|), wire := Popped(s, s.order[s.cursor]).wire,
                         log := first.log, unmatched := first.unmatched)
    ensures PassesFor(first, j - 1, target)
  {
    forall i | 0 <= i < j - 1 ensures Passes(first, KeyAhead(first, i), target) {
      var key := KeyAhead(s, i + 1);
      assert KeyAhead(first, i) == key && key != s.order[s.cursor];
      assert Passes(s, key, target) && Head(first, key) == Head(s, key);
      if Head(s, key).Got? {
        var reading := Reading(key, Head(s, key).captured);
        assert MatchesOf(first, reading) == MatchesOf(s, reading);
      }
    }
  }

  lemma PassedOverNext(s: State, j: nat, first: State, mid: State)
    requires s.cursor < |s.order| && 0 < j <= |s.order|
    requires first == s.(cursor := Ahead(s.cursor, 1, |s.order|), wire := Popped(s, s.order[s.cursor]).wire,
                         log := first.log, unmatched := first.unmatched)
    requires s.log <= first.log && PassedOver(first, j - 1, mid)
    ensures PassedOver(s, j, mid)
  {
    var seen, later := Visited(s, j), Visited(first, j - 1);
    assert KeyAhead(s, 0) == s.order[s.cursor] && KeyAhead(s, 0) in seen;
    forall key | key in later ensures key in seen {
      var i :| 0 <= i < j - 1 && key == KeyAhead(first, i);
      assert key == KeyAhead(s, i + 1);
    }
    forall key | key !in seen || (key in s.wire && s.wire[key] == []) ensures SameSocket(s, mid, key) {
      assert SameSocket(s, first, key);
      assert SameSocket(first, mid, key);
    }
  }

  /** Where a fill that serves the `j`th capture from the cursor leaves the cursor:
      two places past it, or one when no other capture was left to visit. */
  function Served(j: nat, n: nat): (r: nat)
    requires j < n
    ensures r <= n
  {
    if j < n - 1 then j + 2 else j + 1
  }

  /** `taken` datagrams were taken from the `j`th capture from the cursor, which
      moved accordingly; captures further on, and empty ones, were left alone. */
  ghost predicate TakesFrom(s: State, j: nat, taken: nat, s': State)
    requires s.cursor < |s.order| && j < |s.order|
  {
    var key := KeyAhead(s, j);
    && SameEngine(s, s')
    && s'.cursor == Ahead(s.cursor, Served(j, |s.order|), |s.order|)
    && key in s.wire && taken <= |s.wire[key]| && key in s'.wire && s'.wire[key] == s.wire[key][taken..]
    && (forall k :: k !in Visited(s, j) && k != key ==> SameSocket(s, s', k))
    && (forall k :: k in s.wire && s.wire[k] == [] && k != key ==> SameSocket(s, s', k))
  }

  /** A fill of `target` took all its packets from the `j`th capture from the cursor. */
  ghost predicate FillsFrom(s: State, j: nat, target: nat, s': State)
    requires s.cursor < |s.order| && j < |s.order|
  {
    && TakesFrom(s, j, target, s') && s'.delivered == s.delivered
    && |s'.pending| == target && AllReadFrom(s'.log, s'.pending, KeyAhead(s, j))
  }

  /** The law of one fill: passing over captures that have nothing for it, it takes
      its whole target from the first capture that has enough. */
  lemma FillLaw(s: State, max: nat, j: nat, s': State, r: Result<nat, McrxError>)
    requires Idle(s) && j < |s.order| && (s', r) == Fill(s, max)
    requires var target := FillTarget(s, max);
      target > 0 && PassesFor(s, j, target) && ReadyAt(s, KeyAhead(s, j), target)
    ensures r == Ok(FillTarget(s, max)) && FillsFrom(s, j, FillTarget(s, max), s')
  {
    hide Passes, Distinct, Wanted, FillFrom, FillCaptures;
    var n, target := |s.order|, FillTarget(s, max);
    var key, budget := KeyAhead(s, j), target + n;
    var mid, captured := PassOver(s, j, n, target, budget, 0);
    NotVisited(s, j, j);
    assert SameSocket(s, mid, key);
    ReadyKept(s, mid, key, target);
    assert mid.order[mid.cursor] == key;
    var after := Visit(mid, n - j, key, target, budget, captured);
    assert Fill(s, max) == FillCaptures(s, n, target, budget, 0, 0);
    AheadAgain(s.cursor, j, n);
    assert forall k :: SameSocket(s, mid, k) && k != key ==> SameSocket(s, after, k);
    assert s' == after && r == Ok(target);
  }

  /** From the capture that has enough, the fill ends. */
  lemma Visit(s: State, left: nat, key: CaptureKey, target: nat, budget: nat, captured: nat) returns (s': State)
    requires s.cursor < |s.order| && key == s.order[s.cursor] && ReadyAt(s, key, target) && s.pending == []
    requires left > 0 && target > 0 && captured + target <= budget
    ensures FillCaptures(s, left, target, budget, 0, captured) == (s', Ok(target))
    ensures s' == s.(wire := s.wire[key := s.wire[key][target..]], log := s'.log, pending := s'.pending,
                     cursor := s'.cursor)
    ensures s'.cursor == if left == 1 then Ahead(s.cursor, 1, |s.order|)
                         else Ahead(Ahead(s.cursor, 1, |s.order|), 1, |s.order|)
    ensures s.log <= s'.log && |s'.pending| == target && AllReadFrom(s'.log, s'.pending, key)
  {
    hide FillFrom;
    var a := Advanced(s);
    AdvancedAhead(s, a);
    assert ReadyAt(a, key, target) by {
      hide FillCaptures;
      ReadyKept(s, a, key, target);
    }
    var taken := TakeAll(a, key, target, target, budget, 0, captured);
    AfterTarget(taken, left - 1, target, budget, captured + target);
    s' := taken.(cursor := if left == 1 then taken.cursor else Ahead(taken.cursor, 1, |s.order|));
  }

  lemma AheadAgain(c: nat, j: nat, n: nat)
    requires c < n && j < n
    ensures var d := Ahead(c, j, n);
      Ahead(c, Served(j, n), n) == if n - j == 1 then Ahead(d, 1, n) else Ahead(Ahead(d, 1, n), 1, n)
  {
  }

  // ---------------------------------------------------------------- one receive

  /** The first place from the cursor at which a receive stops: a packet for
      somebody, an error, or, all the way round, none. */
  lemma FirstStop(s: State) returns (j: nat)
    requires Idle(s)
    ensures j <= |s.order| && PassesFor(s, j, 1)
    ensures j < |s.order| ==> ReadyAt(s, KeyAhead(s, j), 1) || Head(s, KeyAhead(s, j)).Fault?
  {
    hide Distinct;
    j := 0;
    while j < |s.order| && Passes(s, KeyAhead(s, j), 1)
      invariant j <= |s.order| && PassesFor(s, j, 1)
    {
      j := j + 1;
    }
  }

  /** The law of one receive, whatever each capture has to offer: it serves the
      first capture from the cursor whose next datagram somebody wants, and leaves
      the cursor two places past it, or one when it was the last capture visited;
      it fails at an error met before that; it returns nothing, with the cursor
      back where it was, when no capture has anything for it. */
  lemma ReceiveLaw(s: State, j: nat, s': State, r: Result<Option<Queued>, McrxError>)
    requires Idle(s) && j <= |s.order| && PassesFor(s, j, 1) && (s', r) == Recv(s)
    ensures j < |s.order| && ReadyAt(s, KeyAhead(s, j), 1) ==>
      && Idle(s') && TakesFrom(s, j, 1, s')
      && r.Ok? && r.value.Some? && ReadFrom(s'.log, r.value.value, KeyAhead(s, j))
    ensures j < |s.order| && Head(s, KeyAhead(s, j)).Fault? ==>
      r.Err? && s'.cursor == Ahead(s.cursor, j + 1, |s.order|)
    ensures j == |s.order| ==> r == Ok(None) && s'.cursor == s.cursor
  {
    hide Passes, Distinct, MatchesOf, FillFrom, FillCaptures, TakesFrom;
    var n, fill := |s.order|, Fill(s, 1);
    assert FillTarget(s, 1) == 1;
    if j < n && ReadyAt(s, KeyAhead(s, j), 1) {
      FillLaw(s, 1, j, fill.0, fill.1);
      HandedOver(s, j, 1, fill.0, s');
      assert ReadFrom(fill.0.log, fill.0.pending[0], KeyAhead(s, j));
    } else if j < n && Head(s, KeyAhead(s, j)).Fault? {
      var mid, captured := PassOver(s, j, n, 1, 1 + n, 0);
      FaultVisit(s, j, mid, n - j, 1 + n, captured);
    } else if j == n {
      var mid, captured := PassOver(s, n, n, 1, 1 + n, 0);
      assert FillCaptures(mid, 0, 1, 1 + n, 0, captured) == (mid, Ok(0)) by {
        NothingLeft(mid, 1 + n, captured);
      }
    }
  }

  lemma NothingLeft(s: State, budget: nat, captured: nat)
    ensures FillCaptures(s, 0, 1, budget, 0, captured) == (s, Ok(0))
  {
  }

  lemma FaultVisit(s: State, j: nat, mid: State, left: nat, budget: nat, captured: nat)
    requires Distinct(s.order) && s.cursor < |s.order| && j < |s.order| && PassedOver(s, j, mid)
    requires Head(s, KeyAhead(s, j)).Fault? && left > 0 && captured < budget
    ensures FillCaptures(mid, left, 1, budget, 0, captured).1.Err?
    ensures FillCaptures(mid, left, 1, budget, 0, captured).0.cursor == Ahead(s.cursor, j + 1, |s.order|)
  {
    var key, a := KeyAhead(s, j), Advanced(mid);
    NotVisited(s, j, j);
    assert SameSocket(s, mid, key);
    AdvancedAhead(mid, a);
    assert FillFrom(a, key, 1, 1, budget, 0, captured) == (Popped(a, key), Failed);
  }

  /** Handing a whole fill over leaves the queue empty again. */
  lemma HandedOver(s: State, j: nat, target: nat, filled: State, s': State)
    requires Idle(s) && j < |s.order| && FillsFrom(s, j, target, filled) && s' == Hand(filled, target).0
    ensures Idle(s') && TakesFrom(s, j, target, s') && s'.log == filled.log
  {
    hide Visited, KeyAhead;
    assert filled.pending[target..] == [];
    assert forall k :: SameSocket(s, filled, k) ==> SameSocket(s, s', k);
  }
}
