/** Socket errors of the shared raw capture engine (src/raw/shared.rs): every error a
    receive or batch meets is reported by that call, and no call reports one it did not
    meet. */
module SharedErrors {
  import opened Wrappers
  import opened Config
  import opened SharedSpec
  import opened SharedReceive

  /** The errors waiting in a socket. */
  function Faults(events: seq<Event>): nat {
    if events == [] then 0 else (if events[0].Fault? then 1 else 0) + Faults(events[1..])
  }

  function FaultsAt(s: State, key: CaptureKey): nat {
    if key in s.wire then Faults(s.wire[key]) else 0
  }

  /** A call that failed took one error out of one socket, and left the errors of the
      others alone; any other call took none. */
  ghost predicate Reports(s: State, s': State, failed: bool) {
    if failed then exists at :: TookOne(s, s', at)
    else forall key :: FaultsAt(s', key) == FaultsAt(s, key)
  }

  ghost predicate TookOne(s: State, s': State, at: CaptureKey) {
    && FaultsAt(s, at) == FaultsAt(s', at) + 1
    && forall key :: key != at ==> FaultsAt(s', key) == FaultsAt(s, key)
  }

  lemma ReportsThen(s: State, mid: State, s': State, failed: bool)
    requires Reports(s, mid, false) && Reports(mid, s', failed)
    ensures Reports(s, s', failed)
  {
    hide FaultsAt;
    if failed {
      var at :| TookOne(mid, s', at);
      assert TookOne(s, s', at);
    }
  }

  /** Changing anything but the sockets. */
  lemma SameSockets(s: State, s': State)
    requires s'.wire == s.wire
    ensures Reports(s, s', false)
  {
  }

  lemma PopReports(s: State, key: CaptureKey, s': State)
    requires s'.wire == Popped(s, key).wire
    ensures Reports(s, s', Head(s, key).Fault?)
  {
    if key in s.wire && s.wire[key] != [] {
      assert Faults(s.wire[key]) == (if s.wire[key][0].Fault? then 1 else 0) + Faults(s.wire[key][1..]);
    }
    if Head(s, key).Fault? {
      assert TookOne(s, s', key);
    }
  }

  lemma {:induction false} TurnReports(
    s: State, key: CaptureKey, turns: nat, target: nat, budget: nat, queued: nat, captured: nat, s': State, turn: Turn)
    requires (s', turn) == FillFrom(s, key, turns, target, budget, queued, captured)
    ensures Reports(s, s', turn.Failed?)
    decreases turns
  {
    hide TakeReading, MatchesOf, Reports;
    if turns == 0 || queued == target || captured == budget {
      SameSockets(s, s');
    } else if !Head(s, key).Got? {
      PopReports(s, key, s');
    } else {
      var reading := Reading(key, Head(s, key).captured);
      var mid, matched := TakeReading(s, reading, s.wire[key][1..]).0, TakeReading(s, reading, s.wire[key][1..]).1;
      TakePops(s, reading, mid);
      PopReports(s, key, mid);
      var queued' := if matched then queued + 1 else queued;
      TurnReports(mid, key, turns - 1, target, budget, queued', captured + 1, s', turn);
      ReportsThen(s, mid, s', turn.Failed?);
    }
  }

  lemma TakePops(s: State, reading: Reading, mid: State)
    requires Head(s, reading.key).Got? && mid == TakeReading(s, reading, s.wire[reading.key][1..]).0
    ensures mid.wire == Popped(s, reading.key).wire
  {
    hide MatchesOf;
  }

  lemma {:induction false} CapturesReport(
    s: State, left: nat, target: nat, budget: nat, queued: nat, captured: nat, s': State, r: Result<nat, McrxError>)
    requires (s', r) == FillCaptures(s, left, target, budget, queued, captured)
    ensures Reports(s, s', r.Err?) && (r.Err? ==> r.error == ReceiveFailed)
    decreases left
  {
    hide FillFrom, Reports;
    if left == 0 || s.cursor >= |s.order| {
      SameSockets(s, s');
    } else {
      var advanced, key := Advanced(s), s.order[s.cursor];
      var (mid, turn) := FillFrom(advanced, key, target, target, budget, queued, captured);
      SameSockets(s, advanced);
      TurnReports(advanced, key, target, target, budget, queued, captured, mid, turn);
      ReportsThen(s, advanced, mid, turn.Failed?);
      if turn.Exhausted? {
        CapturesReport(mid, left - 1, target, budget, turn.queued, turn.captured, s', r);
        ReportsThen(s, mid, s', r.Err?);
      }
    }
  }

  lemma FillReports(s: State, max: nat, s': State, r: Result<nat, McrxError>)
    requires (s', r) == Fill(s, max)
    ensures Reports(s, s', r.Err?) && (r.Err? ==> r.error == ReceiveFailed)
  {
    hide FillCaptures, Reports;
    var target := FillTarget(s, max);
    if s.order == [] || target == 0 {
      SameSockets(s, s');
    } else {
      CapturesReport(s, |s.order|, target, target + |s.order|, 0, 0, s', r);
    }
  }

  /** A receive fails exactly when it meets a socket error, which it takes out of that
      socket; it never passes one over in silence. */
  lemma ReceiveReports(s: State, s': State, r: Result<Option<Queued>, McrxError>)
    requires (s', r) == Recv(s)
    ensures Reports(s, s', r.Err?) && (r.Err? ==> r.error == ReceiveFailed)
  {
    hide Fill, Reports;
    var filled, fr := RecvCases(s, s', r);
    if s.pending == [] {
      FillReports(s, 1, filled, fr);
    } else {
      SameSockets(s, filled);
    }
    if fr.Ok? {
      SameSockets(filled, s');
      ReportsThen(s, filled, s', false);
    }
  }

  lemma {:induction false} LoopReports(s: State, wanted: nat, s': State, packets: seq<Queued>, e: Option<McrxError>)
    requires (s', packets, e) == BatchLoop(s, wanted)
    ensures Reports(s, s', e.Some?) && (e.Some? ==> e.value == ReceiveFailed)
    decreases wanted
  {
    hide Fill, Reports;
    if wanted == 0 {
      SameSockets(s, s');
    } else {
      var (filled, fr) := Fill(s, wanted);
      FillReports(s, wanted, filled, fr);
      var n := AtMost(wanted, filled);
      if fr.Ok? && fr.value != 0 && n != 0 {
        var (mid, handed) := Hand(filled, n);
        var rest := BatchLoop(mid, wanted - n);
        SameSockets(filled, mid);
        ReportsThen(s, filled, mid, false);
        LoopReports(mid, wanted - n, rest.0, rest.1, rest.2);
        ReportsThen(s, mid, s', e.Some?);
      }
    }
  }

  /** So does a batch, also when it has packets to return already. */
  lemma BatchReports(s: State, max: nat, s': State, packets: seq<Queued>, e: Option<McrxError>)
    requires (s', packets, e) == Batch(s, max)
    ensures Reports(s, s', e.Some?) && (e.Some? ==> e.value == ReceiveFailed)
  {
    hide BatchLoop, Reports;
    if max == 0 {
      SameSockets(s, s');
    } else {
      var n := AtMost(max, s);
      var mid := Hand(s, n).0;
      var rest := BatchLoop(mid, max - n);
      SameSockets(s, mid);
      LoopReports(mid, max - n, rest.0, rest.1, rest.2);
      ReportsThen(s, mid, s', e.Some?);
    }
  }

  /** With no capture open there is nothing to receive and no error. */
  lemma NothingOpen(s: State, max: nat)
    requires s.order == [] && s.pending == []
    ensures Recv(s) == (s, Ok(None)) && Batch(s, max) == (s, [], None)
  {
    assert AtMost(max, s) == 0;
    assert s.pending[..0] == s.pending[0..] == s.pending && s.delivered + SerialSeq([]) == s.delivered;
    assert Hand(s, 0) == (s, []);
    if max > 0 {
      var nobody: seq<Queued> := [];
      assert BatchLoop(s, max) == (s, nobody, None);
      assert nobody + nobody == nobody;
    }
  }
}
