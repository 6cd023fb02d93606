/** The shared raw capture engine seen abstractly (src/raw/shared.rs): what each
    operation does to the logical subscriptions, the kernel, the capture order and
    the pending queue, with matching as a linear scan and no derived caches. A
    ledger records the fate of every datagram read. */
module SharedSpec {
  import opened Wrappers
  import opened Net
  import opened Config
  import opened Packets
  import opened IdLists
  import opened Demux

  /** RawSharedCaptureKey: one capture socket per family and interface. */
  datatype CaptureKey = CaptureKey(family: Family, interfaceIndex: U32)

  datatype Selector = Selector(family: Family, interface: Option<IpAddr>, interfaceIndex: Option<U32>)

  function SelectorOf(c: RawConfig): Selector {
    Selector(c.Family(), c.interface, c.interfaceIndex)
  }

  datatype MembershipKey = MembershipKey(group: IpAddr, source: Option<IpAddr>)

  function MembershipKeyOf(c: RawConfig): MembershipKey {
    MembershipKey(c.group, c.SourceAddr())
  }

  datatype Subscription = Subscription(config: RawConfig, key: CaptureKey, joined: bool)

  type Subscriptions = map<Id, Subscription>

  datatype Limits = Limits(maxSubscriptions: nat, maxPending: nat)

  /** What the next receive on a capture socket reports: a datagram, nothing yet
      (would block, or the read budget went on unusable datagrams), or an error. */
  datatype Event = Got(captured: Captured) | Blocked | Fault

  /** A datagram read from a capture socket. */
  datatype Reading = Reading(key: CaptureKey, captured: Captured)

  /** A queued packet, its matching ids, and the position of its datagram in the
      log of readings. */
  datatype Queued = Queued(packet: RawPacket, ids: seq<Id>, serial: nat)

  /** Memberships installed on each open socket, with the config that joined. */
  type Kernel = map<CaptureKey, map<MembershipKey, RawConfig>>

  datatype State = State(
    limits: Limits,
    subs: Subscriptions,
    nextId: Id,
    order: seq<CaptureKey>,
    cursor: nat,
    pending: seq<Queued>,
    kernel: Kernel,
    wire: map<CaptureKey, seq<Event>>,
    log: seq<Reading>,
    unmatched: set<nat>,
    delivered: seq<nat>,
    purged: set<nat>)

  function Initial(limits: Limits): State {
    State(limits, map[], 1, [], 0, [], map[], map[], [], {}, [], {})
  }

  // ---------------------------------------------------------------- views

  /** The joined subscriptions of one capture. */
  ghost function JoinedOn(subs: Subscriptions, key: CaptureKey): Memberships {
    map id | id in subs && subs[id].joined && subs[id].key == key :: subs[id].config
  }

  ghost predicate HasJoined(subs: Subscriptions, key: CaptureKey) {
    exists id :: id in JoinedOn(subs, key)
  }

  ghost predicate HasMember(subs: Subscriptions, key: CaptureKey, mk: MembershipKey) {
    exists id :: id in JoinedOn(subs, key) && MembershipKeyOf(JoinedOn(subs, key)[id]) == mk
  }

  /** The linear scan the index stands for: ids below `n`, ascending, that are
      joined on the capture and whose config wants the datagram. */
  ghost function Scan(m: Memberships, group: IpAddr, source: IpAddr, n: nat): seq<Id> {
    if n == 0 then []
    else Scan(m, group, source, n - 1) + (if n - 1 in m && Wants(m[n - 1], group, source) then [n - 1] else [])
  }

  lemma {:induction false} ScanExact(m: Memberships, group: IpAddr, source: IpAddr, n: nat)
    ensures Ascending(Scan(m, group, source, n))
    ensures forall id :: id in Scan(m, group, source, n) <==> id < n && id in m && Wants(m[id], group, source)
  {
    if n > 0 {
      ScanExact(m, group, source, n - 1);
      var before := Scan(m, group, source, n - 1);
      forall i | 0 <= i < |before| ensures before[i] < n - 1 {
        assert before[i] in before;
      }
    }
  }

  ghost function MatchesOf(s: State, reading: Reading): seq<Id> {
    Scan(JoinedOn(s.subs, reading.key), reading.captured.group, reading.captured.sourceIp, s.nextId)
  }

  // ---------------------------------------------------------------- add and remove

  /** The capture key cached for a selector: that of any stored subscription
      with the selector. */
  ghost function CachedKey(subs: Subscriptions, selector: Selector): Option<CaptureKey> {
    if exists id :: id in subs && SelectorOf(subs[id].config) == selector then
      var id :| id in subs && SelectorOf(subs[id].config) == selector;
      Some(subs[id].key)
    else None
  }

  ghost function ResolveKey(subs: Subscriptions, config: RawConfig, lookup: Option<U32>): Option<CaptureKey> {
    match CachedKey(subs, SelectorOf(config))
    case Some(key) => Some(key)
    case None =>
      match lookup
      case Some(index) => Some(CaptureKey(config.Family(), index))
      case None => None
  }

  /** add_subscription; `lookup` is the outcome of the interface lookup, used
      when the selector is not cached. */
  ghost function Add(s: State, config: RawConfig, lookup: Option<U32>): (State, Result<Id, McrxError>) {
    if config.Validate().Err? then (s, Err(config.Validate().error))
    else if |s.subs| >= s.limits.maxSubscriptions then
      (s, Err(SubscriptionLimitExceeded(s.limits.maxSubscriptions)))
    else
      match ResolveKey(s.subs, config, lookup)
      case None => (s, Err(InterfaceLookupFailed))
      case Some(key) =>
        (s.(subs := s.subs[s.nextId := Subscription(config, key, false)], nextId := s.nextId + 1), Ok(s.nextId))
  }

  /** join_subscription; `openOk` and `joinOk` are the outcomes of opening a
      capture socket and of the kernel join. */
  ghost function Join(s: State, id: Id, openOk: bool, joinOk: bool): (State, Result<(), McrxError>) {
    if id !in s.subs then (s, Err(SubscriptionNotFound))
    else if s.subs[id].joined then (s, Err(SubscriptionAlreadyJoined))
    else
      var sub := s.subs[id];
      var key, mk := sub.key, MembershipKeyOf(sub.config);
      var isOpen := key in s.kernel;
      if !isOpen && !openOk then (s, Err(SocketOpenFailed))
      else
        var installed := if isOpen then s.kernel[key] else map[];
        if mk !in installed && !joinOk then (s, Err(SocketOptionFailed))
        else
          (s.(subs := s.subs[id := sub.(joined := true)],
              order := if isOpen then s.order else s.order + [key],
              kernel := s.kernel[key := if mk in installed then installed else installed[mk := sub.config]],
              wire := if isOpen then s.wire else s.wire[key := []]),
           Ok(()))
  }

  /** A list with the first occurrence of `x` taken out. */
  function WithoutFirst<T(==)>(xs: seq<T>, x: T): seq<T> {
    if xs == [] then []
    else if xs[0] == x then xs[1..]
    else [xs[0]] + WithoutFirst(xs[1..], x)
  }

  function WrapCursor(cursor: nat, n: nat): nat {
    if n == 0 then 0 else cursor % n
  }

  /** remove_capture: the socket closes, and with it everything it had installed
      or not yet delivered. */
  function CloseCapture(s: State, key: CaptureKey): State {
    var order := WithoutFirst(s.order, key);
    s.(order := order, cursor := WrapCursor(s.cursor, |order|), kernel := s.kernel - {key}, wire := s.wire - {key})
  }

  /** Re-addresses a packet to another subscription. */
  function Restamp(packet: RawPacket, id: Id, c: RawConfig): RawPacket {
    packet.(subscriptionId := id, metadata := packet.metadata.(
      configuredInterface := c.interface, configuredInterfaceIndex := c.interfaceIndex))
  }

  /** What leaving does to one queued packet: untouched, dropped when the leaver
      was its only match, else re-addressed to the first remaining match. */
  ghost function PurgeOne(q: Queued, id: Id, subs: Subscriptions): Option<Queued> {
    if id !in q.ids then Some(q)
    else if |q.ids| == 1 then None
    else
      var ids := WithoutFirst(q.ids, id);
      if ids != [] && q.packet.subscriptionId != ids[0] && ids[0] in subs then
        Some(q.(ids := ids, packet := Restamp(q.packet, ids[0], subs[ids[0]].config)))
      else Some(q.(ids := ids))
  }

  ghost function Purge(pending: seq<Queued>, id: Id, subs: Subscriptions): seq<Queued> {
    if pending == [] then []
    else
      (match PurgeOne(pending[0], id, subs)
       case Some(q) => [q]
       case None => []) + Purge(pending[1..], id, subs)
  }

  ghost function Serials(pending: seq<Queued>): set<nat> {
    set q | q in pending :: q.serial
  }

  function SerialSeq(pending: seq<Queued>): seq<nat> {
    seq(|pending|, i requires 0 <= i < |pending| => pending[i].serial)
  }

  /** leave_subscription; `leaveOk` is the outcome of the kernel leave, attempted
      when this is the last subscription of its kernel membership. */
  ghost function Leave(s: State, id: Id, leaveOk: bool): (State, Result<(), McrxError>) {
    if id !in s.subs then (s, Err(SubscriptionNotFound))
    else if !s.subs[id].joined then (s, Err(SubscriptionNotJoined))
    else
      var sub := s.subs[id];
      var key, mk := sub.key, MembershipKeyOf(sub.config);
      var subs := s.subs[id := sub.(joined := false)];
      var last := !HasMember(subs, key, mk);
      if last && !leaveOk then (s, Err(SocketOptionFailed))
      else
        var pending := Purge(s.pending, id, subs);
        var installed := if key in s.kernel then s.kernel[key] else map[];
        var left := s.(
          subs := subs,
          pending := pending,
          kernel := s.kernel[key := if last then installed - {mk} else installed],
          purged := s.purged + (Serials(s.pending) - Serials(pending)));
        (if HasJoined(subs, key) then left else CloseCapture(left, key), Ok(()))
  }

  /** remove_subscription. */
  ghost function Remove(s: State, id: Id, leaveOk: bool): (State, Result<bool, McrxError>) {
    if id !in s.subs then (s, Ok(false))
    else
      var (left, r) := if s.subs[id].joined then Leave(s, id, leaveOk) else (s, Ok(()));
      match r
      case Err(e) => (left, Err(e))
      case Ok(_) => (left.(subs := left.subs - {id}), Ok(true))
  }

  // ---------------------------------------------------------------- receive

  /** One receive on a capture socket that reports a datagram: it joins the log,
      and is queued for all its matches or counted as unmatched. */
  ghost function TakeReading(s: State, reading: Reading, rest: seq<Event>): (State, bool) {
    var m, ids := JoinedOn(s.subs, reading.key), MatchesOf(s, reading);
    var serial := |s.log|;
    var read := s.(wire := s.wire[reading.key := rest], log := s.log + [reading]);
    if ids == [] then (read.(unmatched := s.unmatched + {serial}), false)
    else
      ScanExact(m, reading.captured.group, reading.captured.sourceIp, s.nextId);
      assert ids[0] in ids;
      var packet := RawPacketFromCaptured(ids[0], m[ids[0]], reading.captured);
      (read.(pending := s.pending + [Queued(packet, ids, serial)]), true)
  }

  /** How one capture's turn in a fill ends. */
  datatype Turn = Exhausted(queued: nat, captured: nat) | TargetMet(queued: nat) | Failed

  function Head(s: State, key: CaptureKey): Event {
    if key in s.wire && s.wire[key] != [] then s.wire[key][0] else Blocked
  }

  function Popped(s: State, key: CaptureKey): State {
    if key in s.wire && s.wire[key] != [] then s.(wire := s.wire[key := s.wire[key][1..]]) else s
  }

  /** The inner loop of fill_pending: up to `turns` receives on one capture. */
  ghost function FillFrom(s: State, key: CaptureKey, turns: nat, target: nat, budget: nat, queued: nat, captured: nat)
    : (State, Turn)
    decreases turns
  {
    if turns == 0 then (s, Exhausted(queued, captured))
    else if queued == target || captured == budget then (s, TargetMet(queued))
    else
      match Head(s, key)
      case Fault => (Popped(s, key), Failed)
      case Blocked => (Popped(s, key), Exhausted(queued, captured))
      case Got(datagram) =>
        var (taken, matched) := TakeReading(s, Reading(key, datagram), Popped(s, key).wire[key]);
        FillFrom(taken, key, turns - 1, target, budget, if matched then queued + 1 else queued, captured + 1)
  }

  /** The outer loop of fill_pending: `left` captures still to visit, each visit
      advancing the cursor first. */
  ghost function FillCaptures(s: State, left: nat, target: nat, budget: nat, queued: nat, captured: nat)
    : (State, Result<nat, McrxError>)
    decreases left
  {
    if left == 0 || s.cursor >= |s.order| then (s, Ok(queued))
    else
      var key := s.order[s.cursor];
      var advanced := s.(cursor := (s.cursor + 1) % |s.order|);
      match FillFrom(advanced, key, target, target, budget, queued, captured)
      case (s', Exhausted(q, c)) => FillCaptures(s', left - 1, target, budget, q, c)
      case (s', TargetMet(q)) => (s', Ok(q))
      case (s', Failed) => (s', Err(ReceiveFailed))
  }

  function FillTarget(s: State, max: nat): nat {
    var room := if s.limits.maxPending >= |s.pending| then s.limits.maxPending - |s.pending| else 0;
    if max < room then max else room
  }

  /** fill_pending. */
  ghost function Fill(s: State, max: nat): (State, Result<nat, McrxError>) {
    var target := FillTarget(s, max);
    if s.order == [] || target == 0 then (s, Ok(0))
    else FillCaptures(s, |s.order|, target, target + |s.order|, 0, 0)
  }

  /** Hands the first `n` queued packets to the caller. */
  ghost function Hand(s: State, n: nat): (State, seq<Queued>)
    requires n <= |s.pending|
  {
    (s.(pending := s.pending[n..], delivered := s.delivered + SerialSeq(s.pending[..n])),
     s.pending[..n])
  }

  /** try_recv_any. */
  ghost function Recv(s: State): (State, Result<Option<Queued>, McrxError>) {
    if s.pending != [] then (Hand(s, 1).0, Ok(Some(s.pending[0])))
    else
      match Fill(s, 1)
      case (filled, Err(e)) => (filled, Err(e))
      case (filled, Ok(_)) =>
        if filled.pending == [] then (filled, Ok(None))
        else (Hand(filled, 1).0, Ok(Some(filled.pending[0])))
  }

  function AtMost(n: nat, s: State): nat {
    if n < |s.pending| then n else |s.pending|
  }

  /** The loop of try_recv_batch_into with `wanted` packets still to deliver;
      yields the packets appended and whether the loop ended in an error. */
  ghost function BatchLoop(s: State, wanted: nat): (State, seq<Queued>, Option<McrxError>)
    decreases wanted
  {
    if wanted == 0 then (s, [], None)
    else
      match Fill(s, wanted)
      case (filled, Err(e)) => (filled, [], Some(e))
      case (filled, Ok(0)) => (filled, [], None)
      case (filled, Ok(_)) =>
        var n := AtMost(wanted, filled);
        if n == 0 then (filled, [], None)
        else
          var (handed, first) := Hand(filled, n);
          var (done, rest, e) := BatchLoop(handed, wanted - n);
          (done, first + rest, e)
  }

  /** try_recv_batch_into. */
  ghost function Batch(s: State, max: nat): (State, seq<Queued>, Option<McrxError>) {
    if max == 0 then (s, [], None)
    else
      var n := AtMost(max, s);
      var (handed, first) := Hand(s, n);
      var (done, rest, e) := BatchLoop(handed, max - n);
      (done, first + rest, e)
  }
}
