/** The filtered receive loops (src/platform/raw.rs, src/platform/mod.rs): read
    datagrams off a non-blocking socket until one passes the userspace filter, the
    socket is empty or fails, or 256 datagrams in a row were dropped. */
module ReceiveLoop {
  import opened Wrappers
  import opened Net
  import opened Config
  import opened IpParsing
  import opened Packets

  /** MAX_RAW_FILTERED_READS_PER_RECV and MAX_FILTERED_DATAGRAMS_PER_RECEIVE. */
  const FILTER_BUDGET: nat := 256

  /** What is waiting on a socket. */
  datatype Arrival<D> = Datagram(datagram: D) | SocketError

  /** The userspace filter's decision on one datagram. */
  datatype Verdict<P> = Deliver(packet: P) | Drop | Fail(error: McrxError)

  type Outcome<P> = Result<Option<P>, McrxError>

  predicate Dropped<D, P>(a: Arrival<D>, filter: D -> Verdict<P>) {
    a.Datagram? && filter(a.datagram).Drop?
  }

  /** How a call ends on an arrival that is not dropped. */
  function Ends<D, P>(a: Arrival<D>, filter: D -> Verdict<P>): Outcome<P>
    requires !Dropped(a, filter)
  {
    match a
    case SocketError => Err(ReceiveFailed)
    case Datagram(d) =>
      match filter(d)
      case Deliver(packet) => Ok(Some(packet))
      case Fail(e) => Err(e)
  }

  /** One receive call on what is waiting: how many arrivals it consumes, and what
      it reports. */
  ghost predicate Receives<D, P>(queue: seq<Arrival<D>>, filter: D -> Verdict<P>, consumed: nat, r: Outcome<P>) {
    && consumed <= |queue|
    && (if r == Ok(None) then
          && (forall i :: 0 <= i < consumed ==> Dropped(queue[i], filter))
          && (consumed == |queue| < FILTER_BUDGET || consumed == FILTER_BUDGET)
        else
          && 0 < consumed <= FILTER_BUDGET
          && (forall i :: 0 <= i < consumed - 1 ==> Dropped(queue[i], filter))
          && !Dropped(queue[consumed - 1], filter)
          && r == Ends(queue[consumed - 1], filter))
  }

  /** The loop of recv_raw_packet, recv_shared_raw_datagram and
      recv_packet_with_metadata. */
  method Receive<D, P>(queue: seq<Arrival<D>>, filter: D -> Verdict<P>) returns (consumed: nat, r: Outcome<P>)
    ensures Receives(queue, filter, consumed, r)
    ensures consumed <= 256 && (r == Ok(None) ==> consumed == |queue| || consumed == 256)
    ensures consumed > 0 && queue[consumed - 1].SocketError? ==> r == Err(ReceiveFailed)
  {
    consumed := 0;
    var filtered := 0;
    while consumed < |queue|
      invariant filtered == consumed <= |queue| && consumed < FILTER_BUDGET
      invariant forall i :: 0 <= i < consumed ==> Dropped(queue[i], filter)
    {
      var arrival := queue[consumed];
      consumed := consumed + 1;
      if arrival.SocketError? {
        return consumed, Err(ReceiveFailed);
      }
      match filter(arrival.datagram) {
        case Deliver(packet) => return consumed, Ok(Some(packet));
        case Fail(e) => return consumed, Err(e);
        case Drop =>
          filtered := filtered + 1;
          if filtered >= FILTER_BUDGET {
            return consumed, Ok(None);
          }
      }
    }
    return consumed, Ok(None);
  }

  // ---------------------------------------------------------------- runs

  /** The packet one arrival delivers, if any. */
  function Front<D, P>(a: Arrival<D>, filter: D -> Verdict<P>): seq<P> {
    if a.Datagram? && filter(a.datagram).Deliver? then [filter(a.datagram).packet] else []
  }

  /** The packets a stream of arrivals delivers. */
  function Filtered<D, P>(arrivals: seq<Arrival<D>>, filter: D -> Verdict<P>): seq<P> {
    if arrivals == [] then [] else Front(arrivals[0], filter) + Filtered(arrivals[1..], filter)
  }

  lemma {:induction false} FilteredConcat<D, P>(a: seq<Arrival<D>>, b: seq<Arrival<D>>, filter: D -> Verdict<P>)
    ensures Filtered(a + b, filter) == Filtered(a, filter) + Filtered(b, filter)
    decreases a
  {
    hide Front;
    if a == [] {
      assert a + b == b;
    } else {
      FilteredConcat(a[1..], b, filter);
      assert (a + b)[0] == a[0] && (a + b)[1..] == a[1..] + b;
      assert Filtered(a + b, filter) == Front(a[0], filter) + Filtered((a + b)[1..], filter);
    }
  }

  lemma {:induction false} FilteredDropped<D, P>(a: seq<Arrival<D>>, filter: D -> Verdict<P>)
    requires forall i :: 0 <= i < |a| ==> Dropped(a[i], filter)
    ensures Filtered(a, filter) == []
    decreases a
  {
    if a != [] {
      FilteredDropped(a[1..], filter);
    }
  }

  /** What a call reports is the filtered form of what it consumes. */
  lemma CallFilters<D, P>(queue: seq<Arrival<D>>, filter: D -> Verdict<P>, consumed: nat, r: Outcome<P>)
    requires Receives(queue, filter, consumed, r)
    ensures Filtered(queue[..consumed], filter) == if r.Ok? && r.value.Some? then [r.value.value] else []
  {
    if r == Ok(None) {
      FilteredDropped(queue[..consumed], filter);
    } else {
      var before, last := queue[..consumed - 1], queue[consumed - 1];
      assert queue[..consumed] == before + [last];
      FilteredDropped(before, filter);
      FilteredConcat(before, [last], filter);
      assert Filtered([last], filter) == if r.Ok? then [r.value.value] else [];
    }
  }

  /** A socket's life: everything that ever arrived, how much of it was consumed,
      and the packets handed over. */
  datatype Socket<D, P> = Socket(arrived: seq<Arrival<D>>, consumed: nat, delivered: seq<P>)

  /** One event of a run: more arrivals, or a receive call that consumes that much
      and reports that. */
  datatype Event<D, P> = Arrive(more: seq<Arrival<D>>) | Call(consumed: nat, outcome: Outcome<P>)

  function After<D, P>(s: Socket<D, P>, e: Event<D, P>): Socket<D, P> {
    match e
    case Arrive(more) => s.(arrived := s.arrived + more)
    case Call(consumed, r) =>
      s.(consumed := s.consumed + consumed,
         delivered := s.delivered + (if r.Ok? && r.value.Some? then [r.value.value] else []))
  }

  /** A run in which every call behaves as the loop does on what is waiting. */
  ghost predicate IsRun<D, P>(s: Socket<D, P>, events: seq<Event<D, P>>, filter: D -> Verdict<P>)
    requires s.consumed <= |s.arrived|
    decreases events
  {
    events == [] ||
    (&& (events[0].Call? ==> Receives(s.arrived[s.consumed..], filter, events[0].consumed, events[0].outcome))
     && IsRun(After(s, events[0]), events[1..], filter))
  }

  function End<D, P>(s: Socket<D, P>, events: seq<Event<D, P>>): Socket<D, P>
    decreases events
  {
    if events == [] then s else End(After(s, events[0]), events[1..])
  }

  /** Over any run of calls and arrivals, the packets delivered are exactly the
      filtered form of the arrivals consumed, in order, each once, also when some
      calls end in errors. */
  lemma {:induction false} RunFilters<D, P>(s: Socket<D, P>, events: seq<Event<D, P>>, filter: D -> Verdict<P>)
    requires s.consumed <= |s.arrived| && IsRun(s, events, filter)
    requires s.delivered == Filtered(s.arrived[..s.consumed], filter)
    ensures var end := End(s, events);
      && end.consumed <= |end.arrived| && s.arrived <= end.arrived
      && end.delivered == Filtered(end.arrived[..end.consumed], filter)
    decreases events
  {
    hide Filtered, Receives;
    if events != [] {
      var next := After(s, events[0]);
      EventFilters(s, events[0], filter);
      RunFilters(next, events[1..], filter);
    }
  }

  lemma EventFilters<D, P>(s: Socket<D, P>, e: Event<D, P>, filter: D -> Verdict<P>)
    requires s.consumed <= |s.arrived| && s.delivered == Filtered(s.arrived[..s.consumed], filter)
    requires e.Call? ==> Receives(s.arrived[s.consumed..], filter, e.consumed, e.outcome)
    ensures var next := After(s, e);
      && next.consumed <= |next.arrived| && s.arrived <= next.arrived
      && next.delivered == Filtered(next.arrived[..next.consumed], filter)
  {
    hide Filtered;
    var next := After(s, e);
    match e {
      case Arrive(more) =>
        assert next.arrived[..next.consumed] == s.arrived[..s.consumed];
      case Call(consumed, r) =>
        var queue := s.arrived[s.consumed..];
        CallFilters(queue, filter, consumed, r);
        assert next.arrived[..next.consumed] == s.arrived[..s.consumed] + queue[..consumed];
        FilteredConcat(s.arrived[..s.consumed], queue[..consumed], filter);
    }
  }

  // ---------------------------------------------------------------- the filters

  /** A datagram as read from a capture socket, with the interface it came in on. */
  datatype RawRead = RawRead(bytes: seq<Byte>, ifindex: int)

  function Ingress(ifindex: int): Option<U32> {
    if 0 < ifindex < 0x1_0000_0000 then Some(ifindex) else None
  }

  /** The filter of the per-subscription raw receive. */
  function RawFilter(id: SubscriptionId, c: RawConfig, read: RawRead): Verdict<RawPacket> {
    match ParseIp(read.bytes)
    case None => Drop
    case Some(p) =>
      ParsedBounds(read.bytes);
      if PacketMatchesConfig(p, c)
      then Deliver(RawPacketFromParts(id, read.bytes, p, c, Ingress(read.ifindex)))
      else Drop
  }

  /** The filter of the shared raw receive: any datagram of the capture's family. */
  function SharedFilter(family: Family, read: RawRead): Verdict<Captured> {
    match ParseIp(read.bytes)
    case None => Drop
    case Some(p) =>
      ParsedBounds(read.bytes);
      if p.destination.Family() == family
      then Deliver(Captured(read.bytes[..p.length], p.source, p.destination, p.protocol, Ingress(read.ifindex)))
      else Drop
  }

  /** The per-subscription filter never fails and delivers exactly the datagrams that
      parse, are addressed to the group and, if the config names a source, come from it;
      what it delivers is the datagram trimmed to its IP length, with its addresses and
      protocol, the interface asked for and the one it came in on, if that is known. */
  lemma RawFilterExactly(id: SubscriptionId, c: RawConfig, read: RawRead)
    ensures !RawFilter(id, c, read).Fail?
    ensures RawFilter(id, c, read).Deliver? <==>
      && ParseIp(read.bytes).Some?
      && ParseIp(read.bytes).value.destination == c.group
      && c.source in {Any, Source(ParseIp(read.bytes).value.source)}
    ensures RawFilter(id, c, read).Deliver? ==>
      var p, parsed := RawFilter(id, c, read).packet, ParseIp(read.bytes).value;
      && parsed.length <= |read.bytes| && p.datagram == read.bytes[..parsed.length]
      && p.subscriptionId == id && p.sourceIp == Some(parsed.source) && p.group == Some(parsed.destination)
      && p.ipProtocol == Some(parsed.protocol)
      && p.metadata == ReceiveMetadata(c.interface, c.interfaceIndex, Some(c.group),
           if 1 <= read.ifindex <= 0xffff_ffff then Some(read.ifindex) else None)
  {
    if ParseIp(read.bytes).Some? {
      ParsedBounds(read.bytes);
    }
  }

  /** The shared filter delivers exactly the datagrams that parse in its family, with
      their own fields. */
  lemma SharedFilterExactly(family: Family, read: RawRead)
    ensures !SharedFilter(family, read).Fail?
    ensures SharedFilter(family, read).Deliver? <==>
      ParseIp(read.bytes).Some? && read.bytes[0] / 16 == (if family == Ipv4 then 4 else 6)
    ensures SharedFilter(family, read).Deliver? ==>
      var captured, parsed := SharedFilter(family, read).packet, ParseIp(read.bytes).value;
      && parsed.length <= |read.bytes|
      && captured == Captured(read.bytes[..parsed.length], parsed.source, parsed.destination, parsed.protocol,
           if 1 <= read.ifindex <= 0xffff_ffff then Some(read.ifindex) else None)
  {
    if ParseIp(read.bytes).Some? {
      ParsedBounds(read.bytes);
    }
  }

  /** A delivered raw packet is addressed to its subscription's group, comes from
      its source if it has one, and carries a complete datagram that parses to
      exactly the addresses and protocol it reports. */
  lemma RawDeliveryReparses(id: SubscriptionId, c: RawConfig, read: RawRead)
    requires RawFilter(id, c, read).Deliver?
    ensures var p := RawFilter(id, c, read).packet;
      && p.subscriptionId == id && p.group == Some(c.group)
      && (c.source.Source? ==> p.sourceIp == Some(c.source.addr))
      && ParseIp(p.datagram).Some?
      && ParseIp(p.datagram).value.length == |p.datagram|
      && Some(ParseIp(p.datagram).value.source) == p.sourceIp
      && Some(ParseIp(p.datagram).value.protocol) == p.ipProtocol
      && p.datagram <= read.bytes
  {
    var parsed := ParseIp(read.bytes).value;
    ParsedBounds(read.bytes);
    ParseStable(read.bytes, read.bytes[..parsed.length]);
  }

  /** So does a captured one, for the capture's family; the shared engine may index
      it by the addresses it reports. */
  lemma SharedDeliveryReparses(family: Family, read: RawRead)
    requires SharedFilter(family, read).Deliver?
    ensures var captured := SharedFilter(family, read).packet;
      && captured.group.Family() == captured.sourceIp.Family() == family
      && ParseIp(captured.datagram)
         == Some(ParsedIp(captured.sourceIp, captured.group, captured.protocol, |captured.datagram|))
      && captured.datagram <= read.bytes
  {
    var parsed := ParseIp(read.bytes).value;
    ParsedBounds(read.bytes);
    ParseStable(read.bytes, read.bytes[..parsed.length]);
  }

  /** A UDP datagram as read, with its source (none when it is not an IP address)
      and the metadata recovered from its control messages. */
  datatype UdpRead = UdpRead(source: Option<IpAddr>, metadata: ReceiveMetadata, payload: seq<Byte>)

  /** packet_matches_subscription. */
  function PacketMatchesSubscription(source: IpAddr, metadata: ReceiveMetadata, c: SubscriptionConfig)
    : Result<bool, McrxError>
  {
    if metadata.destinationLocalIp.None? then Err(ReceiveMetadataUnavailable)
    else if metadata.destinationLocalIp.value != c.group then Ok(false)
    else if c.source.Source? && source != c.source.addr then Ok(false)
    else if c.interfaceIndex.Some? && metadata.ingressInterfaceIndex != c.interfaceIndex then Ok(false)
    else Ok(true)
  }

  function UdpFilter(c: SubscriptionConfig, read: UdpRead): Verdict<UdpRead> {
    if read.source.None? then Fail(NonIpSocketAddress)
    else
      match PacketMatchesSubscription(read.source.value, read.metadata, c)
      case Err(e) => Fail(e)
      case Ok(matches) => if matches then Deliver(read) else Drop
  }

  /** The UDP filter errs exactly when the source or the destination metadata is
      missing; otherwise it delivers, unchanged, exactly the datagrams sent to the group,
      from the source and on the interface the subscription names. */
  lemma UdpFilterExactly(c: SubscriptionConfig, read: UdpRead)
    ensures UdpFilter(c, read).Fail? <==> read.source.None? || read.metadata.destinationLocalIp.None?
    ensures UdpFilter(c, read).Deliver? <==>
      && read.source.Some? && read.metadata.destinationLocalIp == Some(c.group)
      && (c.source.Source? ==> read.source == Some(c.source.addr))
      && (c.interfaceIndex.Some? ==> read.metadata.ingressInterfaceIndex == c.interfaceIndex)
    ensures UdpFilter(c, read).Deliver? ==> UdpFilter(c, read).packet == read
    ensures UdpFilter(c, read).Fail? ==>
      UdpFilter(c, read).error == if read.source.None? then NonIpSocketAddress else ReceiveMetadataUnavailable
  {
  }

  /** With source and destination metadata on everything that arrives and no socket
      errors, a call returns an error never, and nothing only when the socket is
      empty or the budget of 256 dropped datagrams is spent. */
  lemma UdpReturnsNothingOnlyWhenSpent(
    c: SubscriptionConfig, queue: seq<Arrival<UdpRead>>, consumed: nat, r: Outcome<UdpRead>)
    requires Receives(queue, read => UdpFilter(c, read), consumed, r)
    requires forall i :: 0 <= i < |queue| ==>
      queue[i].Datagram? && queue[i].datagram.source.Some? && queue[i].datagram.metadata.destinationLocalIp.Some?
    ensures r.Ok?
    ensures r == Ok(None) ==> consumed == |queue| || consumed == 256
    ensures r != Ok(None) ==> consumed > 0 && r.value == Some(queue[consumed - 1].datagram)
  {
    if r != Ok(None) {
      UdpFilterExactly(c, queue[consumed - 1].datagram);
    }
  }
}
