/** The macOS BPF capture-block walker (src/platform/raw.rs). */
module AppleBlock {
  import opened Wrappers
  import opened Net
  import opened Bits
  import opened Config
  import opened IpParsing
  import opened Packets
  import opened Ethernet

  /** Offset of `bh_hdrlen` (16) plus its size; `bh_caplen` is at offset 8. */
  const HEADER_FIELDS_LEN: nat := 18
  const CAPLEN_OFFSET: nat := 8
  const HDRLEN_OFFSET: nat := 16

  /** BPF_ALIGNMENT. */
  const ALIGNMENT: nat := 4

  function Le16(b: seq<Byte>, at: nat): nat
    requires at + 2 <= |b|
  {
    b[at] + 256 * (b[at + 1] as int)
  }

  function Le32(b: seq<Byte>, at: nat): nat
    requires at + 4 <= |b|
  {
    Le16(b, at) + 65536 * Le16(b, at + 2)
  }

  /** The least multiple of ALIGNMENT not below `length`. */
  function Padded(length: nat): (r: nat)
    ensures length <= r < length + 4 && r % 4 == 0
  {
    (length + 3) / 4 * 4
  }

  /** The mask form of alignment is rounding up, on any word wide enough. */
  lemma MaskAligns(value: nat, width: nat)
    requires value < 0x1_0001_0000 && 40 <= width
    ensures ALIGNMENT <= Pow2(width)
    ensures AlignMask(value, ALIGNMENT, width) == Padded(value)
  {
    assert Pow2(2) == 4;
    assert Pow2(10) == 1024;
    Pow2Add(10, 10);
    Pow2Add(20, 20);
    Pow2Monotone(40, width);
    AlignMaskIsRoundUp(value, 2, width);
  }

  /** bpf_word_align. */
  method BpfWordAlign(value: nat) returns (r: nat)
    requires value < 0x1_0001_0000
    ensures r == Padded(value)
  {
    var width := USIZE_BITS;
    MaskAligns(value, width);
    r := AlignMask(value, ALIGNMENT, width);
  }

  /** read_apple_bpf_record_header: header length and captured length. */
  function ReadHeader(block: seq<Byte>, offset: nat): Option<(nat, nat)> {
    if offset + HEADER_FIELDS_LEN > |block| then None
    else Some((Le16(block, offset + HDRLEN_OFFSET), Le32(block, offset + CAPLEN_OFFSET)))
  }

  /** The receiving subscription: what a walk filters for and stamps on packets. */
  datatype Receiver = Receiver(link: Datalink, ingress: Option<U32>, id: SubscriptionId, config: RawConfig)

  /** What one captured frame yields. */
  function FromFrame(r: Receiver, frame: seq<Byte>): Result<Option<RawPacket>, McrxError> {
    match StripLink(r.link, frame)
    case Err(e) => Err(e)
    case Ok(None) => Ok(None)
    case Ok(Some(datagram)) =>
      match ParseIp(datagram)
      case None => Ok(None)
      case Some(p) =>
        if PacketMatchesConfig(p, r.config) then Ok(Some(RawPacketFromParts(r.id, datagram, p, r.config, r.ingress)))
        else Ok(None)
  }

  /** A packet reports this datagram: trimmed to its IP length, with its addresses and
      protocol, addressed to the receiver, with the interface it asked for and the one
      it listens on. */
  predicate ReportsDatagram(p: RawPacket, r: Receiver, datagram: seq<Byte>) {
    && ParseIp(datagram).Some?
    && ParseIp(datagram).value.length <= |datagram|
    && var parsed := ParseIp(datagram).value;
       && p.subscriptionId == r.id
       && p.datagram == datagram[..parsed.length]
       && p.sourceIp == Some(parsed.source)
       && p.group == Some(parsed.destination) == Some(r.config.group)
       && p.ipProtocol == Some(parsed.protocol)
       && p.metadata.configuredInterface == r.config.interface
       && p.metadata.configuredInterfaceIndex == r.config.interfaceIndex
       && p.metadata.destinationLocalIp == Some(parsed.destination)
       && p.metadata.ingressInterfaceIndex == r.ingress
  }

  /** A frame of a supported link layer that yields this packet. */
  predicate ReportsFrame(p: RawPacket, r: Receiver, frame: seq<Byte>) {
    && Delivers(r.link, r.config, frame)
    && ReportsDatagram(p, r, StripLink(r.link, frame).value.value)
  }

  /** What one frame yields, in terms of the bytes behind the link layer: an error
      exactly on an unsupported link layer, else a packet exactly when those bytes parse
      to a datagram for the receiver, and then that datagram's. */
  lemma FrameExactly(r: Receiver, frame: seq<Byte>)
    ensures FromFrame(r, frame).Err? <==> r.link.Other?
    ensures FromFrame(r, frame).Err? ==> FromFrame(r, frame) == Err(UnsupportedDatalink)
    ensures FromFrame(r, frame).Ok? ==>
      (FromFrame(r, frame).value.Some? <==> Delivers(r.link, r.config, frame))
    ensures FromFrame(r, frame).Ok? && FromFrame(r, frame).value.Some? ==>
      ReportsFrame(FromFrame(r, frame).value.value, r, frame)
  {
    var stripped := StripLink(r.link, frame);
    if stripped.Ok? && stripped.value.Some? && ParseIp(stripped.value.value).Some? {
      ParsedBounds(stripped.value.value);
    }
  }

  /** Where the two fields of a capture header stand: after the 8 bytes of the time
      stamp the captured length, in 4 bytes, and behind the 4 of the packet's own
      length the header length, in 2, least significant byte first. */
  lemma HeaderFields(block: seq<Byte>, offset: nat)
    ensures ReadHeader(block, offset).Some? <==> offset + 18 <= |block|
    ensures ReadHeader(block, offset).Some? ==>
      var (header, captured) := ReadHeader(block, offset).value;
      && header == block[offset + 16] + 0x100 * (block[offset + 17] as int)
      && captured == block[offset + 8] + 0x100 * (block[offset + 9] as int)
                     + 0x1_0000 * (block[offset + 10] as int) + 0x100_0000 * (block[offset + 11] as int)
  {
  }

  /** What each captured frame yields. */
  type Deliverer = seq<Byte> -> Result<Option<RawPacket>, McrxError>

  function Deliver(r: Receiver): Deliverer {
    frame => FromFrame(r, frame)
  }

  /** The outcome of one walk: an error, the end of the block, or the first
      matching packet; the last two with the offset to resume from. */
  datatype WalkResult =
    | Failed(error: McrxError)
    | Finished(next: nat)
    | Found(packet: RawPacket, next: nat)

  function Walk(block: seq<Byte>, offset: nat, deliver: Deliverer): (r: WalkResult)
    ensures r.Found? ==> offset < r.next
    decreases |block| - offset
  {
    match ReadHeader(block, offset)
    case None => Finished(offset)
    case Some((header, captured)) =>
      if header < HEADER_FIELDS_LEN || offset + header + captured > |block| then Finished(|block|)
      else
        var next := offset + Padded(header + captured);
        var outcome := deliver(block[offset + header..offset + header + captured]);
        if outcome == Ok(None) then Walk(block, next, deliver) else Stop(outcome, next)
  }

  /** How a walk ends after a frame that failed or yielded a packet. */
  function Stop(outcome: Result<Option<RawPacket>, McrxError>, next: nat): WalkResult {
    match outcome
    case Err(e) => Failed(e)
    case Ok(Some(p)) => Found(p, next)
    case Ok(None) => Finished(next)
  }

  /** One iteration of a walk. */
  lemma WalkStep(
    block: seq<Byte>, offset: nat, deliver: Deliverer, header: nat, captured: nat, walk: WalkResult)
    requires ReadHeader(block, offset) == Some((header, captured))
    requires walk == Walk(block, offset, deliver)
    ensures header < HEADER_FIELDS_LEN || offset + header + captured > |block| ==> walk == Finished(|block|)
    ensures header >= HEADER_FIELDS_LEN && offset + header + captured <= |block| ==>
      var next := offset + Padded(header + captured);
      var outcome := deliver(block[offset + header..offset + header + captured]);
      walk == if outcome == Ok(None) then Walk(block, next, deliver) else Stop(outcome, next)
  {
  }

  lemma WalkEnds(block: seq<Byte>, offset: nat, deliver: Deliverer)
    requires offset + HEADER_FIELDS_LEN > |block|
    ensures Walk(block, offset, deliver) == Finished(offset)
  {
  }

  /** next_matching_apple_bpf_packet. None of the source's checked additions can
      overflow: the fields are 16 and 32 bits wide and a slice is shorter than
      half the address space. */
  method NextMatching(block: seq<Byte>, start: nat, r: Receiver) returns (result: WalkResult)
    ensures result == Walk(block, start, Deliver(r))
  {
    hide Walk, FromFrame;
    var offset := start;
    while offset + HEADER_FIELDS_LEN <= |block|
      invariant Walk(block, offset, Deliver(r)) == Walk(block, start, Deliver(r))
      decreases |block| - offset
    {
      var header, captured := Le16(block, offset + HDRLEN_OFFSET), Le32(block, offset + CAPLEN_OFFSET);
      WalkStep(block, offset, Deliver(r), header, captured, Walk(block, offset, Deliver(r)));
      var aligned := BpfWordAlign(header + captured);
      var next := offset + aligned;
      if header < HEADER_FIELDS_LEN {
        return Finished(|block|);
      }
      var dataStart := offset + header;
      var dataEnd := dataStart + captured;
      if dataEnd > |block| {
        return Finished(|block|);
      }
      var outcome := DeliverFrame(r, block[dataStart..dataEnd]);
      match outcome {
        case Err(e) => return Failed(e);
        case Ok(Some(p)) => return Found(p, next);
        case Ok(None) => offset := next;
      }
    }
    WalkEnds(block, offset, Deliver(r));
    return Finished(offset);
  }

  /** The loop body's treatment of one frame: strip, parse, match. */
  method DeliverFrame(r: Receiver, frame: seq<Byte>) returns (o: Result<Option<RawPacket>, McrxError>)
    ensures o == Deliver(r)(frame)
    ensures if r.link.Other? then o == Err(UnsupportedDatalink) else o.Ok?
    ensures o.Ok? ==> (o.value.Some? <==> Delivers(r.link, r.config, frame))
    ensures o.Ok? && o.value.Some? ==> ReportsFrame(o.value.value, r, frame)
  {
    FrameExactly(r, frame);
    var stripped: Result<Option<seq<Byte>>, McrxError>;
    if r.link == Ethernet {
      var s := StripEthernet(frame);
      stripped := Ok(s);
    } else {
      stripped := StripLink(r.link, frame);
    }
    match stripped {
      case Err(e) => return Err(e);
      case Ok(None) => return Ok(None);
      case Ok(Some(datagram)) =>
        match ParseIp(datagram) {
          case None => return Ok(None);
          case Some(p) =>
            if PacketMatchesConfig(p, r.config) {
              ParsedBounds(datagram);
              return Ok(Some(RawPacketFromParts(r.id, datagram, p, r.config, r.ingress)));
            }
            return Ok(None);
        }
    }
  }

  /** A whole record lies at `at`, its frame yields the packet, and the walk
      resumes at the word boundary behind it. */
  ghost predicate IsRecordOf(
    block: seq<Byte>, at: nat, header: nat, captured: nat, deliver: Deliverer, found: WalkResult)
  {
    && HEADER_FIELDS_LEN <= header && at + header + captured <= |block|
    && ReadHeader(block, at) == Some((header, captured))
    && found.Found?
    && found.next == at + Padded(header + captured)
    && deliver(block[at + header..at + header + captured]) == Ok(Some(found.packet))
  }

  /** On any bytes, a walk that returns a packet has moved strictly forward, past
      a whole record lying inside the block, and returns that record's packet. */
  lemma {:induction false} WalkProgress(block: seq<Byte>, offset: nat, deliver: Deliverer, found: WalkResult)
    returns (at: nat, header: nat, captured: nat)
    requires found == Walk(block, offset, deliver) && found.Found?
    ensures offset <= at < found.next
    ensures IsRecordOf(block, at, header, captured, deliver, found)
    decreases |block| - offset
  {
    var (h, c) := ReadHeader(block, offset).value;
    WalkStep(block, offset, deliver, h, c, found);
    var outcome := deliver(block[offset + h..offset + h + c]);
    if outcome == Ok(None) {
      at, header, captured := WalkProgress(block, offset + Padded(h + c), deliver, found);
    } else {
      at, header, captured := offset, h, c;
    }
  }

  /** A walk that returns no packet has used the block up: no further header fits behind
      where it stops, so the caller reads a new block; a walk fails only on a frame that
      does. */
  lemma {:induction false} WalkUsesUp(block: seq<Byte>, offset: nat, deliver: Deliverer, walk: WalkResult)
    requires walk == Walk(block, offset, deliver)
    ensures walk.Finished? ==> walk.next + 18 > |block|
    ensures walk.Failed? ==> exists frame :: deliver(frame) == Err(walk.error)
    decreases |block| - offset
  {
    hide Walk;
    var fields := ReadHeader(block, offset);
    if fields.None? {
      WalkEnds(block, offset, deliver);
    } else {
      var (h, c) := fields.value;
      WalkStep(block, offset, deliver, h, c, walk);
      if HEADER_FIELDS_LEN <= h && offset + h + c <= |block| {
        var outcome := deliver(block[offset + h..offset + h + c]);
        if outcome == Ok(None) {
          WalkUsesUp(block, offset + Padded(h + c), deliver, walk);
        }
      }
    }
  }

  /** On any bytes a walk for a supported link layer never fails, stops without a packet
      only where no further header fits, and otherwise returns the packet of the datagram
      in a frame for the subscription that stands in the block before the new offset. */
  lemma WalkOutcome(block: seq<Byte>, offset: nat, r: Receiver, walk: WalkResult)
    requires walk == Walk(block, offset, Deliver(r)) && !r.link.Other?
    ensures !walk.Failed?
    ensures walk.Finished? ==> walk.next + 18 > |block|
    ensures walk.Found? ==> exists from: nat, to: nat ::
      offset < from <= to <= |block| && to <= walk.next && ReportsFrame(walk.packet, r, block[from..to])
  {
    hide Walk, FromFrame, ReportsFrame;
    WalkUsesUp(block, offset, Deliver(r), walk);
    if walk.Failed? {
      var frame :| Deliver(r)(frame) == Err(walk.error);
      FrameExactly(r, frame);
    }
    if walk.Found? {
      var at, header, captured := WalkProgress(block, offset, Deliver(r), walk);
      var from, to := at + header, at + header + captured;
      FrameExactly(r, block[from..to]);
      assert ReportsFrame(walk.packet, r, block[from..to]);
    }
  }

  /** Draining a block by repeated calls, as the receive loop does: resume while
      the offset is inside the block, stop at the first call without a packet.
      Strict progress makes it terminate on any bytes. */
  function Drain(block: seq<Byte>, offset: nat, deliver: Deliverer): seq<RawPacket>
    decreases |block| - offset
  {
    if offset >= |block| then []
    else
      match Walk(block, offset, deliver)
      case Failed(_) => []
      case Finished(_) => []
      case Found(p, next) => [p] + Drain(block, next, deliver)
  }

  /** A record as the capture device writes it. */
  datatype Record = Record(header: seq<Byte>, frame: seq<Byte>, padding: seq<Byte>) {

    predicate Valid() {
      && HEADER_FIELDS_LEN <= |header| < 65536
      && |frame| < 0x1_0000_0000
      && Le16(header, HDRLEN_OFFSET) == |header|
      && Le32(header, CAPLEN_OFFSET) == |frame|
    }

    /** Header and frame, rounded up to a word boundary. */
    function Size(): nat {
      Padded(|header| + |frame|)
    }

    function Bytes(): seq<Byte> {
      header + frame + padding
    }
  }

  /** Every record is padded to a word boundary, except that the last one may be
      cut short anywhere in its padding. */
  predicate WellFormedRecords(rs: seq<Record>) {
    rs == [] ||
    (&& rs[0].Valid()
     && |rs[0].Bytes()| <= rs[0].Size()
     && (rs[1..] != [] ==> |rs[0].Bytes()| == rs[0].Size())
     && WellFormedRecords(rs[1..]))
  }

  function Block(rs: seq<Record>): seq<Byte> {
    if rs == [] then [] else rs[0].Bytes() + Block(rs[1..])
  }

  function Yield(outcome: Result<Option<RawPacket>, McrxError>): seq<RawPacket> {
    match outcome
    case Ok(Some(p)) => [p]
    case _ => []
  }

  /** The packets of the matching records, in record order. */
  function Matching(rs: seq<Record>, deliver: Deliverer): seq<RawPacket> {
    if rs == [] then [] else Yield(deliver(rs[0].frame)) + Matching(rs[1..], deliver)
  }

  /** The records whose frames carry a datagram for the config. */
  function Wanted(rs: seq<Record>, link: Datalink, config: RawConfig): seq<Record> {
    if rs == [] then []
    else (if Delivers(link, config, rs[0].frame) then [rs[0]] else []) + Wanted(rs[1..], link, config)
  }

  /** One packet for each of the records, in order, reporting its datagram. */
  ghost predicate ReportsAll(packets: seq<RawPacket>, r: Receiver, rs: seq<Record>) {
    |packets| == |rs| && forall i :: 0 <= i < |rs| ==> ReportsFrame(packets[i], r, rs[i].frame)
  }

  lemma {:induction false} MatchingReports(rs: seq<Record>, r: Receiver)
    requires !r.link.Other?
    ensures ReportsAll(Matching(rs, Deliver(r)), r, Wanted(rs, r.link, r.config))
    decreases rs
  {
    hide FromFrame, Delivers, ReportsFrame;
    if rs != [] {
      MatchingReports(rs[1..], r);
      FrameExactly(r, rs[0].frame);
      assert Deliver(r)(rs[0].frame) == FromFrame(r, rs[0].frame);
    }
  }

  /** Draining a well-formed block yields one packet for each record that carries a
      datagram for the receiver and none for any other, in record order, each reporting
      its datagram field by field. */
  lemma DrainYieldsMatching(rs: seq<Record>, r: Receiver)
    requires WellFormedRecords(rs) && !r.link.Other?
    ensures Drain(Block(rs), 0, Deliver(r)) == Matching(rs, Deliver(r))
    ensures ReportsAll(Drain(Block(rs), 0, Deliver(r)), r, Wanted(rs, r.link, r.config))
  {
    hide ReportsAll, Wanted;
    DrainFrom(Block(rs), 0, rs, Deliver(r), Matching(rs, Deliver(r)));
    MatchingReports(rs, r);
  }

  lemma {:induction false} DrainFrom(
    block: seq<Byte>, at: nat, rs: seq<Record>, deliver: Deliverer, expected: seq<RawPacket>)
    requires WellFormedRecords(rs)
    requires at <= |block| && block[at..] == Block(rs)
    requires forall frame :: deliver(frame).Ok?
    requires expected == Matching(rs, deliver)
    ensures Drain(block, at, deliver) == expected
    decreases rs
  {
    if rs == [] {
    } else {
      var first, rest := rs[0], rs[1..];
      BlockLayout(block, at, first, Block(rest));
      var next := at + first.Size();
      if rest == [] {
        DrainRecord(block, at, first, deliver, next, []);
      } else {
        var tail := Matching(rest, deliver);
        assert |Block(rest)| >= |rest[0].Bytes()| > 0;
        DrainFrom(block, next, rest, deliver, tail);
        DrainRecord(block, at, first, deliver, next, tail);
      }
    }
  }

  /** The block holds the record's header and frame at position `at`. */
  ghost predicate Holds(block: seq<Byte>, at: nat, record: Record) {
    && at + |record.header| + |record.frame| <= |block|
    && block[at..at + |record.header|] == record.header
    && block[at + |record.header|..at + |record.header| + |record.frame|] == record.frame
  }

  lemma BlockLayout(block: seq<Byte>, at: nat, record: Record, rest: seq<Byte>)
    requires at <= |block| && block[at..] == record.Bytes() + rest
    ensures Holds(block, at, record)
    ensures |block| == at + |record.Bytes()| + |rest|
    ensures block[at + |record.Bytes()|..] == rest
  {
    var tail := block[at..];
    var h, n := |record.header|, |record.frame|;
    assert block[at..at + h] == tail[..h] == record.header;
    assert block[at + h..at + h + n] == tail[h..h + n] == record.frame;
    assert block[at + |record.Bytes()|..] == tail[|record.Bytes()|..];
  }

  lemma RecordReads(block: seq<Byte>, at: nat, record: Record)
    requires record.Valid() && Holds(block, at, record)
    ensures ReadHeader(block, at) == Some((|record.header|, |record.frame|))
  {
    var header := block[at..at + |record.header|];
    assert forall k :: 0 <= k < |header| ==> header[k] == block[at + k];
    assert Le16(block, at + HDRLEN_OFFSET) == Le16(header, HDRLEN_OFFSET);
    assert Le32(block, at + CAPLEN_OFFSET) == Le32(header, CAPLEN_OFFSET);
  }

  /** Draining from a record yields what its frame yields, then drains from the
      next word boundary. */
  lemma DrainRecord(
    block: seq<Byte>, at: nat, record: Record, deliver: Deliverer, next: nat, rest: seq<RawPacket>)
    requires record.Valid() && Holds(block, at, record)
    requires deliver(record.frame).Ok?
    requires next == at + record.Size()
    requires next < |block| ==> rest == Drain(block, next, deliver)
    requires next >= |block| ==> rest == []
    ensures Drain(block, at, deliver) == Yield(deliver(record.frame)) + rest
  {
    hide Walk;
    RecordReads(block, at, record);
    var walk := Walk(block, at, deliver);
    WalkStep(block, at, deliver, |record.header|, |record.frame|, walk);
    if next >= |block| {
      WalkEnds(block, next, deliver);
    }
  }
}
