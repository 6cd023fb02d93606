/** Ethernet framing on macOS: VLAN stripping and the Ethernet packet filter
    (src/platform/raw.rs). Tag stacking follows clause 9 of IEEE 802.1Q. */
module Ethernet {
  import opened Wrappers
  import opened Net
  import opened Config
  import opened IpParsing
  import opened Bpf

  predicate IsVlanTag(ethertype: nat) {
    ethertype in {0x8100, 0x88a8, 0x9100}
  }

  predicate IsIpType(ethertype: nat) {
    ethertype in {0x0800, 0x86dd}
  }

  function EtherType(f: Family): nat {
    if f == Ipv4 then 0x0800 else 0x86dd
  }

  /** The payload offset behind all tags, when the type found there is IP;
      `at` is the offset of a type field. */
  function PayloadOffset(frame: seq<Byte>, at: nat): (r: Option<nat>)
    ensures r.Some? ==> at + 2 <= r.value <= |frame|
    decreases |frame| - at
  {
    if |frame| < at + 2 then None
    else if IsVlanTag(Be16(frame, at)) then PayloadOffset(frame, at + 4)
    else if IsIpType(Be16(frame, at)) then Some(at + 2)
    else None
  }

  /** strip_ethernet_link_layer. */
  method StripEthernet(frame: seq<Byte>) returns (r: Option<seq<Byte>>)
    ensures r == Strip(frame)
  {
    if |frame| < 14 {
      return None;
    }
    var ethertype := Be16(frame, 12);
    var payload := 14;
    while IsVlanTag(ethertype)
      invariant 14 <= payload <= |frame|
      invariant ethertype == Be16(frame, payload - 2)
      invariant PayloadOffset(frame, payload - 2) == PayloadOffset(frame, 12)
      decreases |frame| - payload
    {
      if |frame| < payload + 4 {
        return None;
      }
      ethertype := Be16(frame, payload + 2);
      payload := payload + 4;
    }
    if IsIpType(ethertype) {
      return Some(frame[payload..]);
    }
    return None;
  }

  function Strip(frame: seq<Byte>): Option<seq<Byte>> {
    if |frame| < 14 then None
    else
      match PayloadOffset(frame, 12)
      case Some(at) => Some(frame[at..])
      case None => None
  }

  /** A tag: its type (one of the three VLAN identifiers) and its control field. */
  datatype Tag = Tag(tpid: nat, control: seq<Byte>) {
    predicate Valid() {
      IsVlanTag(tpid) && |control| == 2
    }
  }

  function Type2(ethertype: nat): seq<Byte>
    requires ethertype < 65536
  {
    [ethertype / 256, ethertype % 256]
  }

  /** Everything behind the two MAC addresses. */
  function EncodeTags(tags: seq<Tag>, ethertype: nat, payload: seq<Byte>): (r: seq<Byte>)
    requires forall t :: t in tags ==> t.Valid()
    requires ethertype < 65536
    ensures |r| >= 2
  {
    if tags == [] then Type2(ethertype) + payload
    else
      assert tags[0].Valid();
      Type2(tags[0].tpid) + tags[0].control + EncodeTags(tags[1..], ethertype, payload)
  }

  lemma {:induction false} OffsetOfEncoded(prefix: seq<Byte>, tags: seq<Tag>, ethertype: nat, payload: seq<Byte>)
    requires forall t :: t in tags ==> t.Valid()
    requires ethertype < 65536 && !IsVlanTag(ethertype)
    ensures var frame := prefix + EncodeTags(tags, ethertype, payload);
      PayloadOffset(frame, |prefix|) ==
        (if IsIpType(ethertype) then Some(|prefix| + 4 * |tags| + 2) else None)
    ensures |EncodeTags(tags, ethertype, payload)| == 4 * |tags| + 2 + |payload|
    ensures EncodeTags(tags, ethertype, payload)[4 * |tags| + 2..] == payload
    decreases tags
  {
    var body := EncodeTags(tags, ethertype, payload);
    var frame := prefix + body;
    assert frame[|prefix|] == body[0] && frame[|prefix| + 1] == body[1];
    if tags != [] {
      assert tags[0] in tags;
      var head := Type2(tags[0].tpid) + tags[0].control;
      var rest := EncodeTags(tags[1..], ethertype, payload);
      OffsetOfEncoded(prefix + head, tags[1..], ethertype, payload);
      assert body == head + rest;
      assert frame == prefix + head + rest;
      assert Be16(frame, |prefix|) == tags[0].tpid;
      assert body[4 * |tags| + 2..] == rest[4 * |tags[1..]| + 2..];
    } else {
      assert Be16(frame, |prefix|) == ethertype;
    }
  }

  /** Stripping undoes encapsulation behind any number of stacked tags, and
      delivers nothing for a frame that carries another protocol. */
  lemma StripInvertsEncapsulation(macs: seq<Byte>, tags: seq<Tag>, ethertype: nat, payload: seq<Byte>)
    requires |macs| == 12
    requires forall t :: t in tags ==> t.Valid()
    requires ethertype < 65536 && !IsVlanTag(ethertype)
    ensures Strip(macs + EncodeTags(tags, ethertype, payload))
      == if IsIpType(ethertype) then Some(payload) else None
  {
    var body := EncodeTags(tags, ethertype, payload);
    OffsetOfEncoded(macs, tags, ethertype, payload);
    if IsIpType(ethertype) {
      assert (macs + body)[12 + 4 * |tags| + 2..] == body[4 * |tags| + 2..];
    }
  }

  // ---------------------------------------------------------------- filter

  /** The Ethernet part of apple_subscription_filter. */
  function EthernetPrologue(f: Family): seq<Instr> {
    [Statement(LOAD_HALF, 12),
     Instr(JUMP_EQ, 7, 0, EtherType(f)),
     Instr(JUMP_EQ, 0, 1, 0x8100),
     Statement(RETURN, ACCEPT_ALL),
     Instr(JUMP_EQ, 0, 1, 0x88a8),
     Statement(RETURN, ACCEPT_ALL),
     Instr(JUMP_EQ, 0, 1, 0x9100),
     Statement(RETURN, ACCEPT_ALL),
     Statement(RETURN, 0)]
  }

  datatype Datalink = RawIp | Null | Loop | Ethernet | Other(id: nat)

  /** apple_subscription_filter. */
  function AppleFilter(link: Datalink, c: RawConfig): Result<seq<Instr>, McrxError> {
    match link
    case RawIp => Ok(IpFilter(c, 0))
    case Null => Ok(IpFilter(c, 4))
    case Loop => Ok(IpFilter(c, 4))
    case Ethernet => Ok(EthernetPrologue(c.Family()) + IpFilter(c, 14))
    case Other(_) => Err(UnsupportedDatalink)
  }

  /** strip_apple_link_layer. */
  function StripLink(link: Datalink, frame: seq<Byte>): Result<Option<seq<Byte>>, McrxError> {
    match link
    case RawIp => Ok(Some(frame))
    case Null => Ok(if 4 <= |frame| then Some(frame[4..]) else None)
    case Loop => Ok(if 4 <= |frame| then Some(frame[4..]) else None)
    case Ethernet => Ok(Strip(frame))
    case Other(_) => Err(UnsupportedDatalink)
  }

  /** What each link layer's frames carry: raw IP is the frame itself, the loopback
      layers have four bytes in front, an Ethernet frame has its two addresses, any
      tags, and type 0x0800 or 0x86dd; nothing else is delivered. */
  lemma LinkLayers(frame: seq<Byte>, macs: seq<Byte>, tags: seq<Tag>, ethertype: nat, payload: seq<Byte>)
    requires |macs| == 12 && ethertype < 65536 && ethertype !in {0x8100, 0x88a8, 0x9100}
    requires forall t :: t in tags ==> t.Valid()
    ensures StripLink(RawIp, frame) == Ok(Some(frame))
    ensures forall link :: link in {Null, Loop} ==>
      StripLink(link, frame) == Ok(if |frame| < 4 then None else Some(frame[4..]))
    ensures StripLink(Ethernet, macs + EncodeTags(tags, ethertype, payload))
      == Ok(if ethertype == 0x0800 || ethertype == 0x86dd then Some(payload) else None)
    ensures forall id :: StripLink(Other(id), frame) == Err(UnsupportedDatalink)
  {
    StripInvertsEncapsulation(macs, tags, ethertype, payload);
  }

  /** The Ethernet filter accepts every VLAN-tagged frame; an untagged frame it
      accepts exactly when the type is the family's and the IP filter accepts
      the payload. */
  lemma EthernetFilterMeaning(c: RawConfig, frame: seq<Byte>)
    ensures var prog := EthernetPrologue(c.Family()) + IpFilter(c, 14);
      Accepts(prog, frame) <==>
        && 14 <= |frame|
        && (IsVlanTag(Be16(frame, 12))
            || (Be16(frame, 12) == EtherType(c.Family()) && Accepts(IpFilter(c, 0), frame[14..])))
    ensures EtherType(c.Family()) == if c.group.V4? then 0x0800 else 0x86dd
  {
    var prologue, ip := EthernetPrologue(c.Family()), IpFilter(c, 14);
    var prog := prologue + ip;
    assert forall pc :: 0 <= pc < 9 ==> prog[pc] == prologue[pc];
    if 14 <= |frame| {
      var t := Be16(frame, 12);
      assert Run(prog, frame, 0, 0) == Run(prog, frame, 1, t);
      if t == EtherType(c.Family()) {
        assert Run(prog, frame, 1, t) == Run(prog, frame, |prologue| + 0, t);
        RunBehindPrefix(prologue, ip, frame, 0, t);
        FirstLoadForgets(c, 14, frame, t);
        IpFilterShift(c, 14, frame);
      } else {
        assert Run(prog, frame, 1, t) == Run(prog, frame, 2, t);
        assert Run(prog, frame, 3, t) == Returned(ACCEPT_ALL);
        assert t != 0x8100 ==> Run(prog, frame, 2, t) == Run(prog, frame, 4, t);
        assert Run(prog, frame, 5, t) == Returned(ACCEPT_ALL);
        assert t != 0x88a8 ==> Run(prog, frame, 4, t) == Run(prog, frame, 6, t);
        assert Run(prog, frame, 7, t) == Returned(ACCEPT_ALL);
        assert Run(prog, frame, 8, t) == Returned(0);
      }
    }
  }

  /** The IP filter starts with a load, so the accumulator it starts with does
      not matter. */
  lemma FirstLoadForgets(c: RawConfig, offset: nat, packet: seq<Byte>, acc: nat)
    ensures Run(IpFilter(c, offset), packet, 0, acc) == Run(IpFilter(c, offset), packet, 0, 0)
  {
    assert IpFilter(c, offset)[0] == Statement(LOAD_BYTE, offset);
  }

  /** What userspace delivers from a frame: strip, parse, match. */
  predicate Delivers(link: Datalink, c: RawConfig, frame: seq<Byte>) {
    var stripped := StripLink(link, frame);
    && stripped.Ok? && stripped.value.Some?
    && ParseIp(stripped.value.value).Some?
    && PacketMatchesConfig(ParseIp(stripped.value.value).value, c)
  }

  /** No supported link layer's filter drops a frame userspace would deliver,
      with one exact exception: an untagged Ethernet frame whose EtherType
      contradicts the IP version of its payload. */
  lemma AppleFilterKeepsDelivered(link: Datalink, c: RawConfig, frame: seq<Byte>)
    requires IsValid(c) && Delivers(link, c, frame)
    ensures AppleFilter(link, c).Ok?
    ensures Accepts(AppleFilter(link, c).value, frame) <==>
      (link == Ethernet ==> IsVlanTag(Be16(frame, 12)) || Be16(frame, 12) == EtherType(c.Family()))
  {
    var datagram := StripLink(link, frame).value.value;
    IpFilterCorrect(c, datagram);
    match link
    case RawIp =>
    case Null => IpFilterShift(c, 4, frame);
    case Loop => IpFilterShift(c, 4, frame);
    case Ethernet =>
      EthernetFilterMeaning(c, frame);
      if !IsVlanTag(Be16(frame, 12)) {
        assert PayloadOffset(frame, 12) == Some(14);
      }
    case Other(_) =>
  }

  /** Every filter attached to a supported link layer is one the kernel loads. */
  lemma AppleFilterWellFormed(link: Datalink, c: RawConfig)
    requires !link.Other?
    ensures AppleFilter(link, c).Ok? && WellFormed(AppleFilter(link, c).value)
  {
    IpFilterWellFormed(c, 0);
    IpFilterWellFormed(c, 4);
    IpFilterWellFormed(c, 14);
    if link == Ethernet {
      var prologue, ip := EthernetPrologue(c.Family()), IpFilter(c, 14);
      var prog := prologue + ip;
      forall pc | 0 <= pc < |prog| ensures WellFormedAt(prog, pc) {
        if pc < 9 {
          assert prog[pc] == prologue[pc];
        } else {
          assert prog[pc] == ip[pc - 9] && WellFormedAt(ip, pc - 9);
        }
      }
    }
  }
}
