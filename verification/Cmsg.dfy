/** The Windows control-message walk (src/platform/mod.rs): headers of 16 bytes,
    8-byte alignment, addresses as 64-bit words with checked arithmetic. */
module Cmsg {
  import opened Wrappers
  import opened Net
  import opened Bits
  import opened Packets

  /** size_of CMSGHDR. */
  const HEADER_SIZE: nat := 16

  // ---------------------------------------------------------------- little-endian fields

  function LeBytes(x: nat, n: nat): (r: seq<Byte>)
    ensures |r| == n
  {
    if n == 0 then [] else [x % 256] + LeBytes(x / 256, n - 1)
  }

  function LeValue(b: seq<Byte>): nat {
    if b == [] then 0 else (b[0] as int) + 256 * LeValue(b[1..])
  }

  lemma {:induction false} LeRoundTrip(x: nat, n: nat)
    requires x < Pow2(8 * n)
    ensures LeValue(LeBytes(x, n)) == x
  {
    if n > 0 {
      assert Pow2(8) == 256 by { assert Pow2(4) == 16; }
      Pow2Add(8, 8 * n - 8);
      LeRoundTrip(x / 256, n - 1);
      assert LeBytes(x, n)[1..] == LeBytes(x / 256, n - 1);
    }
  }

  lemma Doubled(n: nat, p: nat)
    requires Pow2(n) == p
    ensures Pow2(n + n) == p * p
  {
    Pow2Add(n, n);
  }

  lemma PowerOfOne(one: nat)
    requires one == 1
    ensures Pow2(one) == 2
  {
    assert Pow2(one) == 2 * Pow2(one - 1) && Pow2(one - 1) == 1;
  }

  lemma WordSizes(one: nat, u32: nat, usize: nat)
    requires one == 1 && u32 == 32 * one && usize == 64 * one
    ensures Pow2(u32) == 0x1_0000_0000 && Pow2(usize) == USIZE_MAX + 1
  {
    hide Pow2;
    PowerOfOne(one);
    Doubled(one, 2);
    var two := one + one;
    Doubled(two, 4);
    var four := two + two;
    Doubled(four, 16);
    var byte := four + four;
    Doubled(byte, 256);
    var word := byte + byte;
    Doubled(word, 65536);
    Doubled(u32, 0x1_0000_0000);
  }

  // ---------------------------------------------------------------- headers

  datatype Header = Header(len: nat, level: nat, ty: nat)

  function HeaderAt(bytes: seq<Byte>, at: nat): Header
    requires at + HEADER_SIZE <= |bytes|
  {
    Header(LeValue(bytes[at..at + 8]), LeValue(bytes[at + 8..at + 12]), LeValue(bytes[at + 12..at + 16]))
  }

  /** The bytes of the message that are in the buffer. */
  function PayloadAt(bytes: seq<Byte>, at: nat): seq<Byte>
    requires at + HEADER_SIZE <= |bytes|
  {
    var end := at + HeaderAt(bytes, at).len;
    if at + HEADER_SIZE <= end <= |bytes| then bytes[at + HEADER_SIZE..end] else bytes[at + HEADER_SIZE..]
  }

  /** `length` rounded up to a multiple of 8. */
  function Aligned(length: nat): nat {
    (length + 7) / 8 * 8
  }

  /** wsa_cmsg_align, by mask. */
  method WsaCmsgAlign(length: nat) returns (r: nat)
    requires length + 7 <= USIZE_MAX
    ensures r == Aligned(length)
  {
    var one, u32, width := 1, 32, USIZE_BITS;
    WordSizes(one, u32, width);
    assert Pow2(3) == 8;
    AlignMaskIsRoundUp(length, 3, width);
    r := AlignMask(length, 8, width);
  }

  /** The header after the one at `at`, by offsets into the buffer. */
  function NextOffset(bytes: seq<Byte>, at: nat): (r: Option<nat>)
    requires at + HEADER_SIZE <= |bytes|
    ensures r.Some? ==> at + HEADER_SIZE <= r.value && r.value + HEADER_SIZE <= |bytes|
  {
    var len := HeaderAt(bytes, at).len;
    if len < HEADER_SIZE || at + Aligned(len) + HEADER_SIZE > |bytes| then None else Some(at + Aligned(len))
  }

  function FirstOffset(bytes: seq<Byte>): (r: Option<nat>)
    ensures r.Some? ==> r.value + HEADER_SIZE <= |bytes|
  {
    if |bytes| < HEADER_SIZE then None else Some(0)
  }

  /** wsa_cmsg_nxthdr on addresses: its overflow and bounds checks answer exactly as
      plain offsets do, for any header length and any address of a current header,
      also one outside the buffer. */
  method WsaCmsgNxthdr(base: nat, bytes: seq<Byte>, cmsg: nat) returns (next: Option<nat>)
    requires cmsg <= USIZE_MAX
    ensures next == if base <= cmsg && cmsg + HEADER_SIZE <= base + |bytes| <= USIZE_MAX
      then (match NextOffset(bytes, cmsg - base) case Some(at) => Some(base + at) case None => None)
      else None
  {
    var max := base + |bytes|;
    if max > USIZE_MAX {
      return None;
    }
    if cmsg + HEADER_SIZE > USIZE_MAX {
      return None;
    }
    if cmsg < base || cmsg + HEADER_SIZE > max {
      return None;
    }
    var currentLen := HeaderAt(bytes, cmsg - base).len;
    if currentLen < HEADER_SIZE {
      return None;
    }
    if currentLen + 7 > USIZE_MAX {
      return None;
    }
    var alignedLen := WsaCmsgAlign(currentLen);
    var at := cmsg + alignedLen;
    if at > USIZE_MAX || at + HEADER_SIZE > USIZE_MAX {
      return None;
    }
    if at + HEADER_SIZE > max {
      return None;
    }
    return Some(at);
  }

  /** A header the walk visits. */
  datatype Visit = Visit(at: nat, header: Header, payload: seq<Byte>)

  function VisitAt(bytes: seq<Byte>, at: nat): Visit
    requires at + HEADER_SIZE <= |bytes|
  {
    Visit(at, HeaderAt(bytes, at), PayloadAt(bytes, at))
  }

  /** The walk from one header on. */
  function Walk(bytes: seq<Byte>, from: Option<nat>): (r: seq<Visit>)
    requires from.Some? ==> from.value + HEADER_SIZE <= |bytes|
    decreases if from.None? then 0 else 1 + |bytes| - from.value
  {
    if from.None? then [] else [VisitAt(bytes, from.value)] + Walk(bytes, NextOffset(bytes, from.value))
  }

  /** On any bytes the walk visits strictly increasing headers, each wholly inside
      the buffer, at most one for every 16 bytes. */
  lemma {:induction false} WalkIsBounded(bytes: seq<Byte>, from: Option<nat>)
    requires from.Some? ==> from.value + HEADER_SIZE <= |bytes|
    ensures var visits := Walk(bytes, from);
      && (forall i :: 0 <= i < |visits| ==>
        from.Some? && from.value <= visits[i].at && visits[i].at + HEADER_SIZE <= |bytes|)
      && (forall i, j :: 0 <= i < j < |visits| ==> visits[i].at + HEADER_SIZE <= visits[j].at)
      && HEADER_SIZE * |visits| <= (if from.None? then 0 else |bytes| - from.value)
    decreases if from.None? then 0 else 1 + |bytes| - from.value
  {
    if from.Some? {
      WalkIsBounded(bytes, NextOffset(bytes, from.value));
    }
  }

  // ---------------------------------------------------------------- metadata

  /** The packet-info message of one family: its level, type and payload size. */
  datatype Kind = Kind(level: nat, ty: nat, size: nat)

  datatype PktInfo = PktInfo(addr: IpAddr, ifindex: U32)

  predicate IsPktInfo(v: Visit, kind: Kind) {
    v.header.level == kind.level && v.header.ty == kind.ty && v.header.len >= HEADER_SIZE + kind.size
  }

  function WithInfo(m: ReceiveMetadata, info: PktInfo): ReceiveMetadata {
    m.(destinationLocalIp := Some(info.addr),
       ingressInterfaceIndex := if info.ifindex != 0 then Some(info.ifindex) else m.ingressInterfaceIndex)
  }

  /** What one message changes; `decode` reads the payload structure. */
  function Applied(m: ReceiveMetadata, v: Visit, kind: Kind, decode: seq<Byte> -> PktInfo): ReceiveMetadata {
    if IsPktInfo(v, kind) then WithInfo(m, decode(v.payload)) else m
  }

  function Recover(m: ReceiveMetadata, visits: seq<Visit>, kind: Kind, decode: seq<Byte> -> PktInfo): ReceiveMetadata
    decreases visits
  {
    if visits == [] then m else Recover(Applied(m, visits[0], kind, decode), visits[1..], kind, decode)
  }

  /** The last packet-info message wins the destination address, and the interface
      unless its index is zero, which leaves the one recovered before; messages of other
      kinds change nothing, and none changes what the subscription asked for. */
  lemma {:induction false} LastInfoWins(
    m: ReceiveMetadata, visits: seq<Visit>, kind: Kind, decode: seq<Byte> -> PktInfo, k: nat)
    requires k < |visits| && IsPktInfo(visits[k], kind)
    requires forall i :: k < i < |visits| ==> !IsPktInfo(visits[i], kind)
    ensures var r, info := Recover(m, visits, kind, decode), decode(visits[k].payload);
      && r.destinationLocalIp == Some(info.addr)
      && (info.ifindex != 0 ==> r.ingressInterfaceIndex == Some(info.ifindex))
      && (info.ifindex == 0 ==>
            r.ingressInterfaceIndex == Recover(m, visits[..k], kind, decode).ingressInterfaceIndex)
      && r.configuredInterface == m.configuredInterface
      && r.configuredInterfaceIndex == m.configuredInterfaceIndex
    decreases visits
  {
    var m' := Applied(m, visits[0], kind, decode);
    if k > 0 {
      assert visits[..k][1..] == visits[1..][..k - 1];
      LastInfoWins(m', visits[1..], kind, decode, k - 1);
    } else {
      NoInfoKeeps(m', visits[1..], kind, decode);
    }
  }

  lemma {:induction false} NoInfoKeeps(
    m: ReceiveMetadata, visits: seq<Visit>, kind: Kind, decode: seq<Byte> -> PktInfo)
    requires forall i :: 0 <= i < |visits| ==> !IsPktInfo(visits[i], kind)
    ensures Recover(m, visits, kind, decode) == m
    decreases visits
  {
    if visits != [] {
      NoInfoKeeps(m, visits[1..], kind, decode);
    }
  }

  /** apply_receive_ancillary_data: the walk, updating the metadata as it goes. */
  method ApplyReceiveAncillaryData(
    base: nat, bytes: seq<Byte>, kind: Kind, decode: seq<Byte> -> PktInfo, metadata: ReceiveMetadata)
    returns (m: ReceiveMetadata)
    requires base + |bytes| <= USIZE_MAX
    ensures m == Recover(metadata, Walk(bytes, FirstOffset(bytes)), kind, decode)
  {
    hide HeaderAt, PayloadAt, NextOffset;
    m := metadata;
    var cmsg: Option<nat> := if |bytes| < HEADER_SIZE then None else Some(base);
    ghost var rest := Walk(bytes, FirstOffset(bytes));
    while cmsg.Some?
      invariant cmsg.Some? ==> base <= cmsg.value && cmsg.value + HEADER_SIZE <= base + |bytes|
      invariant rest == Walk(bytes, if cmsg.Some? then Some(cmsg.value - base) else None)
      invariant Recover(m, rest, kind, decode) == Recover(metadata, Walk(bytes, FirstOffset(bytes)), kind, decode)
      decreases rest
    {
      var visit := VisitAt(bytes, cmsg.value - base);
      if IsPktInfo(visit, kind) {
        m := WithInfo(m, decode(visit.payload));
      }
      cmsg := WsaCmsgNxthdr(base, bytes, cmsg.value);
      rest := rest[1..];
    }
  }

  // ---------------------------------------------------------------- well-formed chains

  datatype Message = Message(level: U32, ty: U32, data: seq<Byte>)

  function Zeros(n: nat): seq<Byte> {
    seq(n, _ => 0)
  }

  function EncodedLen(m: Message): nat {
    Aligned(HEADER_SIZE + |m.data|)
  }

  /** A message laid out as WSA_CMSG_SPACE asks: header, data, padding. */
  function Encode(m: Message): (r: seq<Byte>)
    ensures |r| == EncodedLen(m)
  {
    LeBytes(HEADER_SIZE + |m.data|, 8) + LeBytes(m.level, 4) + LeBytes(m.ty, 4) + m.data
    + Zeros(EncodedLen(m) - HEADER_SIZE - |m.data|)
  }

  function Chain(messages: seq<Message>): seq<Byte> {
    if messages == [] then [] else Encode(messages[0]) + Chain(messages[1..])
  }

  lemma FieldsRoundTrip(len: nat, level: U32, ty: U32)
    requires len <= USIZE_MAX
    ensures LeValue(LeBytes(len, 8)) == len && LeValue(LeBytes(level, 4)) == level && LeValue(LeBytes(ty, 4)) == ty
  {
    var one, u32, usize, n4, n8 := 1, 32, 64, 4, 8;
    WordSizes(one, u32, usize);
    LeFits(len, n8, usize);
    LeFits(level, n4, u32);
    LeFits(ty, n4, u32);
  }

  lemma LeFits(x: nat, n: nat, bits: nat)
    requires bits == 8 * n && x < Pow2(bits)
    ensures LeValue(LeBytes(x, n)) == x
  {
    LeRoundTrip(x, n);
  }

  /** A header placed anywhere in a buffer reads back, with its data. */
  lemma EncodedReadsBack(m: Message, before: seq<Byte>, after: seq<Byte>, bytes: seq<Byte>)
    requires HEADER_SIZE + |m.data| <= USIZE_MAX && bytes == before + Encode(m) + after
    ensures VisitAt(bytes, |before|)
      == Visit(|before|, Header(HEADER_SIZE + |m.data|, m.level, m.ty), m.data)
  {
    hide LeBytes, LeValue;
    var len, level, ty := LeBytes(HEADER_SIZE + |m.data|, 8), LeBytes(m.level, 4), LeBytes(m.ty, 4);
    var pad := Zeros(EncodedLen(m) - HEADER_SIZE - |m.data|);
    FieldsRoundTrip(HEADER_SIZE + |m.data|, m.level, m.ty);
    FieldSlices(before, len, level, ty, m.data, pad + after, bytes);
  }

  lemma FieldSlices(
    before: seq<Byte>, len: seq<Byte>, level: seq<Byte>, ty: seq<Byte>, data: seq<Byte>, after: seq<Byte>,
    bytes: seq<Byte>)
    requires |len| == 8 && |level| == 4 && |ty| == 4
    requires bytes == before + (len + level + ty + data) + after
    ensures var at := |before|;
      && bytes[at..at + 8] == len && bytes[at + 8..at + 12] == level && bytes[at + 12..at + 16] == ty
      && bytes[at + 16..at + 16 + |data|] == data
  {
  }

  /** The visits a chain of messages should get. */
  function Visits(messages: seq<Message>, at: nat): seq<Visit> {
    if messages == [] then []
    else
      var m := messages[0];
      [Visit(at, Header(HEADER_SIZE + |m.data|, m.level, m.ty), m.data)] + Visits(messages[1..], at + EncodedLen(m))
  }

  /** After one message the walk finds the next, or nothing after the last. */
  lemma NextInChain(m: Message, rest: seq<Message>, at: nat, slack: seq<Byte>, bytes: seq<Byte>)
    requires at + HEADER_SIZE <= |bytes| && HeaderAt(bytes, at).len == HEADER_SIZE + |m.data|
    requires |bytes| == at + EncodedLen(m) + |Chain(rest)| + |slack| && |slack| < HEADER_SIZE
    ensures NextOffset(bytes, at) == if rest == [] then None else Some(at + EncodedLen(m))
  {
    hide HeaderAt;
  }

  /** On a well-formed chain, with no room for another header after it, the walk
      recovers exactly the encoded messages, in order. */
  lemma {:induction false} WalkRecoversChain(
    before: seq<Byte>, messages: seq<Message>, slack: seq<Byte>, bytes: seq<Byte>)
    requires bytes == before + Chain(messages) + slack && |slack| < HEADER_SIZE && |bytes| <= USIZE_MAX
    ensures messages != [] ==> |before| + HEADER_SIZE <= |bytes|
    ensures Walk(bytes, if messages == [] then None else Some(|before|)) == Visits(messages, |before|)
    decreases messages
  {
    hide HeaderAt, PayloadAt, NextOffset, Encode;
    if messages != [] {
      var m, rest := messages[0], messages[1..];
      var after := Chain(rest) + slack;
      assert bytes == before + Encode(m) + after;
      EncodedReadsBack(m, before, after, bytes);
      var next := before + Encode(m);
      assert bytes == next + Chain(rest) + slack;
      WalkRecoversChain(next, rest, slack, bytes);
      NextInChain(m, rest, |before|, slack, bytes);
    }
  }

  /** The metadata a list of messages should give: each packet-info message of the
      kind, long enough to hold one, in order. */
  function MessagesMetadata(m: ReceiveMetadata, messages: seq<Message>, kind: Kind, decode: seq<Byte> -> PktInfo)
    : ReceiveMetadata
    decreases messages
  {
    if messages == [] then m
    else
      var first := messages[0];
      var m' := if first.level == kind.level && first.ty == kind.ty && |first.data| >= kind.size
        then WithInfo(m, decode(first.data)) else m;
      MessagesMetadata(m', messages[1..], kind, decode)
  }

  lemma {:induction false} RecoverVisits(
    m: ReceiveMetadata, messages: seq<Message>, at: nat, kind: Kind, decode: seq<Byte> -> PktInfo)
    ensures Recover(m, Visits(messages, at), kind, decode) == MessagesMetadata(m, messages, kind, decode)
    decreases messages
  {
    if messages != [] {
      var visits := Visits(messages, at);
      RecoverVisits(Applied(m, visits[0], kind, decode), messages[1..], at + EncodedLen(messages[0]), kind, decode);
    }
  }

  /** Whole buffers: the receive metadata is that of the messages, in order. */
  lemma ChainMetadata(
    messages: seq<Message>, slack: seq<Byte>, bytes: seq<Byte>, kind: Kind, decode: seq<Byte> -> PktInfo,
    m: ReceiveMetadata)
    requires bytes == Chain(messages) + slack && |slack| < HEADER_SIZE && |bytes| <= USIZE_MAX
    ensures Recover(m, Walk(bytes, FirstOffset(bytes)), kind, decode) == MessagesMetadata(m, messages, kind, decode)
  {
    RecoverVisits(m, messages, 0, kind, decode);
    assert bytes == [] + Chain(messages) + slack;
    WalkRecoversChain([], messages, slack, bytes);
  }

  // ---------------------------------------------------------------- payloads and the buffer's end

  /** The whole message the header announces lies in the buffer. */
  predicate Inside(bytes: seq<Byte>, v: Visit) {
    HEADER_SIZE <= v.header.len && v.at + v.header.len <= |bytes|
  }

  /** What is read of a message inside the buffer is its whole payload. */
  lemma InsideIsWhole(bytes: seq<Byte>, at: nat)
    requires at + HEADER_SIZE <= |bytes| && Inside(bytes, VisitAt(bytes, at))
    ensures |VisitAt(bytes, at).payload| == VisitAt(bytes, at).header.len - HEADER_SIZE
  {
  }

  /** On any bytes every message the walk visits, except possibly the last, lies inside
      the buffer. */
  lemma {:induction false} AllButLastInside(bytes: seq<Byte>, from: Option<nat>, i: nat)
    requires from.Some? ==> from.value + HEADER_SIZE <= |bytes|
    requires i + 1 < |Walk(bytes, from)|
    ensures Inside(bytes, Walk(bytes, from)[i])
    decreases i
  {
    var next := NextOffset(bytes, from.value);
    if i == 0 {
      assert next.Some?;
    } else {
      AllButLastInside(bytes, next, i - 1);
    }
  }

  /** On a well-formed chain every visited message does. */
  lemma ChainInside(messages: seq<Message>, slack: seq<Byte>, bytes: seq<Byte>, i: nat)
    requires bytes == Chain(messages) + slack && |slack| < HEADER_SIZE && |bytes| <= USIZE_MAX
    requires i < |Walk(bytes, FirstOffset(bytes))|
    ensures Inside(bytes, Walk(bytes, FirstOffset(bytes))[i])
  {
    assert bytes == [] + Chain(messages) + slack;
    WalkRecoversChain([], messages, slack, bytes);
    VisitsInside(messages, 0, i);
  }

  lemma {:induction false} VisitsInside(messages: seq<Message>, at: nat, i: nat)
    requires i < |Visits(messages, at)|
    ensures var v := Visits(messages, at)[i];
      HEADER_SIZE <= v.header.len && v.at + v.header.len <= at + |Chain(messages)|
    decreases i
  {
    if i > 0 {
      VisitsInside(messages[1..], at + EncodedLen(messages[0]), i - 1);
    }
  }
}
