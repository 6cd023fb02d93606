/** IPv4 and IPv6 header parsing and the userspace packet predicate
    (src/platform/raw.rs). Headers follow section 3.1 of RFC 791 and section 3 of
    RFC 8200; jumbograms (section 2 of RFC 2675) are refused. */
module IpParsing {
  import opened Wrappers
  import opened Net
  import opened Config
  import opened Bits

  /** MAX_IP_DATAGRAM_SIZE. */
  const MAX_IP_DATAGRAM_SIZE: nat := 40 + 65535

  datatype ParsedIp = ParsedIp(source: IpAddr, destination: IpAddr, protocol: Byte, length: nat)

  function ParseIp(d: seq<Byte>): Option<ParsedIp> {
    if d == [] then None
    else if d[0] / 16 == 4 then ParseIpv4(d)
    else if d[0] / 16 == 6 then ParseIpv6(d)
    else None
  }

  function ParseIpv4(d: seq<Byte>): Option<ParsedIp> {
    if |d| < 20 then None
    else
      var ihl := And(d[0], 0x0f) * 4;
      if ihl < 20 || |d| < ihl then None
      else
        var length := Be16(d, 2);
        if length < ihl || |d| < length then None
        else Some(ParsedIp(V4(d[12..16]), V4(d[16..20]), d[9], length))
  }

  function ParseIpv6(d: seq<Byte>): Option<ParsedIp> {
    if |d| < 40 then None
    else
      var payload := Be16(d, 4);
      if payload == 0 && d[6] == 0 then None
      else if |d| < 40 + payload then None
      else Some(ParsedIp(V6(d[8..24]), V6(d[24..40]), d[6], 40 + payload))
  }

  /** packet_matches_config. */
  predicate PacketMatchesConfig(p: ParsedIp, c: RawConfig) {
    && c.Family() == p.destination.Family()
    && p.destination == c.group
    && (c.source.Source? ==> p.source == c.source.addr)
  }

  lemma LowNibble(b: Byte)
    ensures And(b, 0x0f) == b % 16
    ensures And(b, 0xf0) == b - b % 16
  {
    assert Pow2(4) == 16 by { assert Pow2(2) == 4; }
    assert Pow2(8) == 256 by { assert Pow2(6) == 64; assert Pow2(4) == 16; }
    AndLowMask(b, 4);
    AndHighMask(b, 4, 8);
    assert Not(15, 8) == 0xf0;
  }

  /** Whatever the parser accepts is a datagram of the version in its first
      nibble, no shorter than that version's fixed header and no longer than
      the receive buffer, and its addresses share one family. */
  lemma ParsedBounds(d: seq<Byte>)
    requires ParseIp(d).Some?
    ensures var p := ParseIp(d).value;
      && p.length <= |d|
      && p.length <= MAX_IP_DATAGRAM_SIZE
      && p.source.Family() == p.destination.Family()
      && (p.destination.V4? <==> d[0] / 16 == 4)
      && (p.destination.V4? ==> 20 <= p.length)
      && (p.destination.V6? ==> d[0] / 16 == 6 && 40 <= p.length)
  {
  }

  /** Parsing depends only on the first `length` bytes: trimming an accepted
      buffer to its parsed length, padding it, or replacing what follows, parses
      to the same result. */
  lemma ParseStable(d: seq<Byte>, e: seq<Byte>)
    requires ParseIp(d).Some?
    requires ParseIp(d).value.length <= |e|
    requires d[..ParseIp(d).value.length] == e[..ParseIp(d).value.length]
    ensures ParseIp(e) == ParseIp(d)
  {
    var p := ParseIp(d).value;
    LowNibble(d[0]);
    var n := p.length;
    assert forall k :: 0 <= k < n ==> d[k] == d[..n][k] && e[k] == e[..n][k];
    if p.destination.V4? {
      assert d[12..16] == e[12..16] && d[16..20] == e[16..20];
    } else {
      assert d[8..24] == e[8..24] && d[24..40] == e[24..40];
    }
  }

  /** An IPv4 datagram laid out as in section 3.1 of RFC 791: `tail1` is the
      identification, fragment and TTL fields, `checksum` the header checksum. */
  function EncodeIpv4(
    source: Octets4, destination: Octets4, protocol: Byte, tos: Byte,
    idFragTtl: seq<Byte>, checksum: seq<Byte>, options: seq<Byte>, payload: seq<Byte>): (r: seq<Byte>)
    requires |idFragTtl| == 5 && |checksum| == 2
    requires |options| % 4 == 0 && |options| <= 40
    requires 20 + |options| + |payload| <= 65535
  {
    var total := 20 + |options| + |payload|;
    [64 + 5 + |options| / 4, tos, total / 256, total % 256] + idFragTtl + [protocol] + checksum
    + source + destination + options + payload
  }

  /** An IPv6 datagram laid out as in section 3 of RFC 8200. */
  function EncodeIpv6(
    source: Octets16, destination: Octets16, nextHeader: Byte,
    classFlow: seq<Byte>, hopLimit: Byte, payload: seq<Byte>): (r: seq<Byte>)
    requires |classFlow| == 4 && classFlow[0] / 16 == 6
    requires |payload| <= 65535
  {
    classFlow + [|payload| / 256, |payload| % 256, nextHeader, hopLimit] + source + destination + payload
  }

  /** Parsing inverts IPv4 encoding, for any options, payload and trailing
      link-layer padding. */
  lemma ParseInvertsEncodeIpv4(
    source: Octets4, destination: Octets4, protocol: Byte, tos: Byte,
    idFragTtl: seq<Byte>, checksum: seq<Byte>, options: seq<Byte>, payload: seq<Byte>, padding: seq<Byte>)
    requires |idFragTtl| == 5 && |checksum| == 2
    requires |options| % 4 == 0 && |options| <= 40
    requires 20 + |options| + |payload| <= 65535
    ensures ParseIp(EncodeIpv4(source, destination, protocol, tos, idFragTtl, checksum, options, payload) + padding)
      == Some(ParsedIp(V4(source), V4(destination), protocol, 20 + |options| + |payload|))
  {
    var d := EncodeIpv4(source, destination, protocol, tos, idFragTtl, checksum, options, payload) + padding;
    LowNibble(d[0]);
    assert d[12..16] == source && d[16..20] == destination && d[9] == protocol;
    assert d[2] == (20 + |options| + |payload|) / 256 && d[3] == (20 + |options| + |payload|) % 256;
  }

  /** Parsing inverts IPv6 encoding exactly when the datagram is not shaped like
      a jumbogram, i.e. unless the payload is empty under a hop-by-hop header. */
  lemma ParseInvertsEncodeIpv6(
    source: Octets16, destination: Octets16, nextHeader: Byte,
    classFlow: seq<Byte>, hopLimit: Byte, payload: seq<Byte>, padding: seq<Byte>)
    requires |classFlow| == 4 && classFlow[0] / 16 == 6
    requires |payload| <= 65535
    ensures ParseIp(EncodeIpv6(source, destination, nextHeader, classFlow, hopLimit, payload) + padding)
      == if payload == [] && nextHeader == 0 then None
         else Some(ParsedIp(V6(source), V6(destination), nextHeader, 40 + |payload|))
  {
    var d := EncodeIpv6(source, destination, nextHeader, classFlow, hopLimit, payload) + padding;
    assert d[8..24] == source && d[24..40] == destination;
    assert d[4] == |payload| / 256 && d[5] == |payload| % 256 && d[6] == nextHeader;
  }
}
