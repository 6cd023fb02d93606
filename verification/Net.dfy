/** Bytes, fixed-width unsigned integers and IP addresses. */
module Net {

  type Byte = b: int | 0 <= b < 256

  type U32 = x: int | 0 <= x < 0x1_0000_0000

  const USIZE_BITS: nat := 64

  const USIZE_MAX: nat := 0xffff_ffff_ffff_ffff

  type Octets4 = s: seq<Byte> | |s| == 4 witness [0, 0, 0, 0]

  type Octets16 = s: seq<Byte> | |s| == 16
    witness [0, 0, 0, 0, 0, 0, 0, 0, 0, 0, 0, 0, 0, 0, 0, 0]

  datatype Family = Ipv4 | Ipv6

  datatype IpAddr = V4(v4: Octets4) | V6(v6: Octets16) {

    function Family(): Family {
      if V4? then Ipv4 else Ipv6
    }

    function Octets(): seq<Byte> {
      if V4? then v4 else v6
    }

    /** 224.0.0.0/4 and ff00::/8. */
    predicate IsMulticast() {
      if V4? then 224 <= v4[0] < 240 else v6[0] == 255
    }

    predicate IsUnspecified() {
      forall i :: 0 <= i < |Octets()| ==> Octets()[i] == 0
    }

    predicate IsBroadcast() {
      V4? && forall i :: 0 <= i < |v4| ==> v4[i] == 255
    }
  }

  /** Big-endian 16-bit load. */
  function Be16(b: seq<Byte>, at: nat): nat
    requires at + 2 <= |b|
  {
    256 * (b[at] as int) + b[at + 1]
  }

  /** Big-endian 32-bit load. */
  function Be32(b: seq<Byte>, at: nat): U32
    requires at + 4 <= |b|
  {
    16777216 * (b[at] as int) + 65536 * (b[at + 1] as int) + 256 * (b[at + 2] as int) + b[at + 3]
  }

  /** Network byte order: the first octet is the most significant. */
  lemma WordIsTwoHalves(b: seq<Byte>, at: nat)
    requires at + 4 <= |b|
    ensures Be16(b, at) / 256 == b[at] && Be16(b, at) % 256 == b[at + 1]
    ensures Be32(b, at) == 65536 * Be16(b, at) + Be16(b, at + 2)
  {
  }
}
