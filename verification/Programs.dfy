/** The programs handed to the kernel (src/platform/raw.rs), written out in the numbers
    the kernel reads: opcodes, jump bytes, offsets, and address words in network order. */
module Programs {
  import opened Wrappers
  import opened Net
  import opened Config
  import opened Bpf
  import opened Ethernet

  /** Loads the four bytes at `load` and goes on only if they are these octets. */
  predicate Compares(prog: seq<Instr>, pc: nat, load: nat, octets: seq<Byte>, at: nat, reject: nat) {
    && pc + 1 < |prog| && at + 4 <= |octets| && pc + 2 <= reject
    && prog[pc] == Instr(0x20, 0, 0, load)
    && prog[pc + 1] == Instr(0x15, 0, reject - pc - 2,
         0x100_0000 * (octets[at] as int) + 0x1_0000 * (octets[at + 1] as int)
         + 0x100 * (octets[at + 2] as int) + octets[at + 3])
  }

  /** Where the words of the group and of the source start in the IP header. */
  function GroupAt(f: Family): nat {
    if f == Ipv4 then 16 else 24
  }

  function SourceAt(f: Family): nat {
    if f == Ipv4 then 12 else 8
  }

  /** The filter of a config whose addresses share a family, instruction by
      instruction, at any offset: the version test, the words of the group, those of the
      source if there is one, accept everything, reject. */
  lemma IpFilterInNumbers(c: RawConfig, offset: nat)
    requires c.source.Source? ==> c.source.addr.Family() == c.Family()
    ensures var prog := IpFilter(c, offset);
      var words := |c.group.Octets()| / 4;
      var compared := if c.source.Source? then 2 * words else words;
      var reject := 4 + 2 * compared;
      && words == (if c.group.V4? then 1 else 4)
      && |prog| == 5 + 2 * compared
      && prog[0] == Instr(0x30, 0, 0, offset)
      && prog[1] == Instr(0x54, 0, 0, 0xf0)
      && prog[2] == Instr(0x15, 0, 2 * compared + 1, if c.group.V4? then 0x40 else 0x60)
      && (forall t :: 0 <= t < words ==>
            Compares(prog, 3 + 2 * t, offset + GroupAt(c.Family()) + 4 * t, c.group.Octets(), 4 * t, reject))
      && (c.source.Source? ==> forall t :: 0 <= t < words ==>
            Compares(prog, 3 + 2 * (words + t), offset + SourceAt(c.Family()) + 4 * t,
              c.source.addr.Octets(), 4 * t, reject))
      && prog[reject - 1] == Instr(0x06, 0, 0, 0xffff_ffff)
      && prog[reject] == Instr(0x06, 0, 0, 0)
  {
    hide FilterOf, Checks, Compares;
    var prog, checks := IpFilter(c, offset), Checks(c, offset);
    var words, version := |c.group.Octets()| / 4, VersionNibble(c.Family());
    CheckCount(c, offset);
    FilterEnds(prog, checks, version, offset);
    forall t | 0 <= t < words
      ensures Compares(prog, 3 + 2 * t, offset + GroupAt(c.Family()) + 4 * t, c.group.Octets(), 4 * t,
        4 + 2 * |checks|)
    {
      GroupCheck(c, offset, t);
      WordCompared(prog, checks, version, offset, t, c.group.Octets(), 4 * t);
    }
    if c.source.Source? {
      forall t | 0 <= t < words
        ensures Compares(prog, 3 + 2 * (words + t), offset + SourceAt(c.Family()) + 4 * t,
          c.source.addr.Octets(), 4 * t, 4 + 2 * |checks|)
      {
        SourceCheck(c, offset, t);
        WordCompared(prog, checks, version, offset, words + t, c.source.addr.Octets(), 4 * t);
      }
    }
  }

  lemma CheckCount(c: RawConfig, offset: nat)
    requires c.source.Source? ==> c.source.addr.Family() == c.Family()
    ensures var words := |c.group.Octets()| / 4;
      |Checks(c, offset)| == if c.source.Source? then 2 * words else words
  {
  }

  lemma GroupCheck(c: RawConfig, offset: nat, t: nat)
    requires t < |c.group.Octets()| / 4 && t < |Checks(c, offset)|
    ensures Checks(c, offset)[t] == Check(offset + GroupAt(c.Family()) + 4 * t, Be32(c.group.Octets(), 4 * t))
  {
    hide Be32;
  }

  lemma SourceCheck(c: RawConfig, offset: nat, t: nat)
    requires c.source.Source? && c.source.addr.Family() == c.Family() && t < |c.group.Octets()| / 4
    requires |c.group.Octets()| / 4 + t < |Checks(c, offset)|
    ensures Checks(c, offset)[|c.group.Octets()| / 4 + t]
      == Check(offset + SourceAt(c.Family()) + 4 * t, Be32(c.source.addr.Octets(), 4 * t))
  {
    hide Be32;
  }

  lemma FilterEnds(prog: seq<Instr>, checks: seq<Check>, version: nat, offset: nat)
    requires prog == FilterOf(checks, version, offset)
    ensures |prog| == 5 + 2 * |checks|
    ensures prog[0] == Instr(0x30, 0, 0, offset) && prog[1] == Instr(0x54, 0, 0, 0xf0)
    ensures prog[2] == Instr(0x15, 0, 2 * |checks| + 1, version)
    ensures prog[3 + 2 * |checks|] == Instr(0x06, 0, 0, 0xffff_ffff)
    ensures prog[4 + 2 * |checks|] == Instr(0x06, 0, 0, 0)
  {
    forall i | 0 <= i < |prog| ensures prog[i] == Patched(checks, version, offset, i) {
    }
  }

  lemma WordCompared(
    prog: seq<Instr>, checks: seq<Check>, version: nat, offset: nat, j: nat, octets: seq<Byte>, at: nat)
    requires prog == FilterOf(checks, version, offset) && j < |checks|
    requires at + 4 <= |octets| && checks[j].expected == Be32(octets, at)
    ensures Compares(prog, 3 + 2 * j, checks[j].offset, octets, at, 4 + 2 * |checks|)
  {
    assert prog[3 + 2 * j] == Patched(checks, version, offset, 3 + 2 * j);
    assert prog[4 + 2 * j] == Patched(checks, version, offset, 4 + 2 * j);
  }

  /** The shortest filter, for the IPv4 group a.b.c.d from any source. */
  lemma AnySourceProgram(c: RawConfig, offset: nat)
    requires c.group.V4? && c.source.Any?
    ensures var g := c.group.v4;
      IpFilter(c, offset) == [
        Instr(0x30, 0, 0, offset), Instr(0x54, 0, 0, 0xf0), Instr(0x15, 0, 3, 0x40),
        Instr(0x20, 0, 0, offset + 16),
        Instr(0x15, 0, 1, 0x100_0000 * (g[0] as int) + 0x1_0000 * (g[1] as int) + 0x100 * (g[2] as int) + g[3]),
        Instr(0x06, 0, 0, 0xffff_ffff), Instr(0x06, 0, 0, 0)]
  {
    IpFilterInNumbers(c, offset);
    assert Compares(IpFilter(c, offset), 3 + 2 * 0, offset + GroupAt(c.Family()) + 4 * 0, c.group.Octets(), 4 * 0, 6);
  }

  /** The shared capture filters. */
  lemma FamilyFilterInNumbers(offset: nat)
    ensures FamilyFilter(Ipv4, offset) == [
      Instr(0x30, 0, 0, offset), Instr(0x54, 0, 0, 0xf0), Instr(0x15, 0, 4, 0x40),
      Instr(0x30, 0, 0, offset + 16), Instr(0x54, 0, 0, 0xf0), Instr(0x15, 0, 1, 0xe0),
      Instr(0x06, 0, 0, 0xffff_ffff), Instr(0x06, 0, 0, 0)]
    ensures FamilyFilter(Ipv6, offset) == [
      Instr(0x30, 0, 0, offset), Instr(0x54, 0, 0, 0xf0), Instr(0x15, 0, 3, 0x60),
      Instr(0x30, 0, 0, offset + 24), Instr(0x15, 0, 1, 0xff),
      Instr(0x06, 0, 0, 0xffff_ffff), Instr(0x06, 0, 0, 0)]
  {
  }

  /** The macOS filters: the IP filter at the offset of the link header, behind a test
      of the type field on Ethernet that lets every tagged frame through. */
  lemma AppleFilterInNumbers(link: Datalink, c: RawConfig)
    ensures AppleFilter(link, c) == match link
      case RawIp => Ok(IpFilter(c, 0))
      case Null => Ok(IpFilter(c, 4))
      case Loop => Ok(IpFilter(c, 4))
      case Ethernet => Ok([
        Instr(0x28, 0, 0, 12), Instr(0x15, 7, 0, if c.group.V4? then 0x0800 else 0x86dd),
        Instr(0x15, 0, 1, 0x8100), Instr(0x06, 0, 0, 0xffff_ffff),
        Instr(0x15, 0, 1, 0x88a8), Instr(0x06, 0, 0, 0xffff_ffff),
        Instr(0x15, 0, 1, 0x9100), Instr(0x06, 0, 0, 0xffff_ffff),
        Instr(0x06, 0, 0, 0)] + IpFilter(c, 14))
      case Other(_) => Err(UnsupportedDatalink)
  {
    hide IpFilter;
  }
}
