/** Classic BPF: the machine, and the filters compiled from subscriptions
    (src/platform/raw.rs). */
module Bpf {
  import opened Wrappers
  import opened Net
  import opened Config
  import opened Bits
  import opened IpParsing

  const BPF_LD: nat := 0x00
  const BPF_W: nat := 0x00
  const BPF_H: nat := 0x08
  const BPF_B: nat := 0x10
  const BPF_ABS: nat := 0x20
  const BPF_ALU: nat := 0x04
  const BPF_AND: nat := 0x50
  const BPF_JMP: nat := 0x05
  const BPF_JEQ: nat := 0x10
  const BPF_K: nat := 0x00
  const BPF_RET: nat := 0x06

  // The opcode fields never overlap, so the bitwise OR of the source is a sum.
  const LOAD_WORD: nat := BPF_LD + BPF_W + BPF_ABS
  const LOAD_HALF: nat := BPF_LD + BPF_H + BPF_ABS
  const LOAD_BYTE: nat := BPF_LD + BPF_B + BPF_ABS
  const MASK: nat := BPF_ALU + BPF_AND + BPF_K
  const JUMP_EQ: nat := BPF_JMP + BPF_JEQ + BPF_K
  const RETURN: nat := BPF_RET + BPF_K

  const ACCEPT_ALL: nat := 0xffff_ffff

  datatype Instr = Instr(code: nat, jt: nat, jf: nat, k: nat)

  function Statement(code: nat, k: nat): Instr {
    Instr(code, 0, 0, k)
  }

  /** Truncation of a jump distance to the instruction's 8-bit field. */
  function ToU8(x: nat): nat {
    x % 256
  }

  datatype Verdict = Returned(k: nat) | Stuck

  /** The filter machine. As in the kernel, a load outside the packet ends the
      run with 0; running off the program or meeting an unknown opcode is Stuck. */
  function Run(prog: seq<Instr>, packet: seq<Byte>, pc: nat, acc: nat): Verdict
    decreases |prog| - pc
  {
    if pc >= |prog| then Stuck
    else
      var i := prog[pc];
      if i.code == LOAD_BYTE then
        if i.k < |packet| then Run(prog, packet, pc + 1, packet[i.k]) else Returned(0)
      else if i.code == LOAD_HALF then
        if i.k + 2 <= |packet| then Run(prog, packet, pc + 1, Be16(packet, i.k)) else Returned(0)
      else if i.code == LOAD_WORD then
        if i.k + 4 <= |packet| then Run(prog, packet, pc + 1, Be32(packet, i.k)) else Returned(0)
      else if i.code == MASK then Run(prog, packet, pc + 1, And(acc, i.k))
      else if i.code == JUMP_EQ then Run(prog, packet, pc + 1 + (if acc == i.k then i.jt else i.jf), acc)
      else if i.code == RETURN then Returned(i.k)
      else Stuck
  }

  predicate Accepts(prog: seq<Instr>, packet: seq<Byte>) {
    var v := Run(prog, packet, 0, 0);
    v.Returned? && v.k != 0
  }

  /** The kernel's own acceptance conditions: every field fits its width, every
      opcode is known, every jump goes forward to an instruction of the program,
      and the program ends with a return. */
  predicate WellFormed(prog: seq<Instr>) {
    && prog != []
    && prog[|prog| - 1].code == RETURN
    && forall pc :: 0 <= pc < |prog| ==> WellFormedAt(prog, pc)
  }

  predicate WellFormedAt(prog: seq<Instr>, pc: nat)
    requires pc < |prog|
  {
    var i := prog[pc];
    && i.jt < 256 && i.jf < 256 && i.k < 0x1_0000_0000
    && i.code in {LOAD_BYTE, LOAD_HALF, LOAD_WORD, MASK, JUMP_EQ, RETURN}
    && (i.code == JUMP_EQ ==> pc + 1 + i.jt < |prog| && pc + 1 + i.jf < |prog|)
  }

  /** A well-formed program reaches a return on every packet, from every point. */
  lemma {:induction false} WellFormedReturns(prog: seq<Instr>, packet: seq<Byte>, pc: nat, acc: nat)
    requires WellFormed(prog) && pc < |prog|
    ensures Run(prog, packet, pc, acc).Returned?
    decreases |prog| - pc
  {
    var i := prog[pc];
    assert WellFormedAt(prog, pc);
    if i.code == LOAD_BYTE {
      if i.k < |packet| {
        WellFormedReturns(prog, packet, pc + 1, packet[i.k]);
      }
    } else if i.code == LOAD_HALF {
      if i.k + 2 <= |packet| {
        WellFormedReturns(prog, packet, pc + 1, Be16(packet, i.k));
      }
    } else if i.code == LOAD_WORD {
      if i.k + 4 <= |packet| {
        WellFormedReturns(prog, packet, pc + 1, Be32(packet, i.k));
      }
    } else if i.code == MASK {
      WellFormedReturns(prog, packet, pc + 1, And(acc, i.k));
    } else if i.code == JUMP_EQ {
      WellFormedReturns(prog, packet, pc + 1 + (if acc == i.k then i.jt else i.jf), acc);
    }
  }

  /** Jumps are relative, so a program behaves the same behind any prefix. */
  lemma {:induction false} RunBehindPrefix(prefix: seq<Instr>, prog: seq<Instr>, packet: seq<Byte>, pc: nat, acc: nat)
    ensures Run(prefix + prog, packet, |prefix| + pc, acc) == Run(prog, packet, pc, acc)
    decreases |prog| - pc
  {
    if pc < |prog| {
      var i := prog[pc];
      assert (prefix + prog)[|prefix| + pc] == i;
      if i.code == LOAD_BYTE {
        if i.k < |packet| {
          RunBehindPrefix(prefix, prog, packet, pc + 1, packet[i.k]);
        }
      } else if i.code == LOAD_HALF {
        if i.k + 2 <= |packet| {
          RunBehindPrefix(prefix, prog, packet, pc + 1, Be16(packet, i.k));
        }
      } else if i.code == LOAD_WORD {
        if i.k + 4 <= |packet| {
          RunBehindPrefix(prefix, prog, packet, pc + 1, Be32(packet, i.k));
        }
      } else if i.code == MASK {
        RunBehindPrefix(prefix, prog, packet, pc + 1, And(acc, i.k));
      } else if i.code == JUMP_EQ {
        RunBehindPrefix(prefix, prog, packet, pc + 1 + (if acc == i.k then i.jt else i.jf), acc);
      }
    }
  }

  // ---------------------------------------------------------------- compiler

  /** One four-byte address comparison: load at `offset`, expect `expected`. */
  datatype Check = Check(offset: nat, expected: U32)

  function AddressChecks(address: IpAddr, at: nat): seq<Check> {
    seq(|address.Octets()| / 4, w requires 0 <= w < |address.Octets()| / 4 =>
      Check(at + 4 * w, Be32(address.Octets(), 4 * w)))
  }

  function SourceOffset(c: RawConfig): nat {
    if c.Family() == Ipv4 then 12 else 8
  }

  function DestinationOffset(c: RawConfig): nat {
    if c.Family() == Ipv4 then 16 else 24
  }

  function VersionNibble(f: Family): nat {
    if f == Ipv4 then 0x40 else 0x60
  }

  function Checks(c: RawConfig, offset: nat): seq<Check> {
    AddressChecks(c.group, offset + DestinationOffset(c))
    + (if c.source.Source? then AddressChecks(c.source.addr, offset + SourceOffset(c)) else [])
  }

  /** Instruction `i` of a filter before back-patching. */
  function Unpatched(checks: seq<Check>, version: nat, offset: nat, i: nat): Instr
    requires i < 3 + 2 * |checks|
  {
    if i == 0 then Statement(LOAD_BYTE, offset)
    else if i == 1 then Statement(MASK, 0xf0)
    else if i == 2 then Statement(JUMP_EQ, version)
    else if i % 2 == 1 then Statement(LOAD_WORD, checks[(i - 3) / 2].offset)
    else Statement(JUMP_EQ, checks[(i - 4) / 2].expected)
  }

  function Patched(checks: seq<Check>, version: nat, offset: nat, i: nat): Instr
    requires i < 5 + 2 * |checks|
  {
    if i == 3 + 2 * |checks| then Statement(RETURN, ACCEPT_ALL)
    else if i == 4 + 2 * |checks| then Statement(RETURN, 0)
    else
      var u := Unpatched(checks, version, offset, i);
      if u.code == JUMP_EQ then u.(jf := 2 * |checks| + 3 - i) else u
  }

  /** The compiled filter, in closed form: version test, address comparisons,
      accept, reject; every comparison falls through or jumps to the reject. */
  function IpFilter(c: RawConfig, offset: nat): seq<Instr> {
    FilterOf(Checks(c, offset), VersionNibble(c.Family()), offset)
  }

  function FilterOf(checks: seq<Check>, version: nat, offset: nat): seq<Instr> {
    seq(5 + 2 * |checks|, i requires 0 <= i < 5 + 2 * |checks| => Patched(checks, version, offset, i))
  }

  method AddComparison(instructions: seq<Instr>, rejects: seq<nat>, offset: nat, expected: U32)
    returns (instructions': seq<Instr>, rejects': seq<nat>)
    ensures instructions' == instructions + [Statement(LOAD_WORD, offset), Statement(JUMP_EQ, expected)]
    ensures rejects' == rejects + [|instructions| + 1]
  {
    instructions' := instructions + [Statement(LOAD_WORD, offset)];
    rejects' := rejects + [|instructions'|];
    instructions' := instructions' + [Statement(JUMP_EQ, expected)];
  }

  /** The instruction list and the reject list are in step with `checks`. */
  ghost predicate Emitted(instructions: seq<Instr>, rejects: seq<nat>, checks: seq<Check>, version: nat, offset: nat) {
    && |instructions| == 3 + 2 * |checks|
    && (forall i :: 0 <= i < |instructions| ==> instructions[i] == Unpatched(checks, version, offset, i))
    && rejects == seq(1 + |checks|, j => 2 + 2 * j)
  }

  lemma EmitStep(
    instructions: seq<Instr>, rejects: seq<nat>, checks: seq<Check>, version: nat, offset: nat, check: Check)
    requires Emitted(instructions, rejects, checks, version, offset)
    ensures Emitted(
      instructions + [Statement(LOAD_WORD, check.offset), Statement(JUMP_EQ, check.expected)],
      rejects + [|instructions| + 1], checks + [check], version, offset)
  {
    var after := instructions + [Statement(LOAD_WORD, check.offset), Statement(JUMP_EQ, check.expected)];
    forall i | 0 <= i < |after| ensures after[i] == Unpatched(checks + [check], version, offset, i) {
      if i < |instructions| {
        assert instructions[i] == Unpatched(checks, version, offset, i);
      }
    }
  }

  /** Emits the comparisons of one address (the `chunks_exact(4)` loops). */
  method EmitAddress(
    instructions: seq<Instr>, rejects: seq<nat>, address: IpAddr, at: nat,
    ghost checks: seq<Check>, ghost version: nat, ghost offset: nat)
    returns (instructions': seq<Instr>, rejects': seq<nat>)
    requires Emitted(instructions, rejects, checks, version, offset)
    ensures Emitted(instructions', rejects', checks + AddressChecks(address, at), version, offset)
  {
    instructions', rejects' := instructions, rejects;
    var octets := address.Octets();
    assert checks + AddressChecks(address, at)[..0] == checks;
    for word := 0 to |octets| / 4
      invariant Emitted(instructions', rejects', checks + AddressChecks(address, at)[..word], version, offset)
    {
      ghost var done := checks + AddressChecks(address, at)[..word];
      ghost var check := AddressChecks(address, at)[word];
      EmitStep(instructions', rejects', done, version, offset, check);
      assert done + [check] == checks + AddressChecks(address, at)[..word + 1];
      instructions', rejects' := AddComparison(instructions', rejects', at + word * 4, Be32(octets, 4 * word));
    }
    assert AddressChecks(address, at)[..|octets| / 4] == AddressChecks(address, at);
  }

  /** bpf_ip_filter: pushes instructions while collecting the comparisons that
      must jump to the final reject, then back-patches them. */
  method BpfIpFilter(c: RawConfig, offset: nat) returns (instructions: seq<Instr>)
    ensures instructions == IpFilter(c, offset)
  {
    ghost var version := VersionNibble(c.Family());
    instructions := [Statement(LOAD_BYTE, offset), Statement(MASK, 0xf0)];
    var rejects: seq<nat> := [|instructions|];
    instructions := instructions + [Statement(JUMP_EQ, if c.group.V4? then 0x40 else 0x60)];
    var sourceOffset, destinationOffset := offset + 8, offset + 24;
    if c.group.V4? {
      sourceOffset, destinationOffset := offset + 12, offset + 16;
    }
    assert Emitted(instructions, rejects, [], version, offset);
    instructions, rejects := EmitAddress(instructions, rejects, c.group, destinationOffset, [], version, offset);
    ghost var checks := AddressChecks(c.group, destinationOffset);
    assert [] + checks == checks;
    if c.source.Source? {
      instructions, rejects := EmitAddress(instructions, rejects, c.source.addr, sourceOffset, checks, version, offset);
      checks := checks + AddressChecks(c.source.addr, sourceOffset);
    } else {
      assert checks + [] == checks;
    }
    assert checks == Checks(c, offset);
    instructions := instructions + [Statement(RETURN, ACCEPT_ALL)];
    var rejectIndex := |instructions|;
    instructions := instructions + [Statement(RETURN, 0)];
    instructions := BackPatch(instructions, rejects, rejectIndex, checks, version, offset);
  }

  method BackPatch(
    instructions: seq<Instr>, rejects: seq<nat>, rejectIndex: nat,
    ghost checks: seq<Check>, ghost version: nat, ghost offset: nat)
    returns (r: seq<Instr>)
    requires |checks| <= 120
    requires |instructions| == 5 + 2 * |checks| && rejectIndex == 4 + 2 * |checks|
    requires Emitted(instructions[..3 + 2 * |checks|], rejects, checks, version, offset)
    requires instructions[3 + 2 * |checks|] == Statement(RETURN, ACCEPT_ALL)
    requires instructions[rejectIndex] == Statement(RETURN, 0)
    ensures r == FilterOf(checks, version, offset)
  {
    r := instructions;
    assert forall i :: 0 <= i < 3 + 2 * |checks| ==>
      instructions[i] == instructions[..3 + 2 * |checks|][i];
    for n := 0 to |rejects|
      invariant |r| == |instructions|
      invariant forall i :: 0 <= i < |r| ==>
        r[i] == if i < 2 + 2 * n then Patched(checks, version, offset, i) else instructions[i]
    {
      var comparison := rejects[n];
      r := r[comparison := r[comparison].(jf := ToU8(rejectIndex - comparison - 1))];
    }
  }

  // ---------------------------------------------------------------- meaning

  /** Every comparison from the `j`th on is in range and holds. */
  predicate ChecksHold(checks: seq<Check>, j: nat, packet: seq<Byte>) {
    forall t :: j <= t < |checks| ==> CheckHolds(checks[t], packet)
  }

  predicate CheckHolds(check: Check, packet: seq<Byte>) {
    check.offset + 4 <= |packet| && Be32(packet, check.offset) == check.expected
  }

  lemma {:induction false} RunChecks(
    checks: seq<Check>, version: nat, offset: nat, packet: seq<Byte>, j: nat, acc: nat)
    requires j <= |checks|
    ensures Run(FilterOf(checks, version, offset), packet, 3 + 2 * j, acc)
      == Returned(if ChecksHold(checks, j, packet) then ACCEPT_ALL else 0)
    decreases |checks| - j
  {
    var prog := FilterOf(checks, version, offset);
    if j < |checks| {
      assert prog[3 + 2 * j] == Statement(LOAD_WORD, checks[j].offset);
      assert prog[4 + 2 * j] == Instr(JUMP_EQ, 0, 2 * |checks| - 2 * j - 1, checks[j].expected);
      if checks[j].offset + 4 <= |packet| {
        var word := Be32(packet, checks[j].offset);
        RunChecks(checks, version, offset, packet, j + 1, word);
        assert Run(prog, packet, 4 + 2 * |checks|, word) == Returned(0);
        assert ChecksHold(checks, j, packet) <==> CheckHolds(checks[j], packet) && ChecksHold(checks, j + 1, packet);
      } else {
        assert !CheckHolds(checks[j], packet);
      }
    }
  }

  /** What a compiled filter computes. */
  predicate FilterMeaning(checks: seq<Check>, version: nat, offset: nat, packet: seq<Byte>) {
    && offset < |packet|
    && packet[offset] - packet[offset] % 16 == version
    && ChecksHold(checks, 0, packet)
  }

  lemma RunFilter(checks: seq<Check>, version: nat, offset: nat, packet: seq<Byte>)
    ensures Run(FilterOf(checks, version, offset), packet, 0, 0)
      == Returned(if FilterMeaning(checks, version, offset, packet) then ACCEPT_ALL else 0)
  {
    var prog := FilterOf(checks, version, offset);
    assert prog[0] == Statement(LOAD_BYTE, offset) && prog[1] == Statement(MASK, 0xf0);
    assert prog[2] == Instr(JUMP_EQ, 0, 2 * |checks| + 1, version);
    if offset < |packet| {
      var b := packet[offset];
      LowNibble(b);
      var masked := And(b, 0xf0);
      assert Run(prog, packet, 0, 0) == Run(prog, packet, 1, b) == Run(prog, packet, 2, masked);
      RunChecks(checks, version, offset, packet, 0, masked);
      assert Run(prog, packet, 4 + 2 * |checks|, masked) == Returned(0);
    }
  }

  /** Four octets are determined by their big-endian word. */
  lemma WordInjective(a: seq<Byte>, i: nat, b: seq<Byte>, j: nat)
    requires i + 4 <= |a| && j + 4 <= |b|
    ensures Be32(a, i) == Be32(b, j) <==>
      a[i] == b[j] && a[i + 1] == b[j + 1] && a[i + 2] == b[j + 2] && a[i + 3] == b[j + 3]
  {
  }

  /** The packet carries `octets` at position `at`. */
  predicate Carries(packet: seq<Byte>, at: nat, octets: seq<Byte>) {
    at + |octets| <= |packet| && packet[at..at + |octets|] == octets
  }

  /** The word comparisons of an address hold exactly when the packet carries
      that address at that offset. */
  lemma AddressChecksMean(address: IpAddr, at: nat, packet: seq<Byte>)
    requires at + |address.Octets()| <= |packet|
    ensures ChecksHold(AddressChecks(address, at), 0, packet) <==> Carries(packet, at, address.Octets())
  {
    var octets, checks := address.Octets(), AddressChecks(address, at);
    if ChecksHold(checks, 0, packet) {
      forall k | 0 <= k < |octets| ensures packet[at + k] == octets[k] {
        CheckMeans(address, at, packet, k / 4);
      }
    }
    if Carries(packet, at, octets) {
      var carried := packet[at..at + |octets|];
      forall t | 0 <= t < |checks| ensures CheckHolds(checks[t], packet) {
        assert forall k :: 0 <= k < |octets| ==> carried[k] == packet[at + k];
        CheckMeans(address, at, packet, t);
      }
    }
  }

  lemma CheckMeans(address: IpAddr, at: nat, packet: seq<Byte>, t: nat)
    requires at + |address.Octets()| <= |packet| && 4 * t < |address.Octets()|
    ensures CheckHolds(AddressChecks(address, at)[t], packet) <==>
      forall k :: 4 * t <= k < 4 * t + 4 ==> packet[at + k] == address.Octets()[k]
  {
    WordInjective(packet, at + 4 * t, address.Octets(), 4 * t);
  }

  lemma ChecksHoldConcat(a: seq<Check>, b: seq<Check>, packet: seq<Byte>)
    ensures ChecksHold(a + b, 0, packet) <==> ChecksHold(a, 0, packet) && ChecksHold(b, 0, packet)
  {
    if ChecksHold(a + b, 0, packet) {
      forall t | 0 <= t < |a| ensures CheckHolds(a[t], packet) {
        assert (a + b)[t] == a[t];
      }
      forall t | 0 <= t < |b| ensures CheckHolds(b[t], packet) {
        assert (a + b)[|a| + t] == b[t];
      }
    }
  }

  /** The compiled filter is one the kernel loads: jumps forward, one byte wide,
      every path ending at a return. */
  lemma IpFilterWellFormed(c: RawConfig, offset: nat)
    requires offset + 40 <= 0xffff_ffff
    ensures WellFormed(IpFilter(c, offset))
    ensures forall pc :: 0 <= pc < |IpFilter(c, offset)| ==> IpFilter(c, offset)[pc].jf <= 17
  {
    var prog, checks := IpFilter(c, offset), Checks(c, offset);
    assert |checks| <= 8;
    forall t | 0 <= t < |checks| ensures checks[t].offset <= offset + 40 {
    }
    forall pc | 0 <= pc < |prog| ensures WellFormedAt(prog, pc) && prog[pc].jf <= 17 {
      assert prog[pc] == Patched(checks, VersionNibble(c.Family()), offset, pc);
    }
  }

  /** A parsed datagram carries an address of its own family at the source or
      destination field exactly when it parsed to that address. */
  lemma ParsedAddresses(d: seq<Byte>, c: RawConfig, address: IpAddr)
    requires ParseIp(d).Some?
    requires address.Family() == c.Family() == ParseIp(d).value.destination.Family()
    ensures DestinationOffset(c) + |address.Octets()| <= |d| && SourceOffset(c) + |address.Octets()| <= |d|
    ensures Carries(d, DestinationOffset(c), address.Octets()) <==> ParseIp(d).value.destination == address
    ensures Carries(d, SourceOffset(c), address.Octets()) <==> ParseIp(d).value.source == address
  {
    var p := ParseIp(d).value;
    ParsedBounds(d);
    var n := |address.Octets()|;
    assert p.destination.Octets() == d[DestinationOffset(c)..DestinationOffset(c) + n];
    assert p.source.Octets() == d[SourceOffset(c)..SourceOffset(c) + n];
  }

  /** Compiler correctness: on every datagram the parser accepts, the compiled
      filter of a validated config accepts exactly what the userspace predicate
      accepts. */
  lemma IpFilterCorrect(c: RawConfig, d: seq<Byte>)
    requires IsValid(c) && ParseIp(d).Some?
    ensures Accepts(IpFilter(c, 0), d) <==> PacketMatchesConfig(ParseIp(d).value, c)
  {
    var version := VersionNibble(c.Family());
    ParsedBounds(d);
    RunFilter(Checks(c, 0), version, 0, d);
    if c.Family() == ParseIp(d).value.destination.Family() {
      ChecksMean(c, d);
    }
  }

  lemma ChecksMean(c: RawConfig, d: seq<Byte>)
    requires IsValid(c) && ParseIp(d).Some?
    requires c.Family() == ParseIp(d).value.destination.Family()
    ensures ChecksHold(Checks(c, 0), 0, d) <==> PacketMatchesConfig(ParseIp(d).value, c)
  {
    var group := AddressChecks(c.group, DestinationOffset(c));
    ParsedAddresses(d, c, c.group);
    AddressChecksMean(c.group, DestinationOffset(c), d);
    if c.source.Source? {
      ParsedAddresses(d, c, c.source.addr);
      AddressChecksMean(c.source.addr, SourceOffset(c), d);
      ChecksHoldConcat(group, AddressChecks(c.source.addr, SourceOffset(c)), d);
    } else {
      assert Checks(c, 0) == group;
    }
  }

  /** Compiled at offset k, the filter treats a frame as the offset-0 filter
      treats the frame from k on; a frame shorter than k is rejected. */
  lemma IpFilterShift(c: RawConfig, k: nat, frame: seq<Byte>)
    ensures Run(IpFilter(c, k), frame, 0, 0)
      == if k <= |frame| then Run(IpFilter(c, 0), frame[k..], 0, 0) else Returned(0)
  {
    RunFilter(Checks(c, k), VersionNibble(c.Family()), k, frame);
    if k <= |frame| {
      RunFilter(Checks(c, 0), VersionNibble(c.Family()), 0, frame[k..]);
      ChecksShift(c, k, frame);
    }
  }

  lemma ChecksShift(c: RawConfig, k: nat, frame: seq<Byte>)
    requires k <= |frame|
    ensures ChecksHold(Checks(c, k), 0, frame) <==> ChecksHold(Checks(c, 0), 0, frame[k..])
  {
    var atK, at0, d := Checks(c, k), Checks(c, 0), frame[k..];
    assert |atK| == |at0|;
    forall t | 0 <= t < |at0| ensures CheckHolds(atK[t], frame) <==> CheckHolds(at0[t], d) {
      CheckShift(c, k, t);
    }
  }

  lemma CheckShift(c: RawConfig, k: nat, t: nat)
    requires t < |Checks(c, 0)| == |Checks(c, k)|
    ensures Checks(c, k)[t] == Check(Checks(c, 0)[t].offset + k, Checks(c, 0)[t].expected)
  {
  }

  // ---------------------------------------------------------------- family filter

  /** bpf_ip_multicast_family_filter, after back-patching. */
  function FamilyFilter(f: Family, offset: nat): seq<Instr> {
    if f == Ipv4 then
      [Statement(LOAD_BYTE, offset), Statement(MASK, 0xf0), Instr(JUMP_EQ, 0, 4, 0x40),
       Statement(LOAD_BYTE, offset + 16), Statement(MASK, 0xf0), Instr(JUMP_EQ, 0, 1, 0xe0),
       Statement(RETURN, ACCEPT_ALL), Statement(RETURN, 0)]
    else
      [Statement(LOAD_BYTE, offset), Statement(MASK, 0xf0), Instr(JUMP_EQ, 0, 3, 0x60),
       Statement(LOAD_BYTE, offset + 24), Instr(JUMP_EQ, 0, 1, 0xff),
       Statement(RETURN, ACCEPT_ALL), Statement(RETURN, 0)]
  }

  method BpfFamilyFilter(f: Family, offset: nat) returns (instructions: seq<Instr>)
    ensures instructions == FamilyFilter(f, offset)
  {
    var version, destinationOffset, mask: Option<nat>, value := 0x60, offset + 24, None, 0xff;
    if f == Ipv4 {
      version, destinationOffset, mask, value := 0x40, offset + 16, Some(0xf0), 0xe0;
    }
    instructions := [Statement(LOAD_BYTE, offset), Statement(MASK, 0xf0)];
    var rejects: seq<nat> := [|instructions|];
    instructions := instructions + [Statement(JUMP_EQ, version), Statement(LOAD_BYTE, destinationOffset)];
    if mask.Some? {
      instructions := instructions + [Statement(MASK, mask.value)];
    }
    rejects := rejects + [|instructions|];
    instructions := instructions + [Statement(JUMP_EQ, value), Statement(RETURN, ACCEPT_ALL)];
    var rejectIndex := |instructions|;
    instructions := instructions + [Statement(RETURN, 0)];
    ghost var built := instructions;
    for n := 0 to |rejects|
      invariant |instructions| == |built|
      invariant forall i :: 0 <= i < |built| ==>
        (instructions[i] == if i in rejects[..n] then built[i].(jf := rejectIndex - i - 1) else built[i])
    {
      var comparison := rejects[n];
      instructions := instructions[comparison :=
        instructions[comparison].(jf := ToU8(rejectIndex - comparison - 1))];
      assert rejects[..n + 1] == rejects[..n] + [comparison];
    }
    assert rejects == [2, if f == Ipv4 then 5 else 4];
    assert rejects[..|rejects|] == rejects;
    forall i | 0 <= i < |built| ensures instructions[i] == FamilyFilter(f, offset)[i] {
    }
  }

  /** The shared kernel filter accepts exactly the packets of its IP version
      whose first destination octet is a multicast one. */
  lemma FamilyFilterMeaning(f: Family, packet: seq<Byte>)
    ensures var at := if f == Ipv4 then 16 else 24;
      Run(FamilyFilter(f, 0), packet, 0, 0) == Returned(
        if && at < |packet|
           && packet[0] / 16 == (if f == Ipv4 then 4 else 6)
           && (if f == Ipv4 then 224 <= packet[at] < 240 else packet[at] == 255)
        then ACCEPT_ALL else 0)
  {
    if 0 < |packet| {
      LowNibble(packet[0]);
      FamilyFilterTail(f, packet, And(packet[0], 0xf0));
      assert Run(FamilyFilter(f, 0), packet, 0, 0) == Run(FamilyFilter(f, 0), packet, 1, packet[0]);
    }
  }

  lemma FamilyFilterTail(f: Family, packet: seq<Byte>, acc: nat)
    ensures var at := if f == Ipv4 then 16 else 24;
      Run(FamilyFilter(f, 0), packet, 2, acc) == Returned(
        if && at < |packet|
           && acc == VersionNibble(f)
           && (if f == Ipv4 then 224 <= packet[at] < 240 else packet[at] == 255)
        then ACCEPT_ALL else 0)
  {
    var at := if f == Ipv4 then 16 else 24;
    var prog := FamilyFilter(f, 0);
    assert Run(prog, packet, |prog| - 1, acc) == Returned(0);
    if acc == VersionNibble(f) {
      assert Run(prog, packet, 2, acc) == Run(prog, packet, 3, acc);
      if at < |packet| {
        LowNibble(packet[at]);
        var b := if f == Ipv4 then And(packet[at], 0xf0) else packet[at];
        assert Run(prog, packet, 3, acc) == Run(prog, packet, |prog| - 3, b);
        assert Run(prog, packet, |prog| - 2, b) == Returned(ACCEPT_ALL);
        assert Run(prog, packet, |prog| - 1, b) == Returned(0);
      }
    }
  }

  /** The shared kernel filter drops nothing a subscription of its family could
      want. */
  lemma FamilyFilterKeepsWanted(c: RawConfig, d: seq<Byte>)
    requires IsValid(c) && ParseIp(d).Some? && PacketMatchesConfig(ParseIp(d).value, c)
    ensures Accepts(FamilyFilter(c.Family(), 0), d)
  {
    ParsedBounds(d);
    FamilyFilterMeaning(c.Family(), d);
    var at := DestinationOffset(c);
    assert c.group.Octets()[0] == d[at];
  }
}
