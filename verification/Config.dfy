/** Subscription configuration and its validation (src/config.rs, src/raw/config.rs). */
module Config {
  import opened Wrappers
  import opened Net

  datatype McrxError =
    | InvalidDestinationPort
    | InvalidMulticastGroup
    | SsmGroupRequiresSource
    | InvalidSourceAddress
    | SourceAddressFamilyMismatch
    | InvalidIpv4SsmGroup
    | InvalidIpv6SsmGroup
    | InterfaceAddressFamilyMismatch
    | InvalidInterfaceIndex
    | InterfaceIndexRequiresIpv6
    | DuplicateSubscription
    | SubscriptionNotFound
    | SubscriptionNotJoined
    | SubscriptionAlreadyJoined
    | InvalidSharedRawCaptureLimits
    | SubscriptionLimitExceeded(limit: nat)
    | InterfaceLookupFailed
    | SocketOpenFailed
    | SocketOptionFailed
    | ReceiveFailed
    | ReceiveMetadataUnavailable
    | NonIpSocketAddress
    | UnsupportedDatalink

  datatype SourceFilter = Any | Source(addr: IpAddr)

  datatype RawConfig = RawConfig(
    group: IpAddr,
    source: SourceFilter,
    interface: Option<IpAddr>,
    interfaceIndex: Option<U32>)
  {
    function Family(): Family {
      group.Family()
    }

    function SourceAddr(): Option<IpAddr> {
      match source
      case Any => None
      case Source(addr) => Some(addr)
    }

    function Validate(): Result<(), McrxError> {
      ValidateMulticastSelection(group, source, interface, interfaceIndex)
    }
  }

  datatype SubscriptionConfig = SubscriptionConfig(
    group: IpAddr,
    source: SourceFilter,
    dstPort: nat,
    interface: Option<IpAddr>,
    interfaceIndex: Option<U32>)
  {
    function Validate(): Result<(), McrxError> {
      if dstPort == 0 then Err(InvalidDestinationPort)
      else ValidateMulticastSelection(group, source, interface, interfaceIndex)
    }

    function Ipv4Membership(): Option<Membership> {
      if group.V6? || (source.Source? && source.addr.V6?) || (interface.Some? && interface.value.V6?) then None
      else Some(Membership(group, if source.Any? then None else Some(source.addr), interface, None))
    }

    function Ipv6Membership(): Option<Membership> {
      if group.V4? || (source.Source? && source.addr.V4?) || (interface.Some? && interface.value.V4?) then None
      else Some(Membership(group, if source.Any? then None else Some(source.addr), interface, interfaceIndex))
    }
  }

  /** The parameters of one kernel membership call. */
  datatype Membership = Membership(
    group: IpAddr,
    source: Option<IpAddr>,
    interface: Option<IpAddr>,
    interfaceIndex: Option<U32>)

  function MembershipCompatConfig(c: RawConfig): SubscriptionConfig {
    SubscriptionConfig(c.group, c.source, 1, c.interface, c.interfaceIndex)
  }

  /** 232.0.0.0/8, section 1 of RFC 4607. */
  predicate IsIpv4SsmGroup(group: Octets4) {
    group[0] == 232
  }

  /** ff3x::/32, section 1 of RFC 4607. */
  predicate IsIpv6SsmGroup(group: Octets16) {
    group[0] == 0xff && group[1] / 16 == 3 && group[2] == 0 && group[3] == 0
  }

  predicate IsSsmGroup(group: IpAddr) {
    if group.V4? then IsIpv4SsmGroup(group.v4) else IsIpv6SsmGroup(group.v6)
  }

  predicate IsValidSourceAddress(source: IpAddr) {
    !source.IsUnspecified() && !source.IsMulticast() && !source.IsBroadcast()
  }

  function ValidateMulticastSelection(
    group: IpAddr, source: SourceFilter, interface: Option<IpAddr>, interfaceIndex: Option<U32>)
    : Result<(), McrxError>
  {
    if !group.IsMulticast() then Err(InvalidMulticastGroup)
    else if source.Any? && IsSsmGroup(group) then Err(SsmGroupRequiresSource)
    else if source.Source? && !IsValidSourceAddress(source.addr) then Err(InvalidSourceAddress)
    else if source.Source? && group.Family() != source.addr.Family() then Err(SourceAddressFamilyMismatch)
    else if source.Source? && group.V4? && !IsIpv4SsmGroup(group.v4) then Err(InvalidIpv4SsmGroup)
    else if source.Source? && group.V6? && !IsIpv6SsmGroup(group.v6) then Err(InvalidIpv6SsmGroup)
    else if interface.Some? && group.Family() != interface.value.Family() then Err(InterfaceAddressFamilyMismatch)
    else if interfaceIndex.Some? && interfaceIndex.value == 0 then Err(InvalidInterfaceIndex)
    else if interfaceIndex.Some? && group.V4? then Err(InterfaceIndexRequiresIpv6)
    else Ok(())
  }

  /** A config the validator lets through. */
  predicate IsValid(c: RawConfig) {
    c.Validate().Ok?
  }

  /** What validation means, independently of the order in which it tests: a
      multicast group, with a source exactly when the group is source-specific,
      and every address of the group's family. */
  lemma ValidationExactly(c: RawConfig)
    ensures IsValid(c) <==>
      && c.group.IsMulticast()
      && (c.source.Source? <==> IsSsmGroup(c.group))
      && (c.source.Source? ==> IsValidSourceAddress(c.source.addr) && c.source.addr.Family() == c.Family())
      && (c.interface.Some? ==> c.interface.value.Family() == c.Family())
      && (c.interfaceIndex.Some? ==> c.interfaceIndex.value != 0 && c.Family() == Ipv6)
  {
  }

  /** The address ranges validation speaks of, in numbers: multicast is
      224.0.0.0-239.255.255.255 and ff00::/8, source-specific 232.0.0.0/8 and the
      sixteen prefixes ff30::/32 to ff3f::/32; a source is any other address but the
      all-zero ones and 255.255.255.255. */
  lemma RangesExactly(a: Octets4, b: Octets16)
    ensures V4(a).IsMulticast() <==> 224 <= a[0] <= 239
    ensures V6(b).IsMulticast() <==> b[0] == 0xff
    ensures IsSsmGroup(V4(a)) <==> a[0] == 232
    ensures IsSsmGroup(V6(b)) <==> b[0] == 0xff && 0x30 <= b[1] <= 0x3f && b[2] == b[3] == 0
    ensures IsValidSourceAddress(V4(a)) <==>
      (a[0] < 224 || 239 < a[0]) && a != [0, 0, 0, 0] && a != [255, 255, 255, 255]
    ensures IsValidSourceAddress(V6(b)) <==> b[0] != 0xff && exists i :: 0 <= i < 16 && b[i] != 0
  {
    assert V4(a).Octets() == a && V6(b).Octets() == b;
    if V4(a).IsUnspecified() {
      assert a == [0, 0, 0, 0];
    }
    if V4(a).IsBroadcast() {
      assert a == [255, 255, 255, 255];
    }
  }

  /** The error of a refused config names something wrong with it. */
  lemma ErrorNamesFault(c: RawConfig)
    requires !IsValid(c)
    ensures match c.Validate().error
      case InvalidMulticastGroup => !c.group.IsMulticast()
      case SsmGroupRequiresSource => c.source.Any? && IsSsmGroup(c.group)
      case InvalidSourceAddress => c.source.Source? && !IsValidSourceAddress(c.source.addr)
      case SourceAddressFamilyMismatch => c.source.Source? && c.source.addr.Family() != c.Family()
      case InvalidIpv4SsmGroup => c.source.Source? && c.group.V4? && c.group.v4[0] != 232
      case InvalidIpv6SsmGroup => c.source.Source? && c.group.V6? && !IsIpv6SsmGroup(c.group.v6)
      case InterfaceAddressFamilyMismatch => c.interface.Some? && c.interface.value.Family() != c.Family()
      case InvalidInterfaceIndex => c.interfaceIndex == Some(0)
      case InterfaceIndexRequiresIpv6 => c.interfaceIndex.Some? && c.group.V4?
      case _ => false
  {
  }

  /** A UDP subscription is valid exactly when its port is not zero and the rest is a
      valid raw selection; it then has the one kernel membership of its family, which is
      its own group, source and interface. */
  lemma UdpValidationExactly(c: SubscriptionConfig)
    ensures c.Validate().Ok? <==>
      c.dstPort != 0 && IsValid(RawConfig(c.group, c.source, c.interface, c.interfaceIndex))
    ensures c.dstPort == 0 ==> c.Validate() == Err(InvalidDestinationPort)
    ensures c.Validate().Ok? ==>
      var source := if c.source.Source? then Some(c.source.addr) else None;
      var own := Membership(c.group, source, c.interface, c.interfaceIndex);
      if c.group.V4? then c.Ipv4Membership() == Some(own) && c.Ipv6Membership() == None
      else c.Ipv6Membership() == Some(own) && c.Ipv4Membership() == None
  {
    ValidationExactly(RawConfig(c.group, c.source, c.interface, c.interfaceIndex));
  }

  /** A validated raw config always converts to exactly one kernel membership,
      the one of its family, carrying its own addresses; no validated raw config
      is refused by the port check of the converted config. */
  lemma MembershipOfValidConfig(c: RawConfig)
    requires IsValid(c)
    ensures var m := MembershipCompatConfig(c);
      && m.Validate().Ok?
      && (m.Ipv4Membership().Some? <==> c.Family() == Ipv4)
      && (m.Ipv6Membership().Some? <==> c.Family() == Ipv6)
      && (c.Family() == Ipv4 ==>
        m.Ipv4Membership().value == Membership(c.group, c.SourceAddr(), c.interface, c.interfaceIndex))
      && (c.Family() == Ipv6 ==>
        m.Ipv6Membership().value == Membership(c.group, c.SourceAddr(), c.interface, c.interfaceIndex))
  {
  }
}
