/** Received packets and their metadata (src/packet.rs, src/raw/packet.rs). */
module Packets {
  import opened Wrappers
  import opened Net
  import opened Config
  import opened IpParsing

  type SubscriptionId = nat

  datatype ReceiveMetadata = ReceiveMetadata(
    configuredInterface: Option<IpAddr>,
    configuredInterfaceIndex: Option<U32>,
    destinationLocalIp: Option<IpAddr>,
    ingressInterfaceIndex: Option<U32>)

  datatype RawPacket = RawPacket(
    subscriptionId: SubscriptionId,
    datagram: seq<Byte>,
    sourceIp: Option<IpAddr>,
    group: Option<IpAddr>,
    ipProtocol: Option<Byte>,
    metadata: ReceiveMetadata)

  /** raw_packet_from_parts with the metadata every raw receive path fills in:
      the datagram is trimmed to its IP length. */
  function RawPacketFromParts(
    id: SubscriptionId, datagram: seq<Byte>, p: ParsedIp, c: RawConfig, ingress: Option<U32>): RawPacket
    requires p.length <= |datagram|
  {
    RawPacket(id, datagram[..p.length], Some(p.source), Some(p.destination), Some(p.protocol),
      ReceiveMetadata(c.interface, c.interfaceIndex, Some(p.destination), ingress))
  }

  /** RawCapturedDatagram: a parsed datagram read from a shared capture socket. */
  datatype Captured = Captured(
    datagram: seq<Byte>,
    sourceIp: IpAddr,
    group: IpAddr,
    protocol: Byte,
    ingress: Option<U32>)

  /** raw_packet_from_captured. */
  function RawPacketFromCaptured(id: SubscriptionId, c: RawConfig, captured: Captured): RawPacket {
    RawPacket(id, captured.datagram, Some(captured.sourceIp), Some(captured.group), Some(captured.protocol),
      ReceiveMetadata(c.interface, c.interfaceIndex, Some(captured.group), captured.ingress))
  }
}
