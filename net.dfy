/**
 * Addresses, frames and routes as the client switcher sees them.
 *
 * An IPv4 address is its 32-bit value; every comparison and mask the switcher
 * applies is between values in one byte order, so the order itself is not
 * modelled. An IPv6 address is kept opaque.
 */
module Net {
  import opened Text

  /** A value that fits in one octet of a header (TTL, ICMP code). */
  type Octet = x: int | 0 <= x < 256

  /** `ip_hdr::IP_PROTO_ICMP`, `IP_PROTO_TCP` and `IP_PROTO_UDP` (RFC 790). */
  const IpProtoIcmp: int := 1
  const IpProtoTcp: int := 6
  const IpProtoUdp: int := 17

  /** `IcmpType::ICMP_ER` and `IcmpType::ICMP_TE` (RFC 792). */
  const IcmpEchoReply: int := 0
  const IcmpTimeExceeded: int := 11

  /** `UINT8_MAX`, the TTL of a synthesised Time Exceeded message. */
  const MaxTtl: Octet := 255

  /** `IPEndPoint::AnyAddress`. */
  const AnyAddress: bv32 := 0

  datatype IpAddress = V4(bits: bv32) | V6(value: nat)

  /** 0.0.0.0; only a v4 address is ever asked. */
  predicate IsUnspecified(a: IpAddress) { a.V4? && a.bits == 0 }

  /** 224.0.0.0/4 (section 4 of RFC 5771). */
  predicate IsMulticast(a: IpAddress) { a.V4? && a.bits & 0xF000_0000 == 0xE000_0000 }

  /** 127.0.0.0/8 (section 3.2.1.3 of RFC 1122). */
  predicate IsLoopback(a: IpAddress) { a.V4? && a.bits & 0xFF00_0000 == 0x7F00_0000 }

  /** The v4 value of an address, or `AnyAddress` for a v6 one (lines 1288-1295). */
  function V4OrAny(a: IpAddress): bv32 {
    if a.V4? then a.bits else AnyAddress
  }

  /** Whether `a` and `b` lie in the same subnet under `mask` (section 3.1 of RFC 4632). */
  predicate SameSubnet(a: bv32, b: bv32, mask: bv32) { a & mask == b & mask }

  datatype Endpoint = Endpoint(address: IpAddress, port: int)

  /** An IPv4 datagram; the header fields the switcher reads and its payload. */
  datatype IpFrame = IpFrame(protocol: int, source: bv32, destination: bv32, ttl: Octet, payload: seq<Byte>)

  /** The ICMP header fields that `IcmpFrame::Parse` decodes from the payload. */
  datatype IcmpHeader = IcmpHeader(kind: int, code: Octet, identification: int, sequence: int, payload: seq<Byte>)

  /** An ICMP message with the addresses and TTL of the datagram that carries it. */
  datatype IcmpFrame = IcmpFrame(
    kind: int, code: Octet, ttl: Octet, source: bv32, destination: bv32,
    identification: int, sequence: int, payload: seq<Byte>)

  /**
   * `IcmpFrame::Parse`: the header comes from `header`, which stands for the
   * byte-level decoding; addresses and TTL are those of the datagram.
   */
  function IcmpOf(packet: IpFrame, header: Option<IcmpHeader>): (r: Option<IcmpFrame>)
    ensures r.Some? <==> header.Some?
    ensures r.Some? ==> r.value.ttl == packet.ttl && r.value.source == packet.source
                        && r.value.destination == packet.destination
  {
    match header
    case None => None
    case Some(h) => Some(IcmpFrame(h.kind, h.code, packet.ttl, packet.source, packet.destination,
                                   h.identification, h.sequence, h.payload))
  }

  /** A UDP datagram; the payload is absent when the frame carries no buffer. */
  datatype UdpFrame = UdpFrame(source: Endpoint, destination: Endpoint, payload: Option<seq<Byte>>)

  /**
   * One addition made to a `RouteInformationTable`: a single route, or every
   * route of an IP-list file, each with its next hop. How the table stores
   * them is not part of this model.
   */
  datatype RibEntry = Route(destination: bv32, prefix: int, nextHop: bv32) | IpList(path: string, nextHop: bv32)

  /** Address, mask, gateway and DNS servers of a network interface. */
  datatype NetworkInterface = NetworkInterface(
    ip: IpAddress, mask: IpAddress, gateway: IpAddress, dns: seq<IpAddress>)

  // ------------------------------------------------------------- ICMP replies

  /** The TTL an Echo Reply carries: one less than the request's, but at least 1 (line 276). */
  function ReplyTtl(ttl: Octet): (r: Octet)
    ensures 1 <= r && (ttl >= 2 ==> r == ttl - 1) && (ttl < 2 ==> r == 1)
  {
    if ttl - 1 < 1 then 1 else ttl - 1
  }

  /** Whether `reply` answers the Echo `request` (RFC 792, "Echo or Echo Reply Message"). */
  predicate AnswersEcho(reply: IcmpFrame, request: IcmpFrame) {
    && reply.kind == IcmpEchoReply
    && reply.source == request.destination && reply.destination == request.source
    && reply.identification == request.identification && reply.sequence == request.sequence
    && reply.payload == request.payload
  }

  /** `VEthernetNetworkSwitcher::ER` without the output: the Echo Reply it builds. */
  function EchoReply(frame: IcmpFrame, ttl: Octet): (e: IcmpFrame)
    ensures AnswersEcho(e, frame) && e.code == frame.code && e.ttl == ttl
  {
    IcmpFrame(IcmpEchoReply, frame.code, ttl, frame.destination, frame.source,
              frame.identification, frame.sequence, frame.payload)
  }

  /**
   * Whether `msg` is a Time Exceeded message ("time to live exceeded in
   * transit", code 0, RFC 792) from `source` about the datagram whose bytes
   * are `original`, sent back to where `frame` came from.
   */
  predicate ReportsTimeExceeded(msg: IcmpFrame, frame: IcmpFrame, original: seq<Byte>, source: bv32) {
    && msg.kind == IcmpTimeExceeded && msg.code == 0
    && msg.source == source && msg.destination == frame.source
    && msg.payload == original
  }

  /** `VEthernetNetworkSwitcher::TE` without the output: the message it builds. */
  function TimeExceeded(frame: IcmpFrame, original: seq<Byte>, source: bv32): (e: IcmpFrame)
    ensures ReportsTimeExceeded(e, frame, original, source)
    ensures e.ttl == MaxTtl && e.identification == 0 && e.sequence == 0
  {
    IcmpFrame(IcmpTimeExceeded, 0, MaxTtl, source, frame.source, 0, 0, original)
  }
}
