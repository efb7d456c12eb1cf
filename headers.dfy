/**
 * The IPv4 and TCP header offsets the rules read (RFC 791 section 3.1 and
 * RFC 793 section 3.1). Offsets are from the start of the IP packet.
 */
module Headers {
  import opened PacketCapture

  /** A 20-byte IPv4 header followed by a 20-byte TCP header. */
  const MinTcpPacketLength := 40
  /** Offset of the IPv4 protocol field. */
  const ProtocolOffset := 9
  /** IANA protocol number of TCP. */
  const TcpProtocol: bv8 := 6
  /** Offset of the TCP flags byte from the start of the TCP header. */
  const TcpFlagsOffset := 13
  /** Offset of the 16-bit TCP window from the start of the TCP header. */
  const TcpWindowOffset := 14
  const TcpSyn: bv8 := 0x02
  const TcpAck: bv8 := 0x10

  /** The IPv4 header length in bytes: the low nibble of byte 0 (IHL), times four. */
  function IpHeaderLength(p: Packet): (n: int)
    requires |p| > 0
    ensures 0 <= n <= 60 && n % 4 == 0
  {
    ((p[0] & 0x0F) as int) * 4
  }

  /** The TCP window field, read big-endian. */
  function TcpWindow(p: Packet, ihl: int): (w: int)
    requires 0 <= ihl && ihl + TcpWindowOffset + 2 <= |p|
    ensures 0 <= w < 0x1_0000
  {
    (p[ihl + TcpWindowOffset] as int) * 256 + p[ihl + TcpWindowOffset + 1] as int
  }
}
