/** Drops TCP segments that open a connection: SYN set and ACK clear (SynDropRule.cs). */
module SynDropRule {
  import ActionMask
  import opened PacketCapture
  import opened Headers
  import opened RuleStates
  import opened ActionResults

  function CreateState(): (s: RuleState)
    ensures s.lastTick == 0 && s.counter == 0 && s.payload.NoPayload?
  {
    Zero
  }

  /** The packet is long enough for both headers, is TCP, and its TCP header fits after the IP header. */
  predicate HasTcpHeader(p: Packet) {
    |p| >= MinTcpPacketLength && p[ProtocolOffset] == TcpProtocol && |p| >= IpHeaderLength(p) + 20
  }

  /** The TCP flags byte has SYN and not ACK. */
  predicate IsConnectionOpen(p: Packet)
    requires HasTcpHeader(p)
  {
    var flags := p[IpHeaderLength(p) + TcpFlagsOffset];
    flags & TcpSyn != 0 && flags & TcpAck == 0
  }

  function Evaluate(packet: Packet, s: RuleState, r: ActionResult): (e: Evaluation)
    ensures e.mask == ActionMask.Drop || e.mask == ActionMask.None
    ensures e.mask == ActionMask.Drop <==> HasTcpHeader(packet) && IsConnectionOpen(packet)
    ensures e.state == if e.mask == ActionMask.Drop then Counted(s) else s
    ensures e.result == r
  {
    if |packet| < MinTcpPacketLength then Evaluation(ActionMask.None, s, r)
    else if packet[ProtocolOffset] != TcpProtocol then Evaluation(ActionMask.None, s, r)
    else
      var ipHeaderLen := IpHeaderLength(packet);
      if |packet| < ipHeaderLen + 20 then Evaluation(ActionMask.None, s, r)
      else
        var tcpFlags := packet[ipHeaderLen + TcpFlagsOffset];
        if tcpFlags & TcpSyn != 0 && tcpFlags & TcpAck == 0 then
          Evaluation(ActionMask.Drop, Counted(s), r)
        else
          Evaluation(ActionMask.None, s, r)
  }
}
