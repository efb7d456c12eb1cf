/** Delays TCP segments that carry the ACK flag by a fixed number of ticks (AckDelayRule.cs). */
module AckDelayRule {
  import ActionMask
  import opened Numerics
  import opened PacketCapture
  import opened Headers
  import opened RuleStates
  import opened ActionResults

  predicate Shaped(s: RuleState) {
    s.payload.Fixed?
  }

  function CreateState(delayMs: int, frequency: Frequency): (s: RuleState)
    ensures Shaped(s) && s.payload.fixedDelayTicks == TruncDiv(delayMs * frequency, 1000)
    ensures s.lastTick == 0 && s.counter == 0
  {
    RuleState(0, 0, Fixed(TruncDiv(delayMs * frequency, 1000)))
  }

  /** Long enough for both headers, TCP, and the TCP flags byte lies inside the packet. */
  predicate HasTcpFlags(p: Packet) {
    |p| >= MinTcpPacketLength && p[ProtocolOffset] == TcpProtocol && |p| >= IpHeaderLength(p) + 14
  }

  predicate IsAck(p: Packet)
    requires HasTcpFlags(p)
  {
    p[IpHeaderLength(p) + TcpFlagsOffset] & TcpAck != 0
  }

  function Evaluate(packet: Packet, s: RuleState, r: ActionResult): (e: Evaluation)
    requires Shaped(s)
    ensures e.mask == ActionMask.Delay || e.mask == ActionMask.None
    ensures e.mask == ActionMask.Delay <==> HasTcpFlags(packet) && IsAck(packet)
    ensures e.mask == ActionMask.Delay ==>
      e.state == Counted(s) && e.result == r.(delayTicks := Max(r.delayTicks, s.payload.fixedDelayTicks))
    ensures e.mask == ActionMask.None ==> e.state == s && e.result == r
  {
    if |packet| < MinTcpPacketLength then Evaluation(ActionMask.None, s, r)
    else if packet[ProtocolOffset] != TcpProtocol then Evaluation(ActionMask.None, s, r)
    else
      var ipHeaderLen := IpHeaderLength(packet);
      if |packet| < ipHeaderLen + 14 then Evaluation(ActionMask.None, s, r)
      else
        var tcpFlags := packet[ipHeaderLen + TcpFlagsOffset];
        if tcpFlags & TcpAck == 0 then Evaluation(ActionMask.None, s, r)
        else
          var r' := if s.payload.fixedDelayTicks > r.delayTicks then r.(delayTicks := s.payload.fixedDelayTicks) else r;
          Evaluation(ActionMask.Delay, Counted(s), r')
  }
}
