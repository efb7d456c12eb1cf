/** Marks TCP segments advertising a window above a maximum for window clamping (WindowClampRule.cs). */
module WindowClampRule {
  import ActionMask
  import ModifyFlags
  import opened PacketCapture
  import opened Headers
  import opened RuleStates
  import opened ActionResults

  type UInt16 = x: int | 0 <= x < 0x1_0000

  predicate Shaped(s: RuleState) {
    s.payload.WindowLimit?
  }

  function CreateState(maxWindowSize: UInt16): (s: RuleState)
    ensures Shaped(s) && s.payload.maxWindow == maxWindowSize
    ensures s.lastTick == 0 && s.counter == 0
  {
    RuleState(0, 0, WindowLimit(maxWindowSize))
  }

  /** Long enough for both headers, TCP, and the 16-bit window lies inside the packet. */
  predicate HasTcpWindow(p: Packet) {
    |p| >= MinTcpPacketLength && p[ProtocolOffset] == TcpProtocol && |p| >= IpHeaderLength(p) + 16
  }

  /** The limit as the C# `(ushort)` cast reads the stored int: its low 16 bits. */
  function Limit(s: RuleState): int
    requires Shaped(s)
  {
    s.payload.maxWindow % 0x1_0000
  }

  function Evaluate(packet: Packet, s: RuleState, r: ActionResult): (e: Evaluation)
    requires Shaped(s)
    ensures e.mask == ActionMask.Modify || e.mask == ActionMask.None
    ensures e.mask == ActionMask.Modify <==>
      HasTcpWindow(packet) && TcpWindow(packet, IpHeaderLength(packet)) > Limit(s)
    ensures e.mask == ActionMask.Modify ==>
      e.state == Counted(s) && e.result == r.(modifyFlags := r.modifyFlags | ModifyFlags.WindowClamp)
    ensures e.mask == ActionMask.None ==> e.state == s && e.result == r
  {
    if |packet| < MinTcpPacketLength then Evaluation(ActionMask.None, s, r)
    else if packet[ProtocolOffset] != TcpProtocol then Evaluation(ActionMask.None, s, r)
    else
      var ipHeaderLen := IpHeaderLength(packet);
      if |packet| < ipHeaderLen + 16 then Evaluation(ActionMask.None, s, r)
      else
        var currentWindow := TcpWindow(packet, ipHeaderLen);
        if currentWindow <= Limit(s) then Evaluation(ActionMask.None, s, r)
        else Evaluation(ActionMask.Modify, Counted(s), r.(modifyFlags := r.modifyFlags | ModifyFlags.WindowClamp))
  }
}
