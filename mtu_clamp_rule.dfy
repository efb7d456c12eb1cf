/** Marks packets longer than a maximum size for truncation (MtuClampRule.cs). */
module MtuClampRule {
  import ActionMask
  import ModifyFlags
  import opened PacketCapture
  import opened RuleStates
  import opened ActionResults

  predicate Shaped(s: RuleState) {
    s.payload.MtuLimit?
  }

  function CreateState(maxPacketSize: int): (s: RuleState)
    ensures Shaped(s) && s.payload.maxSize == maxPacketSize
    ensures s.lastTick == 0 && s.counter == 0
  {
    RuleState(0, 0, MtuLimit(maxPacketSize))
  }

  function Evaluate(packet: Packet, s: RuleState, r: ActionResult): (e: Evaluation)
    requires Shaped(s)
    ensures |packet| <= s.payload.maxSize ==> e == Evaluation(ActionMask.None, s, r)
    ensures |packet| > s.payload.maxSize ==>
      e.mask == ActionMask.Modify && e.state == Counted(s)
      && e.result == r.(modifyFlags := r.modifyFlags | ModifyFlags.Truncate)
  {
    if |packet| <= s.payload.maxSize then Evaluation(ActionMask.None, s, r)
    else Evaluation(ActionMask.Modify, Counted(s), r.(modifyFlags := r.modifyFlags | ModifyFlags.Truncate))
  }
}
