/** Holds every packet back by a fixed number of ticks (LagRule.cs). */
module LagRule {
  import ActionMask
  import opened Numerics
  import opened RuleStates
  import opened ActionResults

  predicate Shaped(s: RuleState) {
    s.payload.Fixed?
  }

  /**
   * The state for a fixed delay. The C# factory converts milliseconds to ticks
   * through a double; the converted tick count is the parameter here.
   */
  function CreateState(fixedDelayTicks: int): (s: RuleState)
    ensures Shaped(s) && s.payload.fixedDelayTicks == fixedDelayTicks
    ensures s.lastTick == 0 && s.counter == 0
  {
    RuleState(0, 0, Fixed(fixedDelayTicks))
  }

  /** Asks for a delay of at least the fixed delay and counts the packet. */
  function Evaluate(s: RuleState, r: ActionResult): (e: Evaluation)
    requires Shaped(s)
    ensures e.mask == ActionMask.Delay
    ensures e.state == Counted(s)
    ensures e.result.delayTicks == Max(r.delayTicks, s.payload.fixedDelayTicks)
    ensures e.result == r.(delayTicks := e.result.delayTicks)
  {
    var r' := if s.payload.fixedDelayTicks > r.delayTicks then r.(delayTicks := s.payload.fixedDelayTicks) else r;
    Evaluation(ActionMask.Delay, Counted(s), r')
  }
}
