/** Silently discards every packet it sees (BlackholeRule.cs). */
module BlackholeRule {
  import ActionMask
  import opened RuleStates
  import opened ActionResults

  function CreateState(): (s: RuleState)
    ensures s.lastTick == 0 && s.counter == 0 && s.payload.NoPayload?
  {
    Zero
  }

  /** Returns Blackhole, which ends the pipeline, and counts the packet; the result is untouched. */
  function Evaluate(s: RuleState, r: ActionResult): (e: Evaluation)
    ensures e.mask == ActionMask.Blackhole && ActionMask.IsTerminal(e.mask)
    ensures e.state == Counted(s)
    ensures e.result == r
  {
    Evaluation(ActionMask.Blackhole, Counted(s), r)
  }
}
