/** Drops every packet it sees (DropRule.cs). */
module DropRule {
  import ActionMask
  import opened RuleStates
  import opened ActionResults

  function CreateState(): (s: RuleState)
    ensures s.lastTick == 0 && s.counter == 0 && s.payload.NoPayload?
  {
    Zero
  }

  /** Returns Drop, which ends the pipeline, and counts the packet; the result is untouched. */
  function Evaluate(s: RuleState, r: ActionResult): (e: Evaluation)
    ensures e.mask == ActionMask.Drop && ActionMask.IsTerminal(e.mask)
    ensures e.state == Counted(s)
    ensures e.result == r
  {
    Evaluation(ActionMask.Drop, Counted(s), r)
  }
}
