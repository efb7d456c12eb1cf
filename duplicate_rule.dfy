/** Asks for every packet to be sent a given number of extra times (DuplicateRule.cs). */
module DuplicateRule {
  import ActionMask
  import opened Numerics
  import opened RuleStates
  import opened ActionResults

  predicate Shaped(s: RuleState) {
    s.payload.Copies?
  }

  function CreateState(count: int): (s: RuleState)
    ensures Shaped(s) && s.payload.duplicateCount == count
    ensures s.lastTick == 0 && s.counter == 0
  {
    RuleState(0, 0, Copies(count))
  }

  /** A positive count asks for at least that many copies; a count of zero or less does nothing. */
  function Evaluate(s: RuleState, r: ActionResult): (e: Evaluation)
    requires Shaped(s)
    ensures s.payload.duplicateCount <= 0 ==> e == Evaluation(ActionMask.None, s, r)
    ensures s.payload.duplicateCount > 0 ==>
      e.mask == ActionMask.Duplicate && e.state == Counted(s)
      && e.result == r.(duplicateCount := Max(r.duplicateCount, s.payload.duplicateCount))
  {
    if s.payload.duplicateCount <= 0 then Evaluation(ActionMask.None, s, r)
    else
      var r' := if s.payload.duplicateCount > r.duplicateCount
                then r.(duplicateCount := s.payload.duplicateCount) else r;
      Evaluation(ActionMask.Duplicate, Counted(s), r')
  }
}
