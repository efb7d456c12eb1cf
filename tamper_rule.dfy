/** Marks every packet for the configured rewrites: truncate, corrupt, rewrite (TamperRule.cs). */
module TamperRule {
  import ActionMask
  import ModifyFlags
  import opened RuleStates
  import opened ActionResults

  predicate Shaped(s: RuleState) {
    s.payload.TamperFlags?
  }

  function CreateState(flags: ModifyFlags.Bits): (s: RuleState)
    ensures Shaped(s) && s.payload.flags == flags
    ensures s.lastTick == 0 && s.counter == 0
  {
    RuleState(0, 0, TamperFlags(flags))
  }

  /** No flags: nothing happens. Otherwise the flags are ORed into the result and the packet counted. */
  function Evaluate(s: RuleState, r: ActionResult): (e: Evaluation)
    requires Shaped(s)
    ensures s.payload.flags == ModifyFlags.None ==> e == Evaluation(ActionMask.None, s, r)
    ensures s.payload.flags != ModifyFlags.None ==>
      e.mask == ActionMask.Modify && e.state == Counted(s)
      && e.result == r.(modifyFlags := r.modifyFlags | s.payload.flags)
  {
    var flags := s.payload.flags;
    if flags == ModifyFlags.None then Evaluation(ActionMask.None, s, r)
    else Evaluation(ActionMask.Modify, Counted(s), r.(modifyFlags := r.modifyFlags | flags))
  }

  /** Evaluating the rule again adds no new modify flag. */
  lemma FlagsIdempotent(s: RuleState, r: ActionResult)
    requires Shaped(s)
    ensures var e := Evaluate(s, r);
      Evaluate(e.state, e.result).result.modifyFlags == e.result.modifyFlags
  {
  }
}
