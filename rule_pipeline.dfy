/**
 * The rule pipeline (RulePipeline.cs): it holds the active ruleset, swaps it for a
 * new one, and evaluates a packet by calling the rules in order, each on its own
 * state, ORing each returned mask into the result and stopping right after a rule
 * that returns Drop or Blackhole.
 */
module Pipeline {
  import ActionMask
  import RuleCapability
  import opened PacketCapture
  import opened RuleStates
  import opened ActionResults
  import opened RuleFunc
  import opened Rulesets
  import LagRule
  import DuplicateRule
  import DropRule
  import Numerics

  /** Every rule's state has the shape its kind needs, and there is one state per rule. */
  predicate AllWellFormed(rules: seq<RuleKind>, states: seq<RuleState>) {
    |rules| == |states| && forall i :: 0 <= i < |rules| ==> WellFormed(rules[i], states[i])
  }

  /**
   * One call of a rule on its state and the result so far, giving the mask it
   * returns, its new state and the new result. Any function of this type can stand
   * in for the rules, so a rule that only counts its calls can be put in a ruleset.
   */
  type Step = (RuleKind, RuleState, ActionResult) -> Evaluation

  /** What the pipeline relies on from a rule call: the result's mask is left to the pipeline. */
  ghost predicate Lawful(step: Step) {
    forall k, s, r :: step(k, s, r).result.mask == r.mask
  }

  /**
   * The rules of a ruleset, called on one packet at one instant. A state without
   * the shape its kind needs is never stored (see RulePipeline.Valid); such a call
   * would pass the packet and change nothing.
   */
  function RuleStep(packet: Packet, clock: Clock): Step {
    (k: RuleKind, s: RuleState, r: ActionResult) =>
      if WellFormed(k, s) then Invoke(k, packet, clock, s, r) else Evaluation(ActionMask.None, s, r)
  }

  lemma RuleStepIsLawful(packet: Packet, clock: Clock)
    ensures Lawful(RuleStep(packet, clock))
  {
    forall k, s, r
      ensures RuleStep(packet, clock)(k, s, r).result.mask == r.mask
    {
      if WellFormed(k, s) {
        OnlyAccumulates(k, packet, clock, s, r);
      }
    }
  }

  /**
   * What one evaluation leaves behind: the result, every rule's state afterwards,
   * and the masks returned by the rules that were called, in calling order.
   */
  datatype Walked = Walked(result: ActionResult, states: seq<RuleState>, masks: seq<ActionMask.Bits>)

  /**
   * Calls the rules in order, each on its own state, starting from the result `r`.
   * The rules called are exactly a prefix of the ruleset: every one of them returns
   * a non-terminal mask except possibly the last, and all the rules are called
   * unless one returned Drop or Blackhole. The states of the rules not called are
   * left alone.
   */
  function Walk(step: Step, rules: seq<RuleKind>, states: seq<RuleState>, r: ActionResult): (w: Walked)
    requires |rules| == |states|
    ensures |w.states| == |states|
    ensures |w.masks| <= |rules| && (|rules| > 0 ==> |w.masks| > 0)
    ensures forall j :: 0 <= j < |w.masks| - 1 ==> !ActionMask.IsTerminal(w.masks[j])
    ensures |w.masks| < |rules| ==> ActionMask.IsTerminal(w.masks[|w.masks| - 1])
    ensures forall j :: |w.masks| <= j < |states| ==> w.states[j] == states[j]
    decreases |rules|
  {
    if |rules| == 0 then Walked(r, states, [])
    else
      var e := step(rules[0], states[0], r);
      var r' := e.result.(mask := ActionMask.Union(e.result.mask, e.mask));
      if ActionMask.IsTerminal(e.mask) then
        Walked(r', [e.state] + states[1..], [e.mask])
      else
        var w := Walk(step, rules[1..], states[1..], r');
        Walked(w.result, [e.state] + w.states, [e.mask] + w.masks)
  }

  /** The result's mask is the starting mask with every returned mask ORed in, in calling order. */
  lemma {:induction false} MaskFoldsReturned(step: Step, rules: seq<RuleKind>, states: seq<RuleState>, r: ActionResult)
    requires Lawful(step) && |rules| == |states|
    ensures var w := Walk(step, rules, states, r);
      w.result.mask == ActionMask.OrInto(r.mask, w.masks)
    decreases |rules|
  {
    if |rules| > 0 {
      var e := step(rules[0], states[0], r);
      var r' := e.result.(mask := ActionMask.Union(e.result.mask, e.mask));
      if ActionMask.IsTerminal(e.mask) {
        assert [e.mask][1..] == [];
      } else {
        MaskFoldsReturned(step, rules[1..], states[1..], r');
        var w := Walk(step, rules[1..], states[1..], r');
        assert ([e.mask] + w.masks)[1..] == w.masks;
      }
    }
  }

  /** The result's mask is the starting mask ORed with every mask the called rules returned. */
  lemma MaskIsOrOfReturned(step: Step, rules: seq<RuleKind>, states: seq<RuleState>, r: ActionResult)
    requires Lawful(step) && |rules| == |states|
    ensures var w := Walk(step, rules, states, r);
      w.result.mask == r.mask | ActionMask.OrAll(w.masks)
  {
    var w := Walk(step, rules, states, r);
    MaskFoldsReturned(step, rules, states, r);
    ActionMask.OrIntoIsOr(r.mask, w.masks);
  }

  /** Calling the rules keeps every state in the shape its kind needs. */
  lemma {:induction false} WalkKeepsShape(packet: Packet, clock: Clock, rules: seq<RuleKind>, states: seq<RuleState>,
                                         r: ActionResult)
    requires AllWellFormed(rules, states)
    ensures AllWellFormed(rules, Walk(RuleStep(packet, clock), rules, states, r).states)
    decreases |rules|
  {
    if |rules| > 0 {
      var step := RuleStep(packet, clock);
      var e := step(rules[0], states[0], r);
      var r' := e.result.(mask := ActionMask.Union(e.result.mask, e.mask));
      assert WellFormed(rules[0], e.state);
      if !ActionMask.IsTerminal(e.mask) {
        WalkKeepsShape(packet, clock, rules[1..], states[1..], r');
      }
    }
  }

  /**
   * One evaluation of a ruleset: with no capabilities nothing is called and the
   * result is the initial one; otherwise the rules are walked from the initial result.
   */
  function Outcome(capabilities: RuleCapability.Bits, rules: seq<RuleKind>, states: seq<RuleState>,
                   packet: Packet, clock: Clock): (o: Walked)
    requires |rules| == |states|
    ensures |o.states| == |states|
    ensures capabilities == RuleCapability.None ==> o.result == Create() && o.states == states && o.masks == []
  {
    if capabilities == RuleCapability.None then Walked(Create(), states, [])
    else Walk(RuleStep(packet, clock), rules, states, Create())
  }

  class RulePipeline {
    var ruleset: Ruleset

    /** The active ruleset is aligned and every state fits its rule. */
    predicate Valid()
      reads this, ruleset, ruleset.rules, ruleset.states
    {
      ruleset.Valid() && AllWellFormed(ruleset.rules[..], ruleset.states[..])
    }

    /** A new pipeline starts with the empty ruleset, so it passes every packet untouched. */
    constructor ()
      ensures Valid()
      ensures ruleset.rules.Length == 0 && ruleset.capabilities == RuleCapability.None
    {
      var empty := Ruleset.Empty();
      ruleset := empty;
    }

    function CurrentRuleset(): (r: Ruleset)
      reads this
      ensures r == ruleset
    {
      ruleset
    }

    /** Makes `newRuleset` the one every later evaluation uses. */
    method Swap(newRuleset: Ruleset)
      requires newRuleset.Valid() && AllWellFormed(newRuleset.rules[..], newRuleset.states[..])
      modifies this
      ensures Valid() && CurrentRuleset() == newRuleset
    {
      ruleset := newRuleset;
    }

    /**
     * Evaluates one packet against the active ruleset. The result and the states
     * the rules leave behind are those of Outcome; nothing else changes.
     */
    method Evaluate(packet: Packet, clock: Clock) returns (result: ActionResult)
      requires Valid()
      modifies ruleset.states
      ensures Valid()
      ensures var o := Outcome(ruleset.capabilities, ruleset.rules[..], old(ruleset.states[..]), packet, clock);
        result == o.result && ruleset.states[..] == o.states
    {
      var rs := ruleset;
      if rs.capabilities == RuleCapability.None {
        return Create();
      }
      WalkKeepsShape(packet, clock, rs.rules[..], rs.states[..], Create());
      result := WalkInPlace(RuleStep(packet, clock), rs.rules, rs.states);
    }
  }

  /**
   * One iteration of the pipeline's loop, on sequences: calling rule `i` and
   * storing its new state ends the walk when the rule returned Drop or Blackhole,
   * and otherwise moves it on by one rule.
   */
  lemma StepForward(step: Step, rules: seq<RuleKind>, pre: seq<RuleState>, i: nat, r: ActionResult,
                    masks: seq<ActionMask.Bits>, whole: Walked)
    requires i < |rules| == |pre|
    requires var w := Walk(step, rules[i..], pre[i..], r);
      whole == Walked(w.result, pre[..i] + w.states, masks + w.masks)
    ensures var e := step(rules[i], pre[i], r);
      var r' := e.result.(mask := ActionMask.Union(e.result.mask, e.mask));
      var post := pre[i := e.state];
      if ActionMask.IsTerminal(e.mask) then whole == Walked(r', post, masks + [e.mask])
      else
        var w := Walk(step, rules[i + 1..], post[i + 1..], r');
        whole == Walked(w.result, post[..i + 1] + w.states, (masks + [e.mask]) + w.masks)
  {
    var e := step(rules[i], pre[i], r);
    var post := pre[i := e.state];
    assert rules[i..][0] == rules[i] && rules[i..][1..] == rules[i + 1..];
    assert pre[i..][0] == pre[i] && pre[i..][1..] == pre[i + 1..] == post[i + 1..];
    if ActionMask.IsTerminal(e.mask) {
      StepEnds(pre, i, e.state);
    } else {
      StepGoesOn(step, rules, pre, i, r, masks, whole);
    }
  }

  /** StepForward when rule `i` does not end the walk. */
  lemma StepGoesOn(step: Step, rules: seq<RuleKind>, pre: seq<RuleState>, i: nat, r: ActionResult,
                   masks: seq<ActionMask.Bits>, whole: Walked)
    requires i < |rules| == |pre|
    requires var w := Walk(step, rules[i..], pre[i..], r);
      whole == Walked(w.result, pre[..i] + w.states, masks + w.masks)
    requires !ActionMask.IsTerminal(step(rules[i], pre[i], r).mask)
    ensures var e := step(rules[i], pre[i], r);
      var r' := e.result.(mask := ActionMask.Union(e.result.mask, e.mask));
      var post := pre[i := e.state];
      var w := Walk(step, rules[i + 1..], post[i + 1..], r');
      whole == Walked(w.result, post[..i + 1] + w.states, (masks + [e.mask]) + w.masks)
  {
    var e := step(rules[i], pre[i], r);
    var r' := e.result.(mask := ActionMask.Union(e.result.mask, e.mask));
    var post := pre[i := e.state];
    assert rules[i..][0] == rules[i] && rules[i..][1..] == rules[i + 1..];
    assert pre[i..][0] == pre[i] && pre[i..][1..] == pre[i + 1..] == post[i + 1..];
    var w' := Walk(step, rules[i + 1..], post[i + 1..], r');
    assert Walk(step, rules[i..], pre[i..], r) == Walked(w'.result, [e.state] + w'.states, [e.mask] + w'.masks);
    assert pre[..i] + ([e.state] + w'.states) == post[..i + 1] + w'.states by {
      assert post[..i + 1] == pre[..i] + [e.state];
    }
    assert masks + ([e.mask] + w'.masks) == (masks + [e.mask]) + w'.masks;
  }

  lemma StepEnds(pre: seq<RuleState>, i: nat, s: RuleState)
    requires i < |pre|
    ensures pre[i := s] == pre[..i] + ([s] + pre[i + 1..])
  {
    assert pre[i := s] == pre[..i] + [s] + pre[i + 1..];
  }

  /**
   * The loop of the pipeline's Evaluate: calls the rules in order, each on its own
   * state, updating the state in place and ORing the returned mask into the result,
   * and stops right after a rule returns Drop or Blackhole.
   */
  method WalkInPlace(step: Step, rules: array<RuleKind>, states: array<RuleState>) returns (result: ActionResult)
    requires rules.Length == states.Length
    modifies states
    ensures var w := Walk(step, rules[..], old(states[..]), Create());
      result == w.result && states[..] == w.states
  {
    result := Create();
    ghost var whole := Walk(step, rules[..], states[..], result);
    ghost var masks: seq<ActionMask.Bits> := [];
    var i := 0;
    assert rules[..][0..] == rules[..] && states[..][0..] == states[..];
    while i < rules.Length
      invariant 0 <= i <= rules.Length == states.Length
      invariant var w := Walk(step, rules[..][i..], states[..][i..], result);
        whole == Walked(w.result, states[..][..i] + w.states, masks + w.masks)
    {
      ghost var pre := states[..];
      var e := step(rules[i], states[i], result);
      StepForward(step, rules[..], pre, i, result, masks, whole);
      states[i] := e.state;
      result := e.result.(mask := ActionMask.Union(e.result.mask, e.mask));
      masks := masks + [e.mask];
      assert states[..] == pre[i := e.state];
      if ActionMask.IsTerminal(e.mask) {
        assert whole == Walked(result, states[..], masks);
        break;
      }
      assert states[..][..i + 1] == pre[i := e.state][..i + 1] && states[..][i + 1..] == pre[i := e.state][i + 1..];
      i := i + 1;
    }
    if i == rules.Length {
      assert rules[..][i..] == [] && states[..][i..] == [] && states[..][..i] == states[..];
    }
  }

  /** With nothing to evaluate, any ruleset leaves the initial result and every state as they are. */
  lemma NoRulesNoChange(capabilities: RuleCapability.Bits, packet: Packet, clock: Clock)
    ensures Outcome(capabilities, [], [], packet, clock) == Walked(Create(), [], [])
  {
  }

  /** Walking a single rule calls it once and stores its new state. */
  lemma WalkOne(step: Step, k: RuleKind, s: RuleState, r: ActionResult)
    ensures var e := step(k, s, r);
      Walk(step, [k], [s], r)
        == Walked(e.result.(mask := ActionMask.Union(e.result.mask, e.mask)), [e.state], [e.mask])
  {
    assert [k][1..] == [] && [s][1..] == [];
  }

  /** Walking two rules, spelled out: the second is called only when the first did not end the walk. */
  lemma WalkTwo(step: Step, k0: RuleKind, k1: RuleKind, s0: RuleState, s1: RuleState, r: ActionResult)
    ensures var e0 := step(k0, s0, r);
      var r1 := e0.result.(mask := ActionMask.Union(e0.result.mask, e0.mask));
      var e1 := step(k1, s1, r1);
      var r2 := e1.result.(mask := ActionMask.Union(e1.result.mask, e1.mask));
      Walk(step, [k0, k1], [s0, s1], r)
        == if ActionMask.IsTerminal(e0.mask) then Walked(r1, [e0.state, s1], [e0.mask])
           else Walked(r2, [e0.state, e1.state], [e0.mask, e1.mask])
  {
    var e0 := step(k0, s0, r);
    var r1 := e0.result.(mask := ActionMask.Union(e0.result.mask, e0.mask));
    assert [k0, k1][1..] == [k1] && [s0, s1][1..] == [s1];
    if !ActionMask.IsTerminal(e0.mask) {
      WalkOne(step, k1, s1, r1);
    }
  }

  /**
   * A rule placed after a Drop rule is never called: only Drop's mask is
   * returned, the result drops the packet, and the later rule's state is unchanged.
   */
  lemma DropShieldsLaterRules(capabilities: RuleCapability.Bits, kind: RuleKind, s0: RuleState, s1: RuleState,
                              packet: Packet, clock: Clock)
    requires capabilities != RuleCapability.None
    ensures var o := Outcome(capabilities, [RuleKind.Drop, kind], [s0, s1], packet, clock);
      o.masks == [ActionMask.Drop] && ShouldShortCircuit(o.result) && o.states[1] == s1
      && o.states[0].counter == s0.counter + 1
  {
    var step := RuleStep(packet, clock);
    WalkTwo(step, RuleKind.Drop, kind, s0, s1, Create());
    assert WellFormed(RuleKind.Drop, s0);
    assert Invoke(RuleKind.Drop, packet, clock, s0, Create()) == DropRule.Evaluate(s0, Create());
    assert step(RuleKind.Drop, s0, Create()) == DropRule.Evaluate(s0, Create());
  }

  /** Two fixed delays give the larger delay whichever comes first. */
  lemma LagOrderIrrelevant(a: int, b: int, packet: Packet, clock: Clock)
    ensures var s := [LagRule.CreateState(a), LagRule.CreateState(b)];
      var t := [LagRule.CreateState(b), LagRule.CreateState(a)];
      var rules := [RuleKind.Lag, RuleKind.Lag];
      Outcome(RuleCapability.HasDelayRules, rules, s, packet, clock).result.delayTicks
        == Outcome(RuleCapability.HasDelayRules, rules, t, packet, clock).result.delayTicks
        == Numerics.Max(0, Numerics.Max(a, b))
  {
    var step := RuleStep(packet, clock);
    var sa, sb := LagRule.CreateState(a), LagRule.CreateState(b);
    assert !ActionMask.IsTerminal(ActionMask.Delay);
    assert WellFormed(RuleKind.Lag, sa) && WellFormed(RuleKind.Lag, sb);
    assert Invoke(RuleKind.Lag, packet, clock, sa, Create()) == LagRule.Evaluate(sa, Create());
    assert Invoke(RuleKind.Lag, packet, clock, sb, Create()) == LagRule.Evaluate(sb, Create());
    var ea, eb := LagRule.Evaluate(sa, Create()), LagRule.Evaluate(sb, Create());
    var ra := ea.result.(mask := ActionMask.Union(ea.result.mask, ea.mask));
    var rb := eb.result.(mask := ActionMask.Union(eb.result.mask, eb.mask));
    assert step(RuleKind.Lag, sb, ra) == LagRule.Evaluate(sb, ra);
    assert step(RuleKind.Lag, sa, rb) == LagRule.Evaluate(sa, rb);
    WalkTwo(step, RuleKind.Lag, RuleKind.Lag, sa, sb, Create());
    WalkTwo(step, RuleKind.Lag, RuleKind.Lag, sb, sa, Create());
  }

  /** Two duplicate rules asking for 2 and 5 copies give 5 copies in either order. */
  lemma DuplicatesTakeTheLarger(packet: Packet, clock: Clock)
    ensures var rules := [RuleKind.Duplicate, RuleKind.Duplicate];
      var s := [DuplicateRule.CreateState(2), DuplicateRule.CreateState(5)];
      var t := [DuplicateRule.CreateState(5), DuplicateRule.CreateState(2)];
      Outcome(RuleCapability.HasDuplicateRules, rules, s, packet, clock).result.duplicateCount == 5
      && Outcome(RuleCapability.HasDuplicateRules, rules, t, packet, clock).result.duplicateCount == 5
  {
    var step := RuleStep(packet, clock);
    var s2, s5 := DuplicateRule.CreateState(2), DuplicateRule.CreateState(5);
    WalkTwo(step, RuleKind.Duplicate, RuleKind.Duplicate, s2, s5, Create());
    WalkTwo(step, RuleKind.Duplicate, RuleKind.Duplicate, s5, s2, Create());
  }
}
