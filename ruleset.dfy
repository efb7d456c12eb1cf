/**
 * A set of rules ready for the pipeline (Ruleset.cs): the rules in evaluation
 * order, one state per rule aligned by index, and the capability bits that let the
 * pipeline skip a ruleset with nothing in it.
 */
module Rulesets {
  import RuleCapability
  import Wrappers
  import opened RuleFunc
  import opened RuleStates

  class Ruleset {
    const rules: array<RuleKind>
    const states: array<RuleState>
    const capabilities: RuleCapability.Bits

    /** Rules and states are aligned: there is exactly one state per rule. */
    predicate Valid() {
      rules.Length == states.Length
    }

    /** Takes both arrays as they are, without copying either. */
    constructor (rules: array<RuleKind>, states: array<RuleState>, capabilities: RuleCapability.Bits)
      requires rules.Length == states.Length
      ensures Valid()
      ensures this.rules == rules && this.states == states && this.capabilities == capabilities
    {
      this.rules := rules;
      this.states := states;
      this.capabilities := capabilities;
    }

    /**
     * The checked construction: arrays of different lengths are refused (the C#
     * constructor throws), otherwise the ruleset shares the two arrays it was given.
     */
    static method New(rules: array<RuleKind>, states: array<RuleState>, capabilities: RuleCapability.Bits)
      returns (r: Wrappers.Option<Ruleset>)
      ensures r.None? <==> rules.Length != states.Length
      ensures r.Some? ==> r.value.Valid() && r.value.rules == rules && r.value.states == states
                          && r.value.capabilities == capabilities
    {
      if rules.Length != states.Length {
        return Wrappers.None;
      }
      var rs := new Ruleset(rules, states, capabilities);
      return Wrappers.Some(rs);
    }

    /**
     * The ruleset with no rules, no states and no capabilities. The C# `Empty` is one
     * shared `static readonly` instance; here each call allocates its own, which is
     * indistinguishable because an empty ruleset has no state for anyone to write.
     */
    static method Empty() returns (r: Ruleset)
      ensures r.Valid() && r.rules.Length == 0 && r.states.Length == 0
      ensures r.capabilities == RuleCapability.None
    {
      var rules := new RuleKind[0];
      var states := new RuleState[0];
      r := new Ruleset(rules, states, RuleCapability.None);
    }

    /**
     * Builds a ruleset that shares the rules but owns a copy of the states, so
     * the pipeline's writes to one ruleset's states never reach another's.
     * Arrays of different lengths are refused, as in the constructor.
     */
    static method Create(rules: array<RuleKind>, states: array<RuleState>, capabilities: RuleCapability.Bits)
      returns (r: Wrappers.Option<Ruleset>)
      ensures r.None? <==> rules.Length != states.Length
      ensures r.Some? ==> r.value.Valid() && r.value.rules == rules && r.value.capabilities == capabilities
      ensures r.Some? ==> r.value.states != states && fresh(r.value.states)
      ensures r.Some? ==> r.value.states[..] == states[..]
    {
      var cloned := new RuleState[states.Length];
      var i := 0;
      while i < states.Length
        invariant 0 <= i <= states.Length
        invariant cloned[..i] == states[..i]
      {
        cloned[i] := states[i];
        i := i + 1;
      }
      assert cloned[..] == states[..];
      r := New(rules, cloned, capabilities);
    }
  }
}
