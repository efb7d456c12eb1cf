/** Category bits a Ruleset advertises; None lets the pipeline skip evaluation (RuleCapability.cs). */
module RuleCapability {
  type Bits = bv16

  const None: Bits := 0
  const HasDropRules: Bits := 0x01
  const HasDelayRules: Bits := 0x02
  const HasDuplicateRules: Bits := 0x04
  const HasModifyRules: Bits := 0x08
  const HasInjectRules: Bits := 0x10

  /** The bits of either word. */
  function Union(a: Bits, b: Bits): Bits {
    a | b
  }
}
