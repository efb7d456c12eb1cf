/**
 * What the rules of one pipeline pass decided about a packet (ActionResult.cs).
 * Numeric fields only grow (maximum) and flag fields only gain bits (OR).
 */
module ActionResults {
  import ActionMask
  import ModifyFlags
  import opened Numerics

  /** The InjectPacketId of a result that asks for no injection. */
  const NoInjection: int := -1

  datatype ActionResult = ActionResult(
    mask: ActionMask.Bits,
    delayTicks: int,
    duplicateCount: int,
    modifyFlags: ModifyFlags.Bits,
    injectPacketId: int)

  /** The starting point of every evaluation: pass, no delay, no copies, no rewrites, no injection. */
  function Create(): (r: ActionResult)
    ensures r.mask == ActionMask.None && r.modifyFlags == ModifyFlags.None
    ensures r.delayTicks == 0 && r.duplicateCount == 0
    ensures r.injectPacketId == NoInjection
  {
    ActionResult(ActionMask.None, 0, 0, ModifyFlags.None, NoInjection)
  }

  /**
   * Merges one more action into a result: flags are ORed in, the delay and the
   * duplicate count become the larger of the old and the new value.
   */
  function Accumulate(r: ActionResult, mask: ActionMask.Bits, delayTicks: int,
                      duplicateCount: int, modifyFlags: ModifyFlags.Bits): (r': ActionResult)
    ensures r'.mask == r.mask | mask
    ensures r'.delayTicks >= r.delayTicks && r'.delayTicks >= delayTicks
    ensures r'.delayTicks == r.delayTicks || r'.delayTicks == delayTicks
    ensures r'.duplicateCount >= r.duplicateCount && r'.duplicateCount >= duplicateCount
    ensures r'.duplicateCount == r.duplicateCount || r'.duplicateCount == duplicateCount
    ensures r'.modifyFlags == r.modifyFlags | modifyFlags
    ensures r'.injectPacketId == r.injectPacketId
  {
    r.(mask := r.mask | mask,
       delayTicks := if delayTicks > r.delayTicks then delayTicks else r.delayTicks,
       duplicateCount := if duplicateCount > r.duplicateCount then duplicateCount else r.duplicateCount,
       modifyFlags := r.modifyFlags | modifyFlags)
  }

  /** True when the accumulated mask holds Drop or Blackhole. */
  predicate ShouldShortCircuit(r: ActionResult) {
    ActionMask.IsTerminal(r.mask)
  }

  /** The order in which two actions are merged does not matter. */
  lemma AccumulateCommutes(r: ActionResult,
                           m1: ActionMask.Bits, d1: int, c1: int, f1: ModifyFlags.Bits,
                           m2: ActionMask.Bits, d2: int, c2: int, f2: ModifyFlags.Bits)
    ensures Accumulate(Accumulate(r, m1, d1, c1, f1), m2, d2, c2, f2)
         == Accumulate(Accumulate(r, m2, d2, c2, f2), m1, d1, c1, f1)
  {
  }

  /** Merging the same action twice is the same as merging it once. */
  lemma AccumulateIdempotent(r: ActionResult, m: ActionMask.Bits, d: int, c: int, f: ModifyFlags.Bits)
    ensures Accumulate(Accumulate(r, m, d, c, f), m, d, c, f) == Accumulate(r, m, d, c, f)
  {
  }

  /** Once a result short-circuits, no later merge can undo it. */
  lemma ShortCircuitIsSticky(r: ActionResult, m: ActionMask.Bits, d: int, c: int, f: ModifyFlags.Bits)
    requires ShouldShortCircuit(r)
    ensures ShouldShortCircuit(Accumulate(r, m, d, c, f))
  {
  }
}
