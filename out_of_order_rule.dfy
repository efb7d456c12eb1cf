/**
 * Reorders traffic by giving each packet a pseudo-random delay in [0, max] ticks;
 * a draw of zero lets the packet pass undelayed (OutOfOrderRule.cs).
 */
module OutOfOrderRule {
  import ActionMask
  import opened Numerics
  import opened PacketCapture
  import opened RuleStates
  import opened ActionResults
  import XorShift

  /** The seed used when the caller passes 0. */
  const DefaultSeed: bv32 := 54321

  /** A generator state and a non-negative bound; a bound of -1 would make the C# code divide by zero. */
  predicate Shaped(s: RuleState) {
    s.payload.Rng? && 0 <= s.payload.maxDelayTicks <= Int32Max
  }

  function CreateState(maxDelayMs: int, seed: bv32, frequency: Frequency): (s: RuleState)
    ensures s.payload.Rng? && s.payload.rngState != 0
    ensures s.payload.rngState == if seed == 0 then DefaultSeed else seed
    ensures s.payload.maxDelayTicks == ToInt32(TruncDiv(maxDelayMs * frequency, 1000))
    ensures s.payload.minDelayTicks == 0
    ensures maxDelayMs >= 0 && maxDelayMs * frequency < 1000 * 0x8000_0000 ==> Shaped(s)
    ensures s.lastTick == 0 && s.counter == 0
  {
    RuleState(0, 0, Rng(if seed == 0 then DefaultSeed else seed,
                         0, ToInt32(TruncDiv(maxDelayMs * frequency, 1000))))
  }

  /** The delay a generator output `x` picks: `x` modulo `max + 1`. */
  function Pick(x: bv32, max: int): (d: int)
    requires 0 <= max
    ensures 0 <= d <= max
  {
    (x as int) % (max + 1)
  }

  /**
   * Steps the generator once and picks a delay in [0, max]; asks for at least that
   * delay and returns Delay when it is positive, None when it is zero. Counts every packet.
   */
  function Evaluate(s: RuleState, r: ActionResult): (e: Evaluation)
    requires Shaped(s)
    ensures Shaped(e.state)
    ensures e.state.payload.rngState == XorShift.Next(s.payload.rngState)
    ensures e.state == Counted(s).(payload := s.payload.(rngState := e.state.payload.rngState))
    ensures var d := Pick(e.state.payload.rngState, s.payload.maxDelayTicks);
      0 <= d <= s.payload.maxDelayTicks
      && e.result.delayTicks == Max(r.delayTicks, d)
      && e.mask == (if d > 0 then ActionMask.Delay else ActionMask.None)
    ensures e.result == r.(delayTicks := e.result.delayTicks)
  {
    var x := XorShift.Next(s.payload.rngState);
    var delay := Pick(x, s.payload.maxDelayTicks);
    var r' := if delay > r.delayTicks then r.(delayTicks := delay) else r;
    Evaluation(if delay > 0 then ActionMask.Delay else ActionMask.None,
               Counted(s).(payload := s.payload.(rngState := x)), r')
  }
}
