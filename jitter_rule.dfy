/** Adds a pseudo-random delay drawn from [min, max] ticks to every packet (JitterRule.cs). */
module JitterRule {
  import ActionMask
  import opened Numerics
  import opened PacketCapture
  import opened RuleStates
  import opened ActionResults
  import XorShift

  /** The seed used when the caller passes 0, which xorshift would never leave. */
  const DefaultSeed: bv32 := 12345

  /**
   * The state Jitter works on: a generator state and a range whose width fits the
   * unsigned 32-bit modulus the C# code takes (otherwise it divides by zero).
   */
  predicate Shaped(s: RuleState) {
    s.payload.Rng?
    && IsInt32(s.payload.minDelayTicks) && IsInt32(s.payload.maxDelayTicks)
    && s.payload.minDelayTicks <= s.payload.maxDelayTicks
    && s.payload.maxDelayTicks - s.payload.minDelayTicks <= Int32Max
  }

  /** Milliseconds to ticks with 64-bit arithmetic, then the C# `(int)` cast. */
  function MsToTicks(ms: int, frequency: Frequency): int {
    ToInt32(TruncDiv(ms * frequency, 1000))
  }

  function CreateState(minDelayMs: int, maxDelayMs: int, seed: bv32, frequency: Frequency): (s: RuleState)
    ensures s.payload.Rng? && s.payload.rngState != 0
    ensures s.payload.rngState == if seed == 0 then DefaultSeed else seed
    ensures s.payload.minDelayTicks == MsToTicks(minDelayMs, frequency)
    ensures s.payload.maxDelayTicks == MsToTicks(maxDelayMs, frequency)
    ensures s.lastTick == 0 && s.counter == 0
  {
    RuleState(0, 0, Rng(if seed == 0 then DefaultSeed else seed,
                         MsToTicks(minDelayMs, frequency), MsToTicks(maxDelayMs, frequency)))
  }

  /** The delay a generator output `x` picks: `min` plus `x` modulo the width of the range. */
  function Pick(x: bv32, min: int, max: int): (d: int)
    requires min <= max
    ensures min <= d <= max
  {
    min + (x as int) % (max - min + 1)
  }

  /**
   * Steps the generator once, picks a delay in [min, max] from the new value, asks
   * for at least that delay and counts the packet.
   */
  function Evaluate(s: RuleState, r: ActionResult): (e: Evaluation)
    requires Shaped(s)
    ensures Shaped(e.state)
    ensures e.mask == ActionMask.Delay
    ensures e.state.payload.rngState == XorShift.Next(s.payload.rngState)
    ensures e.state == Counted(s).(payload := s.payload.(rngState := e.state.payload.rngState))
    ensures var d := Pick(e.state.payload.rngState, s.payload.minDelayTicks, s.payload.maxDelayTicks);
      s.payload.minDelayTicks <= d <= s.payload.maxDelayTicks
      && e.result.delayTicks == Max(r.delayTicks, d)
    ensures e.result == r.(delayTicks := e.result.delayTicks)
  {
    var x := XorShift.Next(s.payload.rngState);
    var delay := Pick(x, s.payload.minDelayTicks, s.payload.maxDelayTicks);
    var r' := if delay > r.delayTicks then r.(delayTicks := delay) else r;
    Evaluation(ActionMask.Delay, Counted(s).(payload := s.payload.(rngState := x)), r')
  }

  /** A generator that starts non-zero stays non-zero, so the delays never lock onto `min`. */
  lemma {:induction false} GeneratorNeverStalls(s: RuleState, n: nat)
    requires Shaped(s) && s.payload.rngState != 0
    ensures After(s, n).payload.rngState != 0
    decreases n
  {
    if n > 0 {
      GeneratorNeverStalls(Evaluate(s, Create()).state, n - 1);
    }
  }

  /** The state after `n` packets. */
  function After(s: RuleState, n: nat): (t: RuleState)
    requires Shaped(s)
    ensures Shaped(t)
    decreases n
  {
    if n == 0 then s else After(Evaluate(s, Create()).state, n - 1)
  }
}
