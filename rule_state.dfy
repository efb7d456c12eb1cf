/**
 * The per-rule state a Ruleset keeps next to each rule (RuleState.cs).
 * The C# struct overlays the fields of different rule kinds on the same bytes;
 * here the overlay is a tagged payload, so a rule can only read the fields
 * that its own CreateState wrote.
 */
module RuleStates {
  import ActionMask
  import ModifyFlags
  import opened ActionResults

  datatype Payload =
    | NoPayload
      /** Throttle and Bandwidth. */
    | Bucket(tokenBucket: int, tokensPerTick: int, maxTokens: int)
      /** LossPattern. */
    | Pattern(patternMask: bv64, patternIndex: int, patternLength: int)
      /** Jitter and OutOfOrder. */
    | Rng(rngState: bv32, minDelayTicks: int, maxDelayTicks: int)
      /** Lag, Burst and AckDelay. */
    | Fixed(fixedDelayTicks: int)
      /** Duplicate. */
    | Copies(duplicateCount: int)
      /** Tamper; the C# code keeps the flags in PatternIndex. */
    | TamperFlags(flags: ModifyFlags.Bits)
      /** TcpRst; the C# code keeps the mode in PatternIndex: 0 always, 1 one-shot armed, 2 fired. */
    | RstMode(mode: int)
      /** MtuClamp; the C# code keeps the limit in MaxTokens. */
    | MtuLimit(maxSize: int)
      /** WindowClamp; the C# code keeps the limit in TokenBucket. */
    | WindowLimit(maxWindow: int)

  datatype RuleState = RuleState(lastTick: int, counter: int, payload: Payload)

  /** The zero state (C# `default(RuleState)`). */
  const Zero := RuleState(0, 0, NoPayload)

  /**
   * What one call of a rule function produces: the mask it returns and the new
   * values of its two `ref` parameters, the rule state and the accumulated result.
   */
  datatype Evaluation = Evaluation(mask: ActionMask.Bits, state: RuleState, result: ActionResult)

  /** The state after a rule counted one more match, with nothing else changed. */
  function Counted(s: RuleState): RuleState {
    s.(counter := s.counter + 1)
  }
}
