/** Passes at most a given number of packets per second, one token per packet (ThrottleRule.cs). */
module ThrottleRule {
  import ActionMask
  import opened PacketCapture
  import opened RuleStates
  import opened ActionResults
  import TokenBucket

  /** A full bucket of `packetsPerSecond` tokens, refilled at that rate from `clock.now`. */
  function CreateState(packetsPerSecond: int, clock: Clock): (s: RuleState)
    ensures TokenBucket.Shaped(s)
    ensures s.payload.tokenBucket == packetsPerSecond && s.payload.maxTokens == packetsPerSecond
    ensures s.payload.tokensPerTick == packetsPerSecond
    ensures s.lastTick == clock.now && s.counter == 0
  {
    TokenBucket.Full(packetsPerSecond, clock.now)
  }

  /** Refills, then spends one token to pass the packet, or drops it when the bucket is empty. */
  function Evaluate(clock: Clock, s: RuleState, r: ActionResult): (e: Evaluation)
    requires TokenBucket.Shaped(s)
    ensures TokenBucket.Shaped(e.state)
    ensures var t := TokenBucket.Refill(s, clock);
      (e.mask == ActionMask.None <==> t.payload.tokenBucket > 0)
      && (e.mask == ActionMask.None ==>
            e.state == Counted(t).(payload := t.payload.(tokenBucket := t.payload.tokenBucket - 1)))
      && (e.mask != ActionMask.None ==> e.mask == ActionMask.Drop && e.state == t)
    ensures TokenBucket.Bounded(s) ==> TokenBucket.Bounded(e.state)
    ensures e.result == r
  {
    var t := TokenBucket.Refill(s, clock);
    if t.payload.tokenBucket > 0 then
      Evaluation(ActionMask.None,
                 Counted(t).(payload := t.payload.(tokenBucket := t.payload.tokenBucket - 1)), r)
    else
      Evaluation(ActionMask.Drop, t, r)
  }

  /** The masks returned for `n` packets arriving at the same instant. */
  function Run(clock: Clock, s: RuleState, n: nat): (ms: seq<ActionMask.Bits>)
    requires TokenBucket.Shaped(s)
    ensures |ms| == n
    decreases n
  {
    if n == 0 then []
    else
      var e := Evaluate(clock, s, Create());
      [e.mask] + Run(clock, e.state, n - 1)
  }

  /** With no time elapsed, the first `tokenBucket` packets pass and every later one is dropped. */
  lemma {:induction false} RunWithoutTime(clock: Clock, s: RuleState, n: nat, j: nat)
    requires TokenBucket.Shaped(s) && s.lastTick == clock.now && s.payload.tokenBucket >= 0
    requires j < n
    ensures Run(clock, s, n)[j] == if j < s.payload.tokenBucket then ActionMask.None else ActionMask.Drop
    decreases n
  {
    TokenBucket.NoTimeNoTokens(s, clock);
    if j > 0 {
      var e := Evaluate(clock, s, Create());
      RunWithoutTime(clock, e.state, n - 1, j - 1);
    }
  }

  /** A fresh limit of N packets a second passes exactly N packets at one instant and drops the next. */
  lemma PassesExactlyRate(clock: Clock, rate: nat)
    ensures Run(clock, CreateState(rate, clock), rate + 1)
         == seq(rate + 1, j => if j < rate then ActionMask.None else ActionMask.Drop)
  {
    var s := CreateState(rate, clock);
    var run := Run(clock, s, rate + 1);
    forall j | 0 <= j < rate + 1
      ensures run[j] == if j < rate then ActionMask.None else ActionMask.Drop
    {
      RunWithoutTime(clock, s, rate + 1, j);
    }
  }
}
