/**
 * The token-bucket refill Throttle and Bandwidth share: tokens earned since the
 * last refill are elapsed ticks times the per-second rate, over the tick frequency,
 * rounded toward zero; the bucket is topped up to at most its capacity
 * (ThrottleRule.cs and BandwidthRule.cs, the same lines in both).
 */
module TokenBucket {
  import opened Numerics
  import opened PacketCapture
  import opened RuleStates

  predicate Shaped(s: RuleState) {
    s.payload.Bucket?
  }

  /** The bucket holds between zero and its capacity. */
  predicate Bounded(s: RuleState) {
    Shaped(s) && 0 <= s.payload.tokenBucket <= s.payload.maxTokens
  }

  /** A full bucket of `rate` tokens, refilled at `rate` tokens a second, last refilled at `now`. */
  function Full(rate: int, now: int): (s: RuleState)
    ensures Shaped(s) && (rate >= 0 ==> Bounded(s))
    ensures s.payload.tokenBucket == rate && s.payload.maxTokens == rate && s.payload.tokensPerTick == rate
    ensures s.lastTick == now && s.counter == 0
  {
    RuleState(now, 0, Bucket(rate, rate, rate))
  }

  function Earned(s: RuleState, clock: Clock): int
    requires Shaped(s)
  {
    TruncDiv((clock.now - s.lastTick) * s.payload.tokensPerTick, clock.frequency)
  }

  function Refill(s: RuleState, clock: Clock): (t: RuleState)
    requires Shaped(s)
    ensures Shaped(t)
    ensures Earned(s, clock) > 0 ==>
      t.lastTick == clock.now
      && t.payload.tokenBucket == Min(s.payload.tokenBucket + Earned(s, clock), s.payload.maxTokens)
    ensures Earned(s, clock) <= 0 ==> t == s
    ensures t.counter == s.counter
    ensures t.payload.maxTokens == s.payload.maxTokens && t.payload.tokensPerTick == s.payload.tokensPerTick
    ensures Bounded(s) ==> Bounded(t)
  {
    var tokensToAdd := Earned(s, clock);
    if tokensToAdd > 0 then
      s.(lastTick := clock.now,
         payload := s.payload.(tokenBucket := Min(s.payload.tokenBucket + tokensToAdd, s.payload.maxTokens)))
    else
      s
  }

  /** No time has passed since the last refill, so a refill adds nothing. */
  lemma NoTimeNoTokens(s: RuleState, clock: Clock)
    requires Shaped(s) && s.lastTick == clock.now
    ensures Refill(s, clock) == s
  {
  }
}
