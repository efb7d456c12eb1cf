/** Passes at most a given number of bytes per second, one token per byte (BandwidthRule.cs). */
module BandwidthRule {
  import ActionMask
  import opened PacketCapture
  import opened RuleStates
  import opened ActionResults
  import TokenBucket

  /** A full bucket of `bytesPerSecond` tokens, refilled at that rate from `clock.now`. */
  function CreateState(bytesPerSecond: int, clock: Clock): (s: RuleState)
    ensures TokenBucket.Shaped(s)
    ensures s.payload.tokenBucket == bytesPerSecond && s.payload.maxTokens == bytesPerSecond
    ensures s.payload.tokensPerTick == bytesPerSecond
    ensures s.lastTick == clock.now && s.counter == 0
  {
    TokenBucket.Full(bytesPerSecond, clock.now)
  }

  /** Refills, then spends one token per byte to pass the packet, or drops it when there are too few. */
  function Evaluate(packet: Packet, clock: Clock, s: RuleState, r: ActionResult): (e: Evaluation)
    requires TokenBucket.Shaped(s)
    ensures TokenBucket.Shaped(e.state)
    ensures var t := TokenBucket.Refill(s, clock);
      (e.mask == ActionMask.None <==> t.payload.tokenBucket >= |packet|)
      && (e.mask == ActionMask.None ==>
            e.state == Counted(t).(payload := t.payload.(tokenBucket := t.payload.tokenBucket - |packet|)))
      && (e.mask != ActionMask.None ==> e.mask == ActionMask.Drop && e.state == t)
    ensures TokenBucket.Bounded(s) ==> TokenBucket.Bounded(e.state)
    ensures e.result == r
  {
    var t := TokenBucket.Refill(s, clock);
    var packetSize := |packet|;
    if t.payload.tokenBucket >= packetSize then
      Evaluation(ActionMask.None,
                 Counted(t).(payload := t.payload.(tokenBucket := t.payload.tokenBucket - packetSize)), r)
    else
      Evaluation(ActionMask.Drop, t, r)
  }

  /** Bytes passed and the final state, for packets arriving in order. */
  datatype Tally = Tally(passedBytes: nat, state: RuleState)

  function Run(clock: Clock, s: RuleState, packets: seq<Packet>): (t: Tally)
    requires TokenBucket.Shaped(s)
    ensures TokenBucket.Shaped(t.state)
    decreases |packets|
  {
    if |packets| == 0 then Tally(0, s)
    else
      var e := Evaluate(packets[0], clock, s, Create());
      var rest := Run(clock, e.state, packets[1..]);
      Tally((if e.mask == ActionMask.None then |packets[0]| else 0) + rest.passedBytes, rest.state)
  }

  /**
   * With no time elapsed, the bytes passed plus the tokens left equal the tokens
   * there were: no burst can pass more bytes than the bucket held.
   */
  lemma {:induction false} RunWithoutTime(clock: Clock, s: RuleState, packets: seq<Packet>)
    requires TokenBucket.Shaped(s) && s.lastTick == clock.now && s.payload.tokenBucket >= 0
    ensures Run(clock, s, packets).passedBytes + Run(clock, s, packets).state.payload.tokenBucket
         == s.payload.tokenBucket
    ensures Run(clock, s, packets).passedBytes <= s.payload.tokenBucket
    ensures Run(clock, s, packets).state.lastTick == clock.now
    decreases |packets|
  {
    TokenBucket.NoTimeNoTokens(s, clock);
    if |packets| > 0 {
      var e := Evaluate(packets[0], clock, s, Create());
      RunWithoutTime(clock, e.state, packets[1..]);
    }
  }
}
