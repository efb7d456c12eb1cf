/**
 * Lets packets through in bursts: a packet arriving a full interval after the last
 * burst opens a new one and passes; earlier packets wait for the next window (BurstRule.cs).
 */
module BurstRule {
  import ActionMask
  import opened Numerics
  import opened PacketCapture
  import opened RuleStates
  import opened ActionResults

  predicate Shaped(s: RuleState) {
    s.payload.Fixed?
  }

  function CreateState(burstIntervalMs: int, clock: Clock): (s: RuleState)
    ensures Shaped(s)
    ensures s.payload.fixedDelayTicks == TruncDiv(burstIntervalMs * clock.frequency, 1000)
    ensures s.lastTick == clock.now && s.counter == 0
  {
    RuleState(clock.now, 0, Fixed(TruncDiv(burstIntervalMs * clock.frequency, 1000)))
  }

  function Evaluate(clock: Clock, s: RuleState, r: ActionResult): (e: Evaluation)
    requires Shaped(s)
    ensures Shaped(e.state)
    ensures var elapsed := clock.now - s.lastTick;
      (e.mask == ActionMask.None <==> elapsed >= s.payload.fixedDelayTicks)
      && (e.mask == ActionMask.None ==> e.state == Counted(s).(lastTick := clock.now) && e.result == r)
      && (e.mask != ActionMask.None ==>
            e.mask == ActionMask.Delay && e.state == s
            && e.result == r.(delayTicks := Max(r.delayTicks, s.payload.fixedDelayTicks - elapsed)))
  {
    var elapsed := clock.now - s.lastTick;
    if elapsed >= s.payload.fixedDelayTicks then
      Evaluation(ActionMask.None, Counted(s).(lastTick := clock.now), r)
    else
      var remainingDelay := s.payload.fixedDelayTicks - elapsed;
      var r' := if remainingDelay > r.delayTicks then r.(delayTicks := remainingDelay) else r;
      Evaluation(ActionMask.Delay, s, r')
  }

  /**
   * A packet held back while the clock runs forward waits past the current window's
   * end but never longer than one interval.
   */
  lemma WaitIsWithinOneInterval(clock: Clock, s: RuleState)
    requires Shaped(s) && clock.now >= s.lastTick
    ensures var e := Evaluate(clock, s, Create());
      e.mask == ActionMask.Delay ==>
        0 < e.result.delayTicks <= s.payload.fixedDelayTicks
        && clock.now + e.result.delayTicks == s.lastTick + s.payload.fixedDelayTicks
  {
  }
}
