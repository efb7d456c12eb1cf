/**
 * Asks for a TCP reset to be injected for TCP packets, either for every one or, in
 * one-shot mode, only for the first (TcpRstRule.cs). Building the reset is not part
 * of the rule: it only sets InjectPacketId to 0.
 */
module TcpRstRule {
  import ActionMask
  import opened PacketCapture
  import opened Headers
  import opened RuleStates
  import opened ActionResults

  const Continuous := 0
  const OneShotArmed := 1
  const OneShotFired := 2

  predicate Shaped(s: RuleState) {
    s.payload.RstMode?
  }

  function CreateState(oneShot: bool): (s: RuleState)
    ensures Shaped(s) && s.payload.mode == if oneShot then OneShotArmed else Continuous
    ensures s.lastTick == 0 && s.counter == 0
  {
    RuleState(0, 0, RstMode(if oneShot then OneShotArmed else Continuous))
  }

  /** A TCP packet long enough for both headers. */
  predicate IsTcp(p: Packet) {
    |p| >= MinTcpPacketLength && p[ProtocolOffset] == TcpProtocol
  }

  function Evaluate(packet: Packet, s: RuleState, r: ActionResult): (e: Evaluation)
    requires Shaped(s)
    ensures Shaped(e.state)
    ensures e.mask == ActionMask.Inject || e.mask == ActionMask.None
    ensures e.mask == ActionMask.Inject <==> s.payload.mode != OneShotFired && IsTcp(packet)
    ensures e.mask == ActionMask.Inject ==>
      e.result == r.(injectPacketId := 0)
      && e.state == Counted(s).(payload := RstMode(if s.payload.mode == OneShotArmed then OneShotFired
                                                   else s.payload.mode))
    ensures e.mask == ActionMask.None ==> e.state == s && e.result == r
  {
    if s.payload.mode == OneShotFired then Evaluation(ActionMask.None, s, r)
    else if |packet| < MinTcpPacketLength then Evaluation(ActionMask.None, s, r)
    else if packet[ProtocolOffset] != TcpProtocol then Evaluation(ActionMask.None, s, r)
    else
      var mode := if s.payload.mode == OneShotArmed then OneShotFired else s.payload.mode;
      Evaluation(ActionMask.Inject, Counted(s).(payload := RstMode(mode)), r.(injectPacketId := 0))
  }

  /** The masks returned for a sequence of packets. */
  function Run(s: RuleState, packets: seq<Packet>): (ms: seq<ActionMask.Bits>)
    requires Shaped(s)
    ensures |ms| == |packets|
    decreases |packets|
  {
    if |packets| == 0 then []
    else
      var e := Evaluate(packets[0], s, Create());
      [e.mask] + Run(e.state, packets[1..])
  }

  /** A mode of 0, 1 or 2 stays one of those. */
  lemma ModeStaysKnown(packet: Packet, s: RuleState, r: ActionResult)
    requires Shaped(s) && s.payload.mode in {Continuous, OneShotArmed, OneShotFired}
    ensures Evaluate(packet, s, r).state.payload.mode in {Continuous, OneShotArmed, OneShotFired}
  {
  }

  /** In continuous mode every TCP packet asks for a reset. */
  lemma {:induction false} ContinuousFiresOnEveryTcpPacket(s: RuleState, packets: seq<Packet>)
    requires Shaped(s) && s.payload.mode == Continuous
    ensures forall j :: 0 <= j < |packets| ==>
      (Run(s, packets)[j] == ActionMask.Inject <==> IsTcp(packets[j]))
    decreases |packets|
  {
    if |packets| > 0 {
      var e := Evaluate(packets[0], s, Create());
      ContinuousFiresOnEveryTcpPacket(e.state, packets[1..]);
      forall j | 0 <= j < |packets|
        ensures Run(s, packets)[j] == ActionMask.Inject <==> IsTcp(packets[j])
      {
        if j > 0 {
          assert Run(s, packets)[j] == Run(e.state, packets[1..])[j - 1];
          assert packets[j] == packets[1..][j - 1];
        }
      }
    }
  }

  /**
   * In armed one-shot mode exactly the first TCP packet asks for a reset: packet `j`
   * does iff it is TCP and no earlier packet was.
   */
  lemma {:induction false} OneShotFiresOnce(s: RuleState, packets: seq<Packet>)
    requires Shaped(s) && s.payload.mode == OneShotArmed
    ensures forall j :: 0 <= j < |packets| ==>
      (Run(s, packets)[j] == ActionMask.Inject
       <==> IsTcp(packets[j]) && forall k :: 0 <= k < j ==> !IsTcp(packets[k]))
    decreases |packets|
  {
    if |packets| > 0 {
      var e := Evaluate(packets[0], s, Create());
      if IsTcp(packets[0]) {
        FiredStaysSilent(e.state, packets[1..]);
        forall j | 0 < j < |packets|
          ensures Run(s, packets)[j] == ActionMask.None
        {
          assert Run(s, packets)[j] == Run(e.state, packets[1..])[j - 1];
        }
      } else {
        OneShotFiresOnce(e.state, packets[1..]);
        forall j | 0 < j < |packets|
          ensures (Run(s, packets)[j] == ActionMask.Inject
                   <==> IsTcp(packets[j]) && forall k :: 0 <= k < j ==> !IsTcp(packets[k]))
        {
          assert Run(s, packets)[j] == Run(e.state, packets[1..])[j - 1];
          assert packets[j] == packets[1..][j - 1];
          assert forall k :: 0 < k < j ==> packets[k] == packets[1..][k - 1];
        }
      }
    }
  }

  /** Once fired, the rule never asks for another reset. */
  lemma {:induction false} FiredStaysSilent(s: RuleState, packets: seq<Packet>)
    requires Shaped(s) && s.payload.mode == OneShotFired
    ensures forall j :: 0 <= j < |packets| ==> Run(s, packets)[j] == ActionMask.None
    decreases |packets|
  {
    if |packets| > 0 {
      var e := Evaluate(packets[0], s, Create());
      FiredStaysSilent(e.state, packets[1..]);
      forall j | 0 < j < |packets|
        ensures Run(s, packets)[j] == ActionMask.None
      {
        assert Run(s, packets)[j] == Run(e.state, packets[1..])[j - 1];
      }
    }
  }
}
