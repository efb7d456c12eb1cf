/**
 * The rule delegate (RuleFunc.cs): a rule is one of the sixteen kinds below, and
 * calling it runs that kind's Evaluate on the packet, the rule's own state and the
 * result accumulated so far.
 */
module RuleFunc {
  import ActionMask
  import ModifyFlags
  import opened PacketCapture
  import opened RuleStates
  import opened ActionResults
  import DropRule
  import BlackholeRule
  import SynDropRule
  import LossPatternRule
  import TokenBucket
  import ThrottleRule
  import BandwidthRule
  import LagRule
  import JitterRule
  import OutOfOrderRule
  import BurstRule
  import AckDelayRule
  import DuplicateRule
  import TamperRule
  import MtuClampRule
  import WindowClampRule
  import TcpRstRule

  datatype RuleKind =
    | Drop | Blackhole | SynDrop | LossPattern | Throttle | Bandwidth
    | Lag | Jitter | OutOfOrder | Burst | AckDelay
    | Duplicate
    | Tamper | MtuClamp | WindowClamp
    | TcpRst

  /** The state holds the payload its kind's CreateState writes, in a shape that kind can evaluate. */
  predicate WellFormed(kind: RuleKind, s: RuleState) {
    match kind
    case Drop => true
    case Blackhole => true
    case SynDrop => true
    case LossPattern => LossPatternRule.Shaped(s)
    case Throttle => TokenBucket.Shaped(s)
    case Bandwidth => TokenBucket.Shaped(s)
    case Lag => LagRule.Shaped(s)
    case Jitter => JitterRule.Shaped(s)
    case OutOfOrder => OutOfOrderRule.Shaped(s)
    case Burst => BurstRule.Shaped(s)
    case AckDelay => AckDelayRule.Shaped(s)
    case Duplicate => DuplicateRule.Shaped(s)
    case Tamper => TamperRule.Shaped(s)
    case MtuClamp => MtuClampRule.Shaped(s)
    case WindowClamp => WindowClampRule.Shaped(s)
    case TcpRst => TcpRstRule.Shaped(s)
  }

  /** The one action bit a rule of this kind can return. */
  function Action(kind: RuleKind): ActionMask.Bits {
    match kind
    case Blackhole => ActionMask.Blackhole
    case Drop | SynDrop | LossPattern | Throttle | Bandwidth => ActionMask.Drop
    case Lag | Jitter | OutOfOrder | Burst | AckDelay => ActionMask.Delay
    case Duplicate => ActionMask.Duplicate
    case Tamper | MtuClamp | WindowClamp => ActionMask.Modify
    case TcpRst => ActionMask.Inject
  }

  /** Calls the rule; the state it returns keeps the shape its kind needs. */
  function Invoke(kind: RuleKind, packet: Packet, clock: Clock, s: RuleState, r: ActionResult): (e: Evaluation)
    requires WellFormed(kind, s)
    ensures WellFormed(kind, e.state)
  {
    match kind
    case Drop => DropRule.Evaluate(s, r)
    case Blackhole => BlackholeRule.Evaluate(s, r)
    case SynDrop => SynDropRule.Evaluate(packet, s, r)
    case LossPattern => LossPatternRule.Evaluate(s, r)
    case Throttle => ThrottleRule.Evaluate(clock, s, r)
    case Bandwidth => BandwidthRule.Evaluate(packet, clock, s, r)
    case Lag => LagRule.Evaluate(s, r)
    case Jitter => JitterRule.Evaluate(s, r)
    case OutOfOrder => OutOfOrderRule.Evaluate(s, r)
    case Burst => BurstRule.Evaluate(clock, s, r)
    case AckDelay => AckDelayRule.Evaluate(packet, s, r)
    case Duplicate => DuplicateRule.Evaluate(s, r)
    case Tamper => TamperRule.Evaluate(s, r)
    case MtuClamp => MtuClampRule.Evaluate(packet, s, r)
    case WindowClamp => WindowClampRule.Evaluate(packet, s, r)
    case TcpRst => TcpRstRule.Evaluate(packet, s, r)
  }

  /** Every rule returns either nothing or its own kind's action bit. */
  lemma ReturnsOwnAction(kind: RuleKind, packet: Packet, clock: Clock, s: RuleState, r: ActionResult)
    requires WellFormed(kind, s)
    ensures var e := Invoke(kind, packet, clock, s, r);
      e.mask == ActionMask.None || e.mask == Action(kind)
  {
  }

  /**
   * No rule writes the result's mask (the pipeline ORs the returned mask in), and
   * every rule only raises the delay and the duplicate count and only adds modify flags.
   */
  lemma OnlyAccumulates(kind: RuleKind, packet: Packet, clock: Clock, s: RuleState, r: ActionResult)
    requires WellFormed(kind, s)
    ensures var e := Invoke(kind, packet, clock, s, r);
      e.result.mask == r.mask
      && e.result.delayTicks >= r.delayTicks
      && e.result.duplicateCount >= r.duplicateCount
      && e.result.modifyFlags & r.modifyFlags == r.modifyFlags
      && (e.result.injectPacketId == r.injectPacketId || e.result.injectPacketId == 0)
  {
    MaskPassesThrough(kind, packet, clock, s, r);
    DelayOnlyGrows(kind, packet, clock, s, r);
    CopiesOnlyGrow(kind, packet, clock, s, r);
    FlagsOnlyGrow(kind, packet, clock, s, r);
    InjectIdKeptOrCleared(kind, packet, clock, s, r);
  }

  /** The result's mask passes through unchanged. */
  lemma MaskPassesThrough(kind: RuleKind, packet: Packet, clock: Clock, s: RuleState, r: ActionResult)
    requires WellFormed(kind, s)
    ensures Invoke(kind, packet, clock, s, r).result.mask == r.mask
  {
  }

  /** The delay never drops. */
  lemma DelayOnlyGrows(kind: RuleKind, packet: Packet, clock: Clock, s: RuleState, r: ActionResult)
    requires WellFormed(kind, s)
    ensures Invoke(kind, packet, clock, s, r).result.delayTicks >= r.delayTicks
  {
    match kind {
      case Lag => assert Invoke(kind, packet, clock, s, r) == LagRule.Evaluate(s, r);
      case Jitter => assert Invoke(kind, packet, clock, s, r) == JitterRule.Evaluate(s, r);
      case OutOfOrder => assert Invoke(kind, packet, clock, s, r) == OutOfOrderRule.Evaluate(s, r);
      case Burst => assert Invoke(kind, packet, clock, s, r) == BurstRule.Evaluate(clock, s, r);
      case AckDelay => assert Invoke(kind, packet, clock, s, r) == AckDelayRule.Evaluate(packet, s, r);
      case _ =>
    }
  }

  /** The duplicate count never drops. */
  lemma CopiesOnlyGrow(kind: RuleKind, packet: Packet, clock: Clock, s: RuleState, r: ActionResult)
    requires WellFormed(kind, s)
    ensures Invoke(kind, packet, clock, s, r).result.duplicateCount >= r.duplicateCount
  {
  }

  /** Modify flags are only added, and the inject id is kept or cleared. */
  lemma FlagsOnlyGrow(kind: RuleKind, packet: Packet, clock: Clock, s: RuleState, r: ActionResult)
    requires WellFormed(kind, s)
    ensures Invoke(kind, packet, clock, s, r).result.modifyFlags & r.modifyFlags == r.modifyFlags
  {
    var added := FlagsAdded(kind, s);
    FlagsAreAdded(kind, packet, clock, s, r);
    OrKeeps(r.modifyFlags, added);
  }

  /** The bits a rule of this kind may add: nothing unless it is a modify rule. */
  function FlagsAdded(kind: RuleKind, s: RuleState): ModifyFlags.Bits
  {
    match kind
    case Tamper => if s.payload.TamperFlags? then s.payload.flags else ModifyFlags.None
    case MtuClamp => ModifyFlags.Truncate
    case WindowClamp => ModifyFlags.WindowClamp
    case _ => ModifyFlags.None
  }

  /** The flags after a rule are the flags before, possibly with the kind's own bits added. */
  lemma FlagsAreAdded(kind: RuleKind, packet: Packet, clock: Clock, s: RuleState, r: ActionResult)
    requires WellFormed(kind, s)
    ensures var flags := Invoke(kind, packet, clock, s, r).result.modifyFlags;
      flags == r.modifyFlags || flags == r.modifyFlags | FlagsAdded(kind, s)
  {
    match kind {
      case Tamper => assert Invoke(kind, packet, clock, s, r) == TamperRule.Evaluate(s, r);
      case MtuClamp => assert Invoke(kind, packet, clock, s, r) == MtuClampRule.Evaluate(packet, s, r);
      case WindowClamp => assert Invoke(kind, packet, clock, s, r) == WindowClampRule.Evaluate(packet, s, r);
      case _ =>
    }
  }

  /** Setting more bits keeps the ones already set. */
  lemma OrKeeps(x: ModifyFlags.Bits, y: ModifyFlags.Bits)
    ensures (x | y) & x == x && x & x == x
  {
  }

  /** The packet id to inject after is either kept or reset to zero. */
  lemma InjectIdKeptOrCleared(kind: RuleKind, packet: Packet, clock: Clock, s: RuleState, r: ActionResult)
    requires WellFormed(kind, s)
    ensures var id := Invoke(kind, packet, clock, s, r).result.injectPacketId;
      id == r.injectPacketId || id == 0
  {
    match kind {
      case TcpRst => assert Invoke(kind, packet, clock, s, r) == TcpRstRule.Evaluate(packet, s, r);
      case _ =>
    }
  }

  /** A rule's counter grows by at most one per packet. */
  lemma CountsAtMostOnce(kind: RuleKind, packet: Packet, clock: Clock, s: RuleState, r: ActionResult)
    requires WellFormed(kind, s)
    ensures var e := Invoke(kind, packet, clock, s, r);
      e.state.counter == s.counter || e.state.counter == s.counter + 1
  {
  }
}
