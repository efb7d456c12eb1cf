/**
 * The user-facing rule configuration (RulesConfig.cs and the per-rule models): one
 * record per rule with its Enabled switch, its Direction and Filter, and its own
 * parameters, and the check that every enabled rule's parameters are usable.
 */
module RulesConfigs {
  import opened RuleFunc
  import WindowClampRule

  datatype Direction = Inbound | Outbound | Both

  /** What every rule's configuration has (RuleConfigBase.cs); Direction and Filter are never read. */
  datatype Common = Common(enabled: bool, direction: Direction, filter: string)

  /** A rule as it starts out: off, both directions, no filter. */
  const Off := Common(false, Both, "")

  datatype DropConfig = DropConfig(common: Common, chance: int)
  datatype BlackholeConfig = BlackholeConfig(common: Common)
  datatype SynDropConfig = SynDropConfig(common: Common, chance: int)
  datatype LagConfig = LagConfig(common: Common, delayMs: int)
  datatype JitterConfig = JitterConfig(common: Common, minMs: int, maxMs: int)
  datatype OutOfOrderConfig = OutOfOrderConfig(common: Common, maxDelayMs: int)
  datatype BurstConfig = BurstConfig(common: Common, intervalMs: int)
  datatype AckDelayConfig = AckDelayConfig(common: Common, delayMs: int)
  datatype ThrottleConfig = ThrottleConfig(common: Common, pps: int)
  datatype BandwidthConfig = BandwidthConfig(common: Common, bps: int)
  datatype LossPatternConfig = LossPatternConfig(common: Common, mask: bv64, length: int)
  datatype DuplicateConfig = DuplicateConfig(common: Common, count: int, chance: int)
  datatype TamperConfig = TamperConfig(common: Common, truncate: bool, corrupt: bool, rewrite: bool)
  datatype MtuClampConfig = MtuClampConfig(common: Common, maxSize: int)
  datatype WindowClampConfig = WindowClampConfig(common: Common, maxWindow: WindowClampRule.UInt16)
  datatype TcpRstConfig = TcpRstConfig(common: Common, oneShot: bool)

  /** The configuration of all sixteen rules. */
  datatype RulesConfig = RulesConfig(
    drop: DropConfig,
    blackhole: BlackholeConfig,
    synDrop: SynDropConfig,
    lag: LagConfig,
    jitter: JitterConfig,
    outOfOrder: OutOfOrderConfig,
    burst: BurstConfig,
    ackDelay: AckDelayConfig,
    throttle: ThrottleConfig,
    bandwidth: BandwidthConfig,
    lossPattern: LossPatternConfig,
    duplicate: DuplicateConfig,
    tamper: TamperConfig,
    mtuClamp: MtuClampConfig,
    windowClamp: WindowClampConfig,
    tcpRst: TcpRstConfig)

  /** Every rule off, with the parameters the models start with. */
  const Defaults := RulesConfig(
    DropConfig(Off, 100),
    BlackholeConfig(Off),
    SynDropConfig(Off, 100),
    LagConfig(Off, 100),
    JitterConfig(Off, 0, 50),
    OutOfOrderConfig(Off, 50),
    BurstConfig(Off, 100),
    AckDelayConfig(Off, 50),
    ThrottleConfig(Off, 1000),
    BandwidthConfig(Off, 1_000_000),
    LossPatternConfig(Off, 0, 1),
    DuplicateConfig(Off, 2, 100),
    TamperConfig(Off, false, false, false),
    MtuClampConfig(Off, 1500),
    WindowClampConfig(Off, 65535),
    TcpRstConfig(Off, false))

  /** The common part of the configuration of rule `k`. */
  function CommonOf(c: RulesConfig, k: RuleKind): Common {
    match k
    case Drop => c.drop.common
    case Blackhole => c.blackhole.common
    case SynDrop => c.synDrop.common
    case LossPattern => c.lossPattern.common
    case Throttle => c.throttle.common
    case Bandwidth => c.bandwidth.common
    case Lag => c.lag.common
    case Jitter => c.jitter.common
    case OutOfOrder => c.outOfOrder.common
    case Burst => c.burst.common
    case AckDelay => c.ackDelay.common
    case Duplicate => c.duplicate.common
    case Tamper => c.tamper.common
    case MtuClamp => c.mtuClamp.common
    case WindowClamp => c.windowClamp.common
    case TcpRst => c.tcpRst.common
  }

  predicate Enabled(c: RulesConfig, k: RuleKind) {
    CommonOf(c, k).enabled
  }

  /** The parameters of rule `k` are ones it can work with. */
  predicate InRange(c: RulesConfig, k: RuleKind) {
    match k
    case Lag => c.lag.delayMs > 0
    case Jitter => c.jitter.minMs <= c.jitter.maxMs
    case Throttle => c.throttle.pps > 0
    case Bandwidth => c.bandwidth.bps > 0
    case LossPattern => 1 <= c.lossPattern.length <= 64
    case Duplicate => c.duplicate.count >= 1
    case OutOfOrder => c.outOfOrder.maxDelayMs > 0
    case Burst => c.burst.intervalMs > 0
    case AckDelay => c.ackDelay.delayMs > 0
    case MtuClamp => c.mtuClamp.maxSize > 0
    case WindowClamp => c.windowClamp.maxWindow > 0
    case Drop | Blackhole | SynDrop | Tamper | TcpRst => true
  }

  /** The checks of the enabled rules, one after the other; disabled rules are not looked at. */
  predicate IsValid(c: RulesConfig) {
    if c.lag.common.enabled && c.lag.delayMs <= 0 then false
    else if c.jitter.common.enabled && c.jitter.minMs > c.jitter.maxMs then false
    else if c.throttle.common.enabled && c.throttle.pps <= 0 then false
    else if c.bandwidth.common.enabled && c.bandwidth.bps <= 0 then false
    else if c.lossPattern.common.enabled && (c.lossPattern.length <= 0 || c.lossPattern.length > 64) then false
    else if c.duplicate.common.enabled && c.duplicate.count < 1 then false
    else if c.outOfOrder.common.enabled && c.outOfOrder.maxDelayMs <= 0 then false
    else if c.burst.common.enabled && c.burst.intervalMs <= 0 then false
    else if c.ackDelay.common.enabled && c.ackDelay.delayMs <= 0 then false
    else if c.mtuClamp.common.enabled && c.mtuClamp.maxSize <= 0 then false
    else if c.windowClamp.common.enabled && c.windowClamp.maxWindow <= 0 then false
    else true
  }

  /** In a valid configuration every enabled rule has parameters in range. */
  lemma ValidMeansEnabledInRange(c: RulesConfig, k: RuleKind)
    requires IsValid(c) && Enabled(c, k)
    ensures InRange(c, k)
  {
    match k
    case Drop =>
    case Blackhole =>
    case SynDrop =>
    case LossPattern =>
    case Throttle =>
    case Bandwidth =>
    case Lag =>
    case Jitter =>
    case OutOfOrder =>
    case Burst =>
    case AckDelay =>
    case Duplicate =>
    case Tamper =>
    case MtuClamp =>
    case WindowClamp =>
    case TcpRst =>
  }

  /** An invalid configuration has an enabled rule whose parameters are out of range. */
  lemma InvalidHasCulprit(c: RulesConfig) returns (k: RuleKind)
    requires !IsValid(c)
    ensures Enabled(c, k) && !InRange(c, k)
  {
    if c.lag.common.enabled && c.lag.delayMs <= 0 {
      k := Lag;
    } else if c.jitter.common.enabled && c.jitter.minMs > c.jitter.maxMs {
      k := Jitter;
    } else if c.throttle.common.enabled && c.throttle.pps <= 0 {
      k := Throttle;
    } else if c.bandwidth.common.enabled && c.bandwidth.bps <= 0 {
      k := Bandwidth;
    } else if c.lossPattern.common.enabled && (c.lossPattern.length <= 0 || c.lossPattern.length > 64) {
      k := LossPattern;
    } else if c.duplicate.common.enabled && c.duplicate.count < 1 {
      k := Duplicate;
    } else if c.outOfOrder.common.enabled && c.outOfOrder.maxDelayMs <= 0 {
      k := OutOfOrder;
    } else if c.burst.common.enabled && c.burst.intervalMs <= 0 {
      k := Burst;
    } else if c.ackDelay.common.enabled && c.ackDelay.delayMs <= 0 {
      k := AckDelay;
    } else if c.mtuClamp.common.enabled && c.mtuClamp.maxSize <= 0 {
      k := MtuClamp;
    } else {
      k := WindowClamp;
    }
  }

  /** A configuration is valid exactly when every enabled rule has parameters in range. */
  lemma IsValidMeansEnabledInRange(c: RulesConfig)
    ensures IsValid(c) <==> forall k :: Enabled(c, k) ==> InRange(c, k)
  {
    if IsValid(c) {
      forall k | Enabled(c, k)
        ensures InRange(c, k)
      {
        ValidMeansEnabledInRange(c, k);
      }
    } else {
      var k := InvalidHasCulprit(c);
    }
  }

  /** A configuration with every rule off is valid, whatever its parameters. */
  lemma NothingEnabledIsValid(c: RulesConfig)
    requires forall k :: !Enabled(c, k)
    ensures IsValid(c)
  {
    IsValidMeansEnabledInRange(c);
  }

  /** `c` with rule `k` switched on or off. */
  function WithEnabled(c: RulesConfig, k: RuleKind, on: bool): (d: RulesConfig)
    ensures Enabled(d, k) == on
    ensures forall j :: j != k ==> Enabled(d, j) == Enabled(c, j)
    ensures forall j :: InRange(d, j) == InRange(c, j)
  {
    match k
    case Drop => c.(drop := c.drop.(common := c.drop.common.(enabled := on)))
    case Blackhole => c.(blackhole := c.blackhole.(common := c.blackhole.common.(enabled := on)))
    case SynDrop => c.(synDrop := c.synDrop.(common := c.synDrop.common.(enabled := on)))
    case LossPattern => c.(lossPattern := c.lossPattern.(common := c.lossPattern.common.(enabled := on)))
    case Throttle => c.(throttle := c.throttle.(common := c.throttle.common.(enabled := on)))
    case Bandwidth => c.(bandwidth := c.bandwidth.(common := c.bandwidth.common.(enabled := on)))
    case Lag => c.(lag := c.lag.(common := c.lag.common.(enabled := on)))
    case Jitter => c.(jitter := c.jitter.(common := c.jitter.common.(enabled := on)))
    case OutOfOrder => c.(outOfOrder := c.outOfOrder.(common := c.outOfOrder.common.(enabled := on)))
    case Burst => c.(burst := c.burst.(common := c.burst.common.(enabled := on)))
    case AckDelay => c.(ackDelay := c.ackDelay.(common := c.ackDelay.common.(enabled := on)))
    case Duplicate => c.(duplicate := c.duplicate.(common := c.duplicate.common.(enabled := on)))
    case Tamper => c.(tamper := c.tamper.(common := c.tamper.common.(enabled := on)))
    case MtuClamp => c.(mtuClamp := c.mtuClamp.(common := c.mtuClamp.common.(enabled := on)))
    case WindowClamp => c.(windowClamp := c.windowClamp.(common := c.windowClamp.common.(enabled := on)))
    case TcpRst => c.(tcpRst := c.tcpRst.(common := c.tcpRst.common.(enabled := on)))
  }

  /**
   * Switching a rule off never makes a valid configuration invalid, and switching
   * one on keeps it valid exactly when that rule's parameters are in range.
   */
  lemma SwitchingRules(c: RulesConfig, k: RuleKind)
    requires IsValid(c)
    ensures IsValid(WithEnabled(c, k, false))
    ensures IsValid(WithEnabled(c, k, true)) <==> InRange(c, k)
  {
    IsValidMeansEnabledInRange(c);
    IsValidMeansEnabledInRange(WithEnabled(c, k, false));
    var on := WithEnabled(c, k, true);
    IsValidMeansEnabledInRange(on);
    assert Enabled(on, k);
  }

  /** The parameters every model starts with are in range, so any rule may be switched on with them. */
  lemma DefaultsInRange(k: RuleKind)
    ensures InRange(Defaults, k)
  {
  }

  /** A rule's common part with its Direction and Filter replaced. */
  function Route(x: Common, d: Direction, f: string): Common {
    x.(direction := d, filter := f)
  }

  /** `c` with every rule's Direction and Filter replaced. */
  function Rerouted(c: RulesConfig, d: Direction, f: string): RulesConfig {
    RulesConfig(
      c.drop.(common := Route(c.drop.common, d, f)),
      c.blackhole.(common := Route(c.blackhole.common, d, f)),
      c.synDrop.(common := Route(c.synDrop.common, d, f)),
      c.lag.(common := Route(c.lag.common, d, f)),
      c.jitter.(common := Route(c.jitter.common, d, f)),
      c.outOfOrder.(common := Route(c.outOfOrder.common, d, f)),
      c.burst.(common := Route(c.burst.common, d, f)),
      c.ackDelay.(common := Route(c.ackDelay.common, d, f)),
      c.throttle.(common := Route(c.throttle.common, d, f)),
      c.bandwidth.(common := Route(c.bandwidth.common, d, f)),
      c.lossPattern.(common := Route(c.lossPattern.common, d, f)),
      c.duplicate.(common := Route(c.duplicate.common, d, f)),
      c.tamper.(common := Route(c.tamper.common, d, f)),
      c.mtuClamp.(common := Route(c.mtuClamp.common, d, f)),
      c.windowClamp.(common := Route(c.windowClamp.common, d, f)),
      c.tcpRst.(common := Route(c.tcpRst.common, d, f)))
  }

  /** Rerouting keeps every rule's switch and parameters. */
  lemma ReroutedKeepsRules(c: RulesConfig, d: Direction, f: string, k: RuleKind)
    ensures Enabled(Rerouted(c, d, f), k) == Enabled(c, k)
    ensures InRange(Rerouted(c, d, f), k) == InRange(c, k)
    ensures CommonOf(Rerouted(c, d, f), k) == Route(CommonOf(c, k), d, f)
  {
  }

  /** Direction and Filter play no part in validation. */
  lemma ValidityIgnoresRouting(c: RulesConfig, d: Direction, f: string)
    ensures IsValid(Rerouted(c, d, f)) == IsValid(c)
  {
  }
}
