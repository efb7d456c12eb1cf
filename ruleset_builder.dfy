/**
 * Turns the configuration into a ruleset (RulesetBuilder.cs): every enabled rule
 * becomes one rule and its initial state, drop rules first, then delay, duplicate,
 * modify and inject rules, and the capability bits record which groups are present.
 */
module RulesetBuilders {
  import RuleCapability
  import ModifyFlags
  import Numerics
  import opened PacketCapture
  import opened RuleStates
  import opened RuleFunc
  import opened RulesConfigs
  import Rulesets
  import Pipeline
  import DropRule
  import BlackholeRule
  import SynDropRule
  import LossPatternRule
  import ThrottleRule
  import BandwidthRule
  import LagRule
  import JitterRule
  import OutOfOrderRule
  import BurstRule
  import AckDelayRule
  import DuplicateRule
  import TamperRule
  import MtuClampRule
  import WindowClampRule
  import TcpRstRule

  /** One rule as the builder adds it: the rule, its initial state and its capability bit. */
  datatype Entry = Entry(kind: RuleKind, state: RuleState, capability: RuleCapability.Bits)

  /** How many rules the builder considers, one per kind. */
  const RuleCount: nat := 16

  /** The rule the builder considers at position `n` of its fixed order. */
  function KindAt(n: nat): (k: RuleKind)
    requires n < RuleCount
    ensures Rank(k) == n
  {
    match n
    case 0 => Drop
    case 1 => Blackhole
    case 2 => SynDrop
    case 3 => LossPattern
    case 4 => Throttle
    case 5 => Bandwidth
    case 6 => Lag
    case 7 => Jitter
    case 8 => OutOfOrder
    case 9 => Burst
    case 10 => AckDelay
    case 11 => Duplicate
    case 12 => Tamper
    case 13 => MtuClamp
    case 14 => WindowClamp
    case _ => TcpRst
  }

  /** The position of a rule kind in the builder's order. */
  function Rank(k: RuleKind): nat {
    match k
    case Drop => 0
    case Blackhole => 1
    case SynDrop => 2
    case LossPattern => 3
    case Throttle => 4
    case Bandwidth => 5
    case Lag => 6
    case Jitter => 7
    case OutOfOrder => 8
    case Burst => 9
    case AckDelay => 10
    case Duplicate => 11
    case Tamper => 12
    case MtuClamp => 13
    case WindowClamp => 14
    case TcpRst => 15
  }

  /** Every kind has exactly one place in the order. */
  lemma OrderHasEveryKind(k: RuleKind)
    ensures Rank(k) < RuleCount && KindAt(Rank(k)) == k
  {
  }

  /** The capability bit each kind of rule contributes. */
  function Capability(k: RuleKind): RuleCapability.Bits {
    match k
    case Drop | Blackhole | SynDrop | LossPattern | Throttle | Bandwidth => RuleCapability.HasDropRules
    case Lag | Jitter | OutOfOrder | Burst | AckDelay => RuleCapability.HasDelayRules
    case Duplicate => RuleCapability.HasDuplicateRules
    case Tamper | MtuClamp | WindowClamp => RuleCapability.HasModifyRules
    case TcpRst => RuleCapability.HasInjectRules
  }

  /** The stage of the pipeline a rule belongs to: drop, delay, duplicate and modify, inject. */
  function Stage(k: RuleKind): nat {
    match k
    case Drop | Blackhole | SynDrop | LossPattern | Throttle | Bandwidth => 0
    case Lag | Jitter | OutOfOrder | Burst | AckDelay => 1
    case Duplicate | Tamper | MtuClamp | WindowClamp => 2
    case TcpRst => 3
  }

  /** The Tamper rule's flags: one bit for each of its three switches, and nothing else. */
  function TamperFlags(t: TamperConfig): (flags: ModifyFlags.Bits)
    ensures (flags & ModifyFlags.Truncate != 0) <==> t.truncate
    ensures (flags & ModifyFlags.Corrupt != 0) <==> t.corrupt
    ensures (flags & ModifyFlags.Rewrite != 0) <==> t.rewrite
    ensures flags & !(ModifyFlags.Truncate | ModifyFlags.Corrupt | ModifyFlags.Rewrite) == 0
  {
    (if t.truncate then ModifyFlags.Truncate else ModifyFlags.None)
    | (if t.corrupt then ModifyFlags.Corrupt else ModifyFlags.None)
    | (if t.rewrite then ModifyFlags.Rewrite else ModifyFlags.None)
  }

  /** Lag's milliseconds as ticks, rounded toward zero. */
  function LagTicks(delayMs: int, frequency: Frequency): int {
    Numerics.TruncDiv(delayMs * frequency, 1000)
  }

  /** The initial state the builder gives rule `k`, from its parameters in `c`. */
  function InitialState(c: RulesConfig, k: RuleKind, clock: Clock): RuleState {
    match k
    case Drop => DropRule.CreateState()
    case Blackhole => BlackholeRule.CreateState()
    case SynDrop => SynDropRule.CreateState()
    case LossPattern => LossPatternRule.CreateState(c.lossPattern.mask, c.lossPattern.length)
    case Throttle => ThrottleRule.CreateState(c.throttle.pps, clock)
    case Bandwidth => BandwidthRule.CreateState(c.bandwidth.bps, clock)
    case Lag => LagRule.CreateState(LagTicks(c.lag.delayMs, clock.frequency))
    case Jitter => JitterRule.CreateState(c.jitter.minMs, c.jitter.maxMs, JitterRule.DefaultSeed, clock.frequency)
    case OutOfOrder => OutOfOrderRule.CreateState(c.outOfOrder.maxDelayMs, OutOfOrderRule.DefaultSeed, clock.frequency)
    case Burst => BurstRule.CreateState(c.burst.intervalMs, clock)
    case AckDelay => AckDelayRule.CreateState(c.ackDelay.delayMs, clock.frequency)
    case Duplicate => DuplicateRule.CreateState(c.duplicate.count)
    case Tamper => TamperRule.CreateState(TamperFlags(c.tamper))
    case MtuClamp => MtuClampRule.CreateState(c.mtuClamp.maxSize)
    case WindowClamp => WindowClampRule.CreateState(c.windowClamp.maxWindow)
    case TcpRst => TcpRstRule.CreateState(c.tcpRst.oneShot)
  }

  /** The entry rule `k` contributes: one if it is enabled, none otherwise. */
  function Pick(c: RulesConfig, clock: Clock, k: RuleKind): seq<Entry> {
    if Enabled(c, k) then [Entry(k, InitialState(c, k, clock), Capability(k))] else []
  }

  /** The entries of the enabled rules before position `n` of the order. */
  function Prefix(c: RulesConfig, clock: Clock, n: nat): seq<Entry>
    requires n <= RuleCount
  {
    if n == 0 then [] else Prefix(c, clock, n - 1) + Pick(c, clock, KindAt(n - 1))
  }

  /** What the builder produces from `c`. */
  function Entries(c: RulesConfig, clock: Clock): seq<Entry> {
    Prefix(c, clock, RuleCount)
  }

  /** The rules of `es`, in order. */
  function Kinds(es: seq<Entry>): seq<RuleKind> {
    if |es| == 0 then [] else Kinds(es[..|es| - 1]) + [es[|es| - 1].kind]
  }

  /** The states of `es`, in order. */
  function States(es: seq<Entry>): seq<RuleState> {
    if |es| == 0 then [] else States(es[..|es| - 1]) + [es[|es| - 1].state]
  }

  /** The capability bits of `es`, OR-ed together. */
  function Caps(es: seq<Entry>): RuleCapability.Bits {
    if |es| == 0 then RuleCapability.None else RuleCapability.Union(Caps(es[..|es| - 1]), es[|es| - 1].capability)
  }

  /** Position `j` of the rule and state lists is entry `j`'s rule and state. */
  lemma {:induction false} KindsStatesAlign(es: seq<Entry>)
    ensures |Kinds(es)| == |es| && |States(es)| == |es|
    ensures forall j :: 0 <= j < |es| ==> Kinds(es)[j] == es[j].kind && States(es)[j] == es[j].state
  {
    if |es| > 0 {
      var front := es[..|es| - 1];
      KindsStatesAlign(front);
      forall j | 0 <= j < |es|
        ensures Kinds(es)[j] == es[j].kind && States(es)[j] == es[j].state
      {
        if j < |front| {
          assert front[j] == es[j];
        }
      }
    }
  }

  /** The builder's local lists and capability word hold exactly the entries added so far. */
  predicate Tracks(rules: seq<RuleKind>, states: seq<RuleState>, caps: RuleCapability.Bits, added: seq<Entry>) {
    rules == Kinds(added) && states == States(added) && caps == Caps(added)
  }

  /** Builds the ruleset: the enabled rules in the fixed order, with their states and capabilities. */
  method Build(config: RulesConfig, clock: Clock) returns (r: Rulesets.Ruleset)
    ensures r.Valid() && fresh(r.rules) && fresh(r.states)
    ensures r.rules[..] == Kinds(Entries(config, clock))
    ensures r.states[..] == States(Entries(config, clock))
    ensures r.capabilities == Caps(Entries(config, clock))
  {
    var rules, states, caps := Collect(config, clock);
    var ruleArray := ToArray(rules);
    var stateArray := ToArray(states);
    var made := Rulesets.Ruleset.Create(ruleArray, stateArray, caps);
    r := made.value;
  }

  /** The four stages in turn, from empty lists and no capabilities. */
  method Collect(config: RulesConfig, clock: Clock) returns (rules: seq<RuleKind>, states: seq<RuleState>, caps: RuleCapability.Bits)
    ensures Tracks(rules, states, caps, Entries(config, clock)) && |rules| == |states|
  {
    rules, states, caps := [], [], RuleCapability.None;
    assert Progress(config, clock, 0, rules, states, caps);
    rules, states, caps := DropStage(config, clock, rules, states, caps);
    rules, states, caps := DelayStage(config, clock, rules, states, caps);
    rules, states, caps := ModifyStage(config, clock, rules, states, caps);
    rules, states, caps := InjectStage(config, clock, rules, states, caps);
    KindsStatesAlign(Entries(config, clock));
  }

  /** A fresh array holding `s`. */
  method ToArray<T>(s: seq<T>) returns (a: array<T>)
    ensures fresh(a) && a[..] == s
  {
    a := new T[|s|](i requires 0 <= i < |s| => s[i]);
  }

  /** The builder's lists and capability word hold the entries of the rules before position `i`. */
  predicate Progress(c: RulesConfig, clock: Clock, i: nat, rules: seq<RuleKind>, states: seq<RuleState>, caps: RuleCapability.Bits) {
    i <= RuleCount && Tracks(rules, states, caps, Prefix(c, clock, i))
  }

  /** Drop rules, which end the pipeline early. */
  method DropStage(config: RulesConfig, clock: Clock, rules: seq<RuleKind>, states: seq<RuleState>, caps: RuleCapability.Bits)
    returns (rules': seq<RuleKind>, states': seq<RuleState>, caps': RuleCapability.Bits)
    requires Progress(config, clock, 0, rules, states, caps)
    ensures Progress(config, clock, 6, rules', states', caps')
  {
    rules', states', caps' := rules, states, caps;
    rules', states', caps' := AddDrop(config, clock, rules', states', caps');
    rules', states', caps' := AddBlackhole(config, clock, rules', states', caps');
    rules', states', caps' := AddSynDrop(config, clock, rules', states', caps');
    rules', states', caps' := AddLossPattern(config, clock, rules', states', caps');
    rules', states', caps' := AddThrottle(config, clock, rules', states', caps');
    rules', states', caps' := AddBandwidth(config, clock, rules', states', caps');
  }

  /** Delay rules, whose delays accumulate. */
  method DelayStage(config: RulesConfig, clock: Clock, rules: seq<RuleKind>, states: seq<RuleState>, caps: RuleCapability.Bits)
    returns (rules': seq<RuleKind>, states': seq<RuleState>, caps': RuleCapability.Bits)
    requires Progress(config, clock, 6, rules, states, caps)
    ensures Progress(config, clock, 11, rules', states', caps')
  {
    rules', states', caps' := rules, states, caps;
    rules', states', caps' := AddLag(config, clock, rules', states', caps');
    rules', states', caps' := AddJitter(config, clock, rules', states', caps');
    rules', states', caps' := AddOutOfOrder(config, clock, rules', states', caps');
    rules', states', caps' := AddBurst(config, clock, rules', states', caps');
    rules', states', caps' := AddAckDelay(config, clock, rules', states', caps');
  }

  /** Duplicate and modify rules, whose flags accumulate. */
  method ModifyStage(config: RulesConfig, clock: Clock, rules: seq<RuleKind>, states: seq<RuleState>, caps: RuleCapability.Bits)
    returns (rules': seq<RuleKind>, states': seq<RuleState>, caps': RuleCapability.Bits)
    requires Progress(config, clock, 11, rules, states, caps)
    ensures Progress(config, clock, 15, rules', states', caps')
  {
    rules', states', caps' := rules, states, caps;
    rules', states', caps' := AddDuplicate(config, clock, rules', states', caps');
    rules', states', caps' := AddTamper(config, clock, rules', states', caps');
    rules', states', caps' := AddMtuClamp(config, clock, rules', states', caps');
    rules', states', caps' := AddWindowClamp(config, clock, rules', states', caps');
  }

  /** Inject rules, which queue extra packets. */
  method InjectStage(config: RulesConfig, clock: Clock, rules: seq<RuleKind>, states: seq<RuleState>, caps: RuleCapability.Bits)
    returns (rules': seq<RuleKind>, states': seq<RuleState>, caps': RuleCapability.Bits)
    requires Progress(config, clock, 15, rules, states, caps)
    ensures Progress(config, clock, 16, rules', states', caps')
  {
    rules', states', caps' := rules, states, caps;
    rules', states', caps' := AddTcpRst(config, clock, rules', states', caps');
  }

  /** The Drop rule, at position 0 of the order. */
  method AddDrop(config: RulesConfig, clock: Clock, rules: seq<RuleKind>, states: seq<RuleState>, caps: RuleCapability.Bits)
    returns (rules': seq<RuleKind>, states': seq<RuleState>, caps': RuleCapability.Bits)
    requires Progress(config, clock, 0, rules, states, caps)
    ensures Progress(config, clock, 1, rules', states', caps')
  {
    if config.drop.common.enabled {
      rules', states', caps' := AddRule(config, clock, 0, rules, states, caps, Drop,
        DropRule.CreateState(), RuleCapability.HasDropRules);
    } else {
      rules', states', caps' := rules, states, caps;
      Skip(config, clock, 0, rules, states, caps);
    }
  }

  /** The Blackhole rule, at position 1 of the order. */
  method AddBlackhole(config: RulesConfig, clock: Clock, rules: seq<RuleKind>, states: seq<RuleState>, caps: RuleCapability.Bits)
    returns (rules': seq<RuleKind>, states': seq<RuleState>, caps': RuleCapability.Bits)
    requires Progress(config, clock, 1, rules, states, caps)
    ensures Progress(config, clock, 2, rules', states', caps')
  {
    if config.blackhole.common.enabled {
      rules', states', caps' := AddRule(config, clock, 1, rules, states, caps, Blackhole,
        BlackholeRule.CreateState(), RuleCapability.HasDropRules);
    } else {
      rules', states', caps' := rules, states, caps;
      Skip(config, clock, 1, rules, states, caps);
    }
  }

  /** The SynDrop rule, at position 2 of the order. */
  method AddSynDrop(config: RulesConfig, clock: Clock, rules: seq<RuleKind>, states: seq<RuleState>, caps: RuleCapability.Bits)
    returns (rules': seq<RuleKind>, states': seq<RuleState>, caps': RuleCapability.Bits)
    requires Progress(config, clock, 2, rules, states, caps)
    ensures Progress(config, clock, 3, rules', states', caps')
  {
    if config.synDrop.common.enabled {
      rules', states', caps' := AddRule(config, clock, 2, rules, states, caps, SynDrop,
        SynDropRule.CreateState(), RuleCapability.HasDropRules);
    } else {
      rules', states', caps' := rules, states, caps;
      Skip(config, clock, 2, rules, states, caps);
    }
  }

  /** The LossPattern rule, at position 3 of the order. */
  method AddLossPattern(config: RulesConfig, clock: Clock, rules: seq<RuleKind>, states: seq<RuleState>, caps: RuleCapability.Bits)
    returns (rules': seq<RuleKind>, states': seq<RuleState>, caps': RuleCapability.Bits)
    requires Progress(config, clock, 3, rules, states, caps)
    ensures Progress(config, clock, 4, rules', states', caps')
  {
    if config.lossPattern.common.enabled {
      rules', states', caps' := AddRule(config, clock, 3, rules, states, caps, LossPattern,
        LossPatternRule.CreateState(config.lossPattern.mask, config.lossPattern.length), RuleCapability.HasDropRules);
    } else {
      rules', states', caps' := rules, states, caps;
      Skip(config, clock, 3, rules, states, caps);
    }
  }

  /** The Throttle rule, at position 4 of the order. */
  method AddThrottle(config: RulesConfig, clock: Clock, rules: seq<RuleKind>, states: seq<RuleState>, caps: RuleCapability.Bits)
    returns (rules': seq<RuleKind>, states': seq<RuleState>, caps': RuleCapability.Bits)
    requires Progress(config, clock, 4, rules, states, caps)
    ensures Progress(config, clock, 5, rules', states', caps')
  {
    if config.throttle.common.enabled {
      rules', states', caps' := AddRule(config, clock, 4, rules, states, caps, Throttle,
        ThrottleRule.CreateState(config.throttle.pps, clock), RuleCapability.HasDropRules);
    } else {
      rules', states', caps' := rules, states, caps;
      Skip(config, clock, 4, rules, states, caps);
    }
  }

  /** The Bandwidth rule, at position 5 of the order. */
  method AddBandwidth(config: RulesConfig, clock: Clock, rules: seq<RuleKind>, states: seq<RuleState>, caps: RuleCapability.Bits)
    returns (rules': seq<RuleKind>, states': seq<RuleState>, caps': RuleCapability.Bits)
    requires Progress(config, clock, 5, rules, states, caps)
    ensures Progress(config, clock, 6, rules', states', caps')
  {
    if config.bandwidth.common.enabled {
      rules', states', caps' := AddRule(config, clock, 5, rules, states, caps, Bandwidth,
        BandwidthRule.CreateState(config.bandwidth.bps, clock), RuleCapability.HasDropRules);
    } else {
      rules', states', caps' := rules, states, caps;
      Skip(config, clock, 5, rules, states, caps);
    }
  }

  /** The Lag rule, at position 6 of the order. */
  method AddLag(config: RulesConfig, clock: Clock, rules: seq<RuleKind>, states: seq<RuleState>, caps: RuleCapability.Bits)
    returns (rules': seq<RuleKind>, states': seq<RuleState>, caps': RuleCapability.Bits)
    requires Progress(config, clock, 6, rules, states, caps)
    ensures Progress(config, clock, 7, rules', states', caps')
  {
    if config.lag.common.enabled {
      rules', states', caps' := AddRule(config, clock, 6, rules, states, caps, Lag,
        LagRule.CreateState(LagTicks(config.lag.delayMs, clock.frequency)), RuleCapability.HasDelayRules);
    } else {
      rules', states', caps' := rules, states, caps;
      Skip(config, clock, 6, rules, states, caps);
    }
  }

  /** The Jitter rule, at position 7 of the order. */
  method AddJitter(config: RulesConfig, clock: Clock, rules: seq<RuleKind>, states: seq<RuleState>, caps: RuleCapability.Bits)
    returns (rules': seq<RuleKind>, states': seq<RuleState>, caps': RuleCapability.Bits)
    requires Progress(config, clock, 7, rules, states, caps)
    ensures Progress(config, clock, 8, rules', states', caps')
  {
    if config.jitter.common.enabled {
      rules', states', caps' := AddRule(config, clock, 7, rules, states, caps, Jitter,
        JitterRule.CreateState(config.jitter.minMs, config.jitter.maxMs, JitterRule.DefaultSeed, clock.frequency), RuleCapability.HasDelayRules);
    } else {
      rules', states', caps' := rules, states, caps;
      Skip(config, clock, 7, rules, states, caps);
    }
  }

  /** The OutOfOrder rule, at position 8 of the order. */
  method AddOutOfOrder(config: RulesConfig, clock: Clock, rules: seq<RuleKind>, states: seq<RuleState>, caps: RuleCapability.Bits)
    returns (rules': seq<RuleKind>, states': seq<RuleState>, caps': RuleCapability.Bits)
    requires Progress(config, clock, 8, rules, states, caps)
    ensures Progress(config, clock, 9, rules', states', caps')
  {
    if config.outOfOrder.common.enabled {
      rules', states', caps' := AddRule(config, clock, 8, rules, states, caps, OutOfOrder,
        OutOfOrderRule.CreateState(config.outOfOrder.maxDelayMs, OutOfOrderRule.DefaultSeed, clock.frequency), RuleCapability.HasDelayRules);
    } else {
      rules', states', caps' := rules, states, caps;
      Skip(config, clock, 8, rules, states, caps);
    }
  }

  /** The Burst rule, at position 9 of the order. */
  method AddBurst(config: RulesConfig, clock: Clock, rules: seq<RuleKind>, states: seq<RuleState>, caps: RuleCapability.Bits)
    returns (rules': seq<RuleKind>, states': seq<RuleState>, caps': RuleCapability.Bits)
    requires Progress(config, clock, 9, rules, states, caps)
    ensures Progress(config, clock, 10, rules', states', caps')
  {
    if config.burst.common.enabled {
      rules', states', caps' := AddRule(config, clock, 9, rules, states, caps, Burst,
        BurstRule.CreateState(config.burst.intervalMs, clock), RuleCapability.HasDelayRules);
    } else {
      rules', states', caps' := rules, states, caps;
      Skip(config, clock, 9, rules, states, caps);
    }
  }

  /** The AckDelay rule, at position 10 of the order. */
  method AddAckDelay(config: RulesConfig, clock: Clock, rules: seq<RuleKind>, states: seq<RuleState>, caps: RuleCapability.Bits)
    returns (rules': seq<RuleKind>, states': seq<RuleState>, caps': RuleCapability.Bits)
    requires Progress(config, clock, 10, rules, states, caps)
    ensures Progress(config, clock, 11, rules', states', caps')
  {
    if config.ackDelay.common.enabled {
      rules', states', caps' := AddRule(config, clock, 10, rules, states, caps, AckDelay,
        AckDelayRule.CreateState(config.ackDelay.delayMs, clock.frequency), RuleCapability.HasDelayRules);
    } else {
      rules', states', caps' := rules, states, caps;
      Skip(config, clock, 10, rules, states, caps);
    }
  }

  /** The Duplicate rule, at position 11 of the order. */
  method AddDuplicate(config: RulesConfig, clock: Clock, rules: seq<RuleKind>, states: seq<RuleState>, caps: RuleCapability.Bits)
    returns (rules': seq<RuleKind>, states': seq<RuleState>, caps': RuleCapability.Bits)
    requires Progress(config, clock, 11, rules, states, caps)
    ensures Progress(config, clock, 12, rules', states', caps')
  {
    if config.duplicate.common.enabled {
      rules', states', caps' := AddRule(config, clock, 11, rules, states, caps, Duplicate,
        DuplicateRule.CreateState(config.duplicate.count), RuleCapability.HasDuplicateRules);
    } else {
      rules', states', caps' := rules, states, caps;
      Skip(config, clock, 11, rules, states, caps);
    }
  }

  /** The Tamper rule, at position 12 of the order. */
  method AddTamper(config: RulesConfig, clock: Clock, rules: seq<RuleKind>, states: seq<RuleState>, caps: RuleCapability.Bits)
    returns (rules': seq<RuleKind>, states': seq<RuleState>, caps': RuleCapability.Bits)
    requires Progress(config, clock, 12, rules, states, caps)
    ensures Progress(config, clock, 13, rules', states', caps')
  {
    if config.tamper.common.enabled {
      var flags := ModifyFlags.None;
      if config.tamper.truncate {
        flags := flags | ModifyFlags.Truncate;
      }
      if config.tamper.corrupt {
        flags := flags | ModifyFlags.Corrupt;
      }
      if config.tamper.rewrite {
        flags := flags | ModifyFlags.Rewrite;
      }
      rules', states', caps' := AddRule(config, clock, 12, rules, states, caps, Tamper,
        TamperRule.CreateState(flags), RuleCapability.HasModifyRules);
    } else {
      rules', states', caps' := rules, states, caps;
      Skip(config, clock, 12, rules, states, caps);
    }
  }

  /** The MtuClamp rule, at position 13 of the order. */
  method AddMtuClamp(config: RulesConfig, clock: Clock, rules: seq<RuleKind>, states: seq<RuleState>, caps: RuleCapability.Bits)
    returns (rules': seq<RuleKind>, states': seq<RuleState>, caps': RuleCapability.Bits)
    requires Progress(config, clock, 13, rules, states, caps)
    ensures Progress(config, clock, 14, rules', states', caps')
  {
    if config.mtuClamp.common.enabled {
      rules', states', caps' := AddRule(config, clock, 13, rules, states, caps, MtuClamp,
        MtuClampRule.CreateState(config.mtuClamp.maxSize), RuleCapability.HasModifyRules);
    } else {
      rules', states', caps' := rules, states, caps;
      Skip(config, clock, 13, rules, states, caps);
    }
  }

  /** The WindowClamp rule, at position 14 of the order. */
  method AddWindowClamp(config: RulesConfig, clock: Clock, rules: seq<RuleKind>, states: seq<RuleState>, caps: RuleCapability.Bits)
    returns (rules': seq<RuleKind>, states': seq<RuleState>, caps': RuleCapability.Bits)
    requires Progress(config, clock, 14, rules, states, caps)
    ensures Progress(config, clock, 15, rules', states', caps')
  {
    if config.windowClamp.common.enabled {
      rules', states', caps' := AddRule(config, clock, 14, rules, states, caps, WindowClamp,
        WindowClampRule.CreateState(config.windowClamp.maxWindow), RuleCapability.HasModifyRules);
    } else {
      rules', states', caps' := rules, states, caps;
      Skip(config, clock, 14, rules, states, caps);
    }
  }

  /** The TcpRst rule, at position 15 of the order. */
  method AddTcpRst(config: RulesConfig, clock: Clock, rules: seq<RuleKind>, states: seq<RuleState>, caps: RuleCapability.Bits)
    returns (rules': seq<RuleKind>, states': seq<RuleState>, caps': RuleCapability.Bits)
    requires Progress(config, clock, 15, rules, states, caps)
    ensures Progress(config, clock, 16, rules', states', caps')
  {
    if config.tcpRst.common.enabled {
      rules', states', caps' := AddRule(config, clock, 15, rules, states, caps, TcpRst,
        TcpRstRule.CreateState(config.tcpRst.oneShot), RuleCapability.HasInjectRules);
    } else {
      rules', states', caps' := rules, states, caps;
      Skip(config, clock, 15, rules, states, caps);
    }
  }

  /**
   * Appends a rule and its state to the lists and ORs its capability into the
   * word; as the rule at position `i` of the order, it moves the build one place on.
   */
  method AddRule(ghost config: RulesConfig, ghost clock: Clock, ghost i: nat,
                 rules: seq<RuleKind>, states: seq<RuleState>, caps: RuleCapability.Bits,
                 rule: RuleKind, state: RuleState, cap: RuleCapability.Bits)
    returns (rules': seq<RuleKind>, states': seq<RuleState>, caps': RuleCapability.Bits)
    requires Progress(config, clock, i, rules, states, caps) && i < RuleCount && KindAt(i) == rule
    requires Enabled(config, rule) && state == InitialState(config, rule, clock) && cap == Capability(rule)
    ensures Progress(config, clock, i + 1, rules', states', caps')
    ensures rules' == rules + [rule] && states' == states + [state] && caps' == RuleCapability.Union(caps, cap)
  {
    rules' := rules + [rule];
    states' := states + [state];
    caps' := caps | cap;
    Extend(config, clock, i, rules, states, caps, Entry(rule, state, cap));
  }

  /** Appending the entry of the rule at position `i` moves the build one place on. */
  lemma Extend(c: RulesConfig, clock: Clock, i: nat, rules: seq<RuleKind>, states: seq<RuleState>, caps: RuleCapability.Bits, e: Entry)
    requires Progress(c, clock, i, rules, states, caps) && i < RuleCount && Pick(c, clock, KindAt(i)) == [e]
    ensures Progress(c, clock, i + 1, rules + [e.kind], states + [e.state], RuleCapability.Union(caps, e.capability))
  {
    TracksAppend(rules, states, caps, Prefix(c, clock, i), e);
  }

  /** Appending an entry to the lists and OR-ing in its bit keeps them in step. */
  lemma TracksAppend(rules: seq<RuleKind>, states: seq<RuleState>, caps: RuleCapability.Bits, added: seq<Entry>, e: Entry)
    requires Tracks(rules, states, caps, added)
    ensures Tracks(rules + [e.kind], states + [e.state], RuleCapability.Union(caps, e.capability), added + [e])
  {
    assert (added + [e])[..|added|] == added;
  }

  /** A disabled rule at position `i` of the order adds nothing. */
  lemma Skip(config: RulesConfig, clock: Clock, i: nat, rules: seq<RuleKind>, states: seq<RuleState>, caps: RuleCapability.Bits)
    requires Progress(config, clock, i, rules, states, caps) && i < RuleCount && !Enabled(config, KindAt(i))
    ensures Progress(config, clock, i + 1, rules, states, caps)
  {
    assert Prefix(config, clock, i) + [] == Prefix(config, clock, i);
  }

  /**
   * Each entry before position `n` is an enabled rule before `n`, with the state
   * and capability its parameters give, and each such rule has its entry.
   */
  lemma {:induction false} PrefixMembers(c: RulesConfig, clock: Clock, n: nat)
    requires n <= RuleCount
    ensures forall e :: e in Prefix(c, clock, n) ==>
      Rank(e.kind) < n && Enabled(c, e.kind)
      && e.state == InitialState(c, e.kind, clock) && e.capability == Capability(e.kind)
    ensures forall k :: Rank(k) < n && Enabled(c, k) ==>
      Entry(k, InitialState(c, k, clock), Capability(k)) in Prefix(c, clock, n)
  {
    if n > 0 {
      PrefixMembers(c, clock, n - 1);
      forall k | Rank(k) < n && Enabled(c, k)
        ensures Entry(k, InitialState(c, k, clock), Capability(k)) in Prefix(c, clock, n)
      {
        OrderHasEveryKind(k);
      }
    }
  }

  /** Every entry before position `n` has a rank below `n`. */
  lemma {:induction false} PrefixRanksBelow(c: RulesConfig, clock: Clock, n: nat)
    requires n <= RuleCount
    ensures forall e :: e in Prefix(c, clock, n) ==> Rank(e.kind) < n
  {
    if n > 0 {
      PrefixRanksBelow(c, clock, n - 1);
      assert forall e :: e in Pick(c, clock, KindAt(n - 1)) ==> e.kind == KindAt(n - 1);
    }
  }

  /** The entries of `es` come in strictly increasing rank. */
  predicate Ranked(es: seq<Entry>) {
    forall i, j :: 0 <= i < j < |es| ==> Rank(es[i].kind) < Rank(es[j].kind)
  }

  /** Leaving out the disabled rules keeps the order's ranks increasing. */
  lemma {:induction false} PrefixRanked(c: RulesConfig, clock: Clock, n: nat)
    requires n <= RuleCount
    ensures Ranked(Prefix(c, clock, n))
  {
    if n > 0 {
      PrefixRanked(c, clock, n - 1);
      PrefixRanksBelow(c, clock, n - 1);
      var front := Prefix(c, clock, n - 1);
      var picked := Pick(c, clock, KindAt(n - 1));
      assert forall e :: e in picked ==> e.kind == KindAt(n - 1);
      var es := front + picked;
      forall i, j | 0 <= i < j < |es|
        ensures Rank(es[i].kind) < Rank(es[j].kind)
      {
        assert es[i] == front[i] && es[i] in front;
        if j < |front| {
          assert es[j] == front[j];
        }
      }
    }
  }

  /**
   * The builder makes one entry per enabled rule and none for a disabled one, in
   * the fixed order (so no rule twice), each with the state its parameters give.
   */
  lemma BuildOnePerEnabledRule(c: RulesConfig, clock: Clock)
    ensures forall e :: e in Entries(c, clock) ==>
      Enabled(c, e.kind) && e.state == InitialState(c, e.kind, clock) && e.capability == Capability(e.kind)
    ensures forall k :: Enabled(c, k) ==> Entry(k, InitialState(c, k, clock), Capability(k)) in Entries(c, clock)
    ensures Ranked(Entries(c, clock))
  {
    PrefixMembers(c, clock, RuleCount);
    PrefixRanked(c, clock, RuleCount);
  }

  /** Along the builder's order the stage never goes back. */
  lemma StageFollowsRank(a: RuleKind, b: RuleKind)
    requires Rank(a) < Rank(b)
    ensures Stage(a) <= Stage(b)
  {
    assert Stage(a) == StageAt(Rank(a)) && Stage(b) == StageAt(Rank(b));
  }

  /** The stage of the rule at position `n` of the order. */
  function StageAt(n: nat): nat {
    if n < 6 then 0 else if n < 11 then 1 else if n < 15 then 2 else 3
  }

  /** Drop rules come first, then delay rules, then duplicate and modify rules, then inject rules. */
  lemma BuildGroupsByStage(c: RulesConfig, clock: Clock)
    ensures var es := Entries(c, clock);
      forall i, j :: 0 <= i < j < |es| ==> Stage(es[i].kind) <= Stage(es[j].kind)
  {
    BuildOnePerEnabledRule(c, clock);
    var es := Entries(c, clock);
    forall i, j | 0 <= i < j < |es|
      ensures Stage(es[i].kind) <= Stage(es[j].kind)
    {
      StageFollowsRank(es[i].kind, es[j].kind);
    }
  }

  /** A bit is one of the five capability bits. */
  predicate IsCapabilityBit(b: RuleCapability.Bits) {
    b == RuleCapability.HasDropRules || b == RuleCapability.HasDelayRules || b == RuleCapability.HasDuplicateRules
    || b == RuleCapability.HasModifyRules || b == RuleCapability.HasInjectRules
  }

  /**
   * When every entry carries one capability bit, a bit is set in their union exactly
   * when some entry carries it, and the union is None exactly when there are no entries.
   */
  lemma {:induction false} CapsCollects(es: seq<Entry>, bit: RuleCapability.Bits)
    requires IsCapabilityBit(bit)
    requires forall e :: e in es ==> IsCapabilityBit(e.capability)
    ensures (Caps(es) & bit != 0) <==> exists e :: e in es && e.capability == bit
    ensures Caps(es) == RuleCapability.None <==> |es| == 0
  {
    if |es| > 0 {
      var front := es[..|es| - 1];
      var last := es[|es| - 1];
      assert forall e :: e in front ==> e in es;
      CapsCollects(front, bit);
      assert es == front + [last];
      assert last in es;
      OrBits(Caps(front), last.capability, bit);
      assert (exists e :: e in es && e.capability == bit) <==>
             (exists e :: e in front && e.capability == bit) || last.capability == bit;
    }
  }

  /** OR-ing a capability bit `y` into `x`: how a capability bit reads back, and never None. */
  lemma OrBits(x: RuleCapability.Bits, y: RuleCapability.Bits, bit: RuleCapability.Bits)
    requires IsCapabilityBit(y) && IsCapabilityBit(bit)
    ensures (RuleCapability.Union(x, y) & bit != 0) <==> (x & bit != 0) || y == bit
    ensures RuleCapability.Union(x, y) != RuleCapability.None
  {
  }

  /**
   * The ruleset's capability word has a bit exactly when an enabled rule gives that
   * bit, and is None exactly when no rule is enabled.
   */
  lemma BuildCapabilities(c: RulesConfig, clock: Clock, bit: RuleCapability.Bits)
    requires IsCapabilityBit(bit)
    ensures (Caps(Entries(c, clock)) & bit != 0) <==> exists k :: Enabled(c, k) && Capability(k) == bit
    ensures Caps(Entries(c, clock)) == RuleCapability.None <==> forall k :: !Enabled(c, k)
  {
    var es := Entries(c, clock);
    BuildOnePerEnabledRule(c, clock);
    CapsCollects(es, bit);
    if exists k :: Enabled(c, k) && Capability(k) == bit {
      var k :| Enabled(c, k) && Capability(k) == bit;
      assert Entry(k, InitialState(c, k, clock), Capability(k)) in es;
    }
    if exists k :: Enabled(c, k) {
      var k :| Enabled(c, k);
      assert Entry(k, InitialState(c, k, clock), Capability(k)) in es;
    }
    if |es| > 0 {
      assert es[0] in es;
    }
  }

  /** The builder looks at switches and parameters only: Direction and Filter change nothing. */
  lemma {:induction false} PrefixIgnoresRouting(c: RulesConfig, clock: Clock, n: nat, d: Direction, f: string)
    requires n <= RuleCount
    ensures Prefix(Rerouted(c, d, f), clock, n) == Prefix(c, clock, n)
  {
    if n > 0 {
      ReroutedKeepsRules(c, d, f, KindAt(n - 1));
      assert InitialState(Rerouted(c, d, f), KindAt(n - 1), clock) == InitialState(c, KindAt(n - 1), clock);
      PrefixIgnoresRouting(c, clock, n - 1, d, f);
    }
  }

  lemma BuildIgnoresRouting(c: RulesConfig, clock: Clock, d: Direction, f: string)
    ensures Entries(Rerouted(c, d, f), clock) == Entries(c, clock)
  {
    PrefixIgnoresRouting(c, clock, RuleCount, d, f);
  }

  /**
   * The Jitter and OutOfOrder delays, converted to ticks, fit the 32-bit fields that
   * hold them without wrapping, and the width of the Jitter range fits one as well.
   */
  predicate TicksFit(c: RulesConfig, clock: Clock) {
    (c.jitter.common.enabled ==>
       var lo := Numerics.TruncDiv(c.jitter.minMs * clock.frequency, 1000);
       var hi := Numerics.TruncDiv(c.jitter.maxMs * clock.frequency, 1000);
       Numerics.IsInt32(lo) && Numerics.IsInt32(hi) && hi - lo <= Numerics.Int32Max)
    && (c.outOfOrder.common.enabled ==>
          Numerics.IsInt32(Numerics.TruncDiv(c.outOfOrder.maxDelayMs * clock.frequency, 1000)))
  }

  /**
   * Validation accepts a negative Jitter minimum, and so does `TicksFit`: such a
   * configuration builds a ruleset the pipeline can load.
   */
  lemma NegativeJitterMinimumLoads()
    ensures var c := Defaults.(jitter := JitterConfig(Common(true, Both, ""), -10, 50));
      var clock := Clock(0, 10_000_000);
      IsValid(c) && TicksFit(c, clock)
      && Pipeline.AllWellFormed(Kinds(Entries(c, clock)), States(Entries(c, clock)))
  {
    var c := Defaults.(jitter := JitterConfig(Common(true, Both, ""), -10, 50));
    var clock := Clock(0, 10_000_000);
    assert Numerics.TruncDiv(-10 * 10_000_000, 1000) == -100_000;
    assert Numerics.TruncDiv(50 * 10_000_000, 1000) == 500_000;
    assert IsValid(c);
    BuildLoadable(c, clock);
  }

  /** Rounding toward zero keeps the order of the dividends. */
  lemma TruncDivMonotone(a: int, b: int, d: int)
    requires a <= b && d > 0
    ensures Numerics.TruncDiv(a, d) <= Numerics.TruncDiv(b, d)
  {
    if 0 <= a {
      DivMonotone(a, b, d);
    } else if b < 0 {
      DivMonotone(-b, -a, d);
    }
  }

  lemma DivMonotone(a: int, b: int, d: int)
    requires 0 <= a <= b && d > 0
    ensures a / d <= b / d
  {
    var qa, qb := a / d, b / d;
    if qa > qb {
      MulMonotone(d, qb + 1, qa);
      assert false;
    }
  }

  lemma MulMonotone(d: int, x: int, y: int)
    requires d > 0 && x <= y
    ensures d * x <= d * y
  {
  }

  /** The state the builder gives an enabled rule has the shape that rule evaluates. */
  lemma InitialStateWellFormed(c: RulesConfig, clock: Clock, k: RuleKind)
    requires IsValid(c) && TicksFit(c, clock) && Enabled(c, k)
    ensures WellFormed(k, InitialState(c, k, clock))
  {
    ValidMeansEnabledInRange(c, k);
    InRangeStateWellFormed(c, clock, k);
  }

  lemma InRangeStateWellFormed(c: RulesConfig, clock: Clock, k: RuleKind)
    requires InRange(c, k) && TicksFit(c, clock) && Enabled(c, k)
    ensures WellFormed(k, InitialState(c, k, clock))
  {
    var s := InitialState(c, k, clock);
    match k {
      case Drop =>
      case Blackhole =>
      case SynDrop =>
      case LossPattern => assert LossPatternRule.Shaped(s);
      case Throttle => assert TokenBucket.Shaped(s);
      case Bandwidth => assert TokenBucket.Shaped(s);
      case Lag => assert LagRule.Shaped(s);
      case Jitter => JitterStateWellFormed(c, clock);
      case OutOfOrder => assert OutOfOrderRule.Shaped(s);
      case Burst => assert BurstRule.Shaped(s);
      case AckDelay => assert AckDelayRule.Shaped(s);
      case Duplicate => assert DuplicateRule.Shaped(s);
      case Tamper => assert TamperRule.Shaped(s);
      case MtuClamp => assert MtuClampRule.Shaped(s);
      case WindowClamp => assert WindowClampRule.Shaped(s);
      case TcpRst => assert TcpRstRule.Shaped(s);
    }
  }

  /** Jitter's bounds stay ordered once converted to ticks. */
  lemma JitterStateWellFormed(c: RulesConfig, clock: Clock)
    requires InRange(c, Jitter) && TicksFit(c, clock) && Enabled(c, Jitter)
    ensures JitterRule.Shaped(InitialState(c, Jitter, clock))
  {
    var f := clock.frequency;
    var low, high := c.jitter.minMs * f, c.jitter.maxMs * f;
    MulMonotone(f, c.jitter.minMs, c.jitter.maxMs);
    assert low <= high;
    TruncDivMonotone(low, high, 1000);
    var lo, hi := Numerics.TruncDiv(low, 1000), Numerics.TruncDiv(high, 1000);
    assert Numerics.IsInt32(lo) && Numerics.IsInt32(hi) && lo <= hi;
    assert JitterRule.MsToTicks(c.jitter.minMs, f) == lo;
    assert JitterRule.MsToTicks(c.jitter.maxMs, f) == hi;
  }

  /**
   * A valid configuration whose delays fit in ticks gives a ruleset the pipeline
   * can load: every state has the shape its rule needs.
   */
  lemma BuildLoadable(c: RulesConfig, clock: Clock)
    requires IsValid(c) && TicksFit(c, clock)
    ensures Pipeline.AllWellFormed(Kinds(Entries(c, clock)), States(Entries(c, clock)))
  {
    var es := Entries(c, clock);
    BuildOnePerEnabledRule(c, clock);
    KindsStatesAlign(es);
    forall i | 0 <= i < |es|
      ensures WellFormed(Kinds(es)[i], States(es)[i])
    {
      assert es[i] in es;
      InitialStateWellFormed(c, clock, es[i].kind);
    }
  }
}
