/**
 * The rule decorator in front of the capture device (RulePacketCapture.cs). Every
 * packet handed to Send is first evaluated by the rule pipeline; then, in this
 * order, a dropped packet goes nowhere, duplicates of the original bytes are sent,
 * a copy of the packet is rewritten, and the (possibly rewritten) packet is either
 * parked in the time wheel or forwarded at once.
 */
module RuleCapture {
  import ActionMask
  import ModifyFlags
  import RuleStates
  import opened PacketCapture
  import opened ActionResults
  import opened Headers
  import opened Pipeline
  import opened TimeWheel
  import opened InjectQueues

  /** The largest packet whose copy is rewritten; longer packets are forwarded as they are. */
  const MaxStackSize := 2048
  /** The byte a Corrupt flips. */
  const CorruptOffset := 50
  /** Where a Rewrite starts zeroing. */
  const RewriteOffset := 60
  /** The window a WindowClamp writes. */
  const ClampedWindow := 1024

  /** `n` zero bytes. */
  function Zeros(n: nat): (z: Packet)
    ensures |z| == n && forall i :: 0 <= i < n ==> z[i] == 0
  {
    seq(n, _ => 0)
  }

  /** Corrupt: byte 50 inverted when the packet is long enough, every other byte kept. */
  function Corrupted(p: Packet): (r: Packet)
    ensures |r| == |p|
    ensures forall i :: 0 <= i < |p| && i != CorruptOffset ==> r[i] == p[i]
    ensures |p| > CorruptOffset ==> r[CorruptOffset] != p[CorruptOffset]
  {
    if |p| > CorruptOffset then p[CorruptOffset := p[CorruptOffset] ^ 0xFF] else p
  }

  /** Corrupting twice gives the packet back. */
  lemma CorruptTwiceRestores(p: Packet)
    ensures Corrupted(Corrupted(p)) == p
  {
    if |p| > CorruptOffset {
      assert p[CorruptOffset] ^ 0xFF ^ 0xFF == p[CorruptOffset];
    }
  }

  /** Rewrite: every byte from offset 60 on becomes zero. */
  function Rewritten(p: Packet): (r: Packet)
    ensures |r| == |p|
    ensures forall i :: 0 <= i < |p| ==> r[i] == if i < RewriteOffset then p[i] else 0
  {
    if |p| > RewriteOffset then p[..RewriteOffset] + Zeros(|p| - RewriteOffset) else p
  }

  /** Rewriting a rewritten packet changes nothing. */
  lemma RewriteIdempotent(p: Packet)
    ensures Rewritten(Rewritten(p)) == Rewritten(p)
  {
    var q := Rewritten(p);
    assert forall i :: 0 <= i < |q| ==> Rewritten(q)[i] == q[i];
  }

  /** The window clamp touches a packet only when it is IPv4/TCP with a whole TCP header. */
  predicate ClampApplies(p: Packet) {
    |p| >= MinTcpPacketLength && p[ProtocolOffset] == TcpProtocol
    && |p| >= IpHeaderLength(p) + 20
  }

  /** WindowClamp: the TCP window field set to 1024, big-endian, and nothing else changed. */
  function WindowClamped(p: Packet): (r: Packet)
    ensures |r| == |p|
    ensures !ClampApplies(p) ==> r == p
    ensures ClampApplies(p) ==>
      var w := IpHeaderLength(p) + TcpWindowOffset;
      TcpWindow(r, IpHeaderLength(p)) == ClampedWindow
      && forall i :: 0 <= i < |p| && i != w && i != w + 1 ==> r[i] == p[i]
  {
    if ClampApplies(p) then
      var w := IpHeaderLength(p) + TcpWindowOffset;
      p[w := (ClampedWindow / 256) as bv8][w + 1 := (ClampedWindow % 256) as bv8]
    else p
  }

  /**
   * The bytes ApplyModifications leaves: Corrupt, then Rewrite, then WindowClamp,
   * each when its flag is set. Truncate and MssClamp change no byte.
   */
  function Modified(p: Packet, flags: ModifyFlags.Bits): (r: Packet)
    ensures |r| == |p|
  {
    var a := if flags & ModifyFlags.Corrupt != 0 then Corrupted(p) else p;
    var b := if flags & ModifyFlags.Rewrite != 0 then Rewritten(a) else a;
    if flags & ModifyFlags.WindowClamp != 0 then WindowClamped(b) else b
  }

  /** Without Corrupt, Rewrite or WindowClamp among the flags the bytes are left alone. */
  lemma OnlyThreeFlagsRewrite(p: Packet, flags: ModifyFlags.Bits)
    requires flags & (ModifyFlags.Corrupt | ModifyFlags.Rewrite | ModifyFlags.WindowClamp) == 0
    ensures Modified(p, flags) == p
  {
    assert flags & ModifyFlags.Corrupt == 0 && flags & ModifyFlags.Rewrite == 0
        && flags & ModifyFlags.WindowClamp == 0;
  }

  /**
   * Corrupt and Rewrite touch bytes 50 and 60 on, never the IP header fields the
   * clamp looks at, so with WindowClamp set an IPv4/TCP packet always reads back a
   * window of 1024.
   */
  lemma ClampedWindowReadsBack(p: Packet, flags: ModifyFlags.Bits)
    requires flags & ModifyFlags.WindowClamp != 0 && ClampApplies(p)
    ensures TcpWindow(Modified(p, flags), IpHeaderLength(p)) == ClampedWindow
  {
    var a := if flags & ModifyFlags.Corrupt != 0 then Corrupted(p) else p;
    var b := if flags & ModifyFlags.Rewrite != 0 then Rewritten(a) else a;
    assert b[0] == p[0] && b[ProtocolOffset] == p[ProtocolOffset];
    assert IpHeaderLength(b) == IpHeaderLength(p);
    assert ClampApplies(b);
  }

  /** `n` copies of `x`. */
  function Repeat(x: SentPacket, n: nat): (s: seq<SentPacket>)
    ensures |s| == n && forall i :: 0 <= i < n ==> s[i] == x
  {
    seq(n, _ => x)
  }

  /** How many extra copies of the original packet are sent. */
  function Copies(r: ActionResult): (n: nat)
    ensures n > 0 <==> ActionMask.Has(r.mask, ActionMask.Duplicate) && r.duplicateCount > 0
    ensures n > 0 ==> n == r.duplicateCount
  {
    if ActionMask.Has(r.mask, ActionMask.Duplicate) && r.duplicateCount > 0 then r.duplicateCount else 0
  }

  /** Whether the result asks for a rewrite that is actually carried out. */
  predicate Rewrites(r: ActionResult, buffer: Packet) {
    ActionMask.Has(r.mask, ActionMask.Modify) && r.modifyFlags != ModifyFlags.None && |buffer| <= MaxStackSize
  }

  /** The bytes that leave the decorator last: a rewritten copy, or the packet as it came. */
  function Outgoing(r: ActionResult, buffer: Packet): (p: Packet)
    ensures |p| == |buffer|
    ensures !Rewrites(r, buffer) ==> p == buffer
  {
    if Rewrites(r, buffer) then Modified(buffer, r.modifyFlags) else buffer
  }

  /** Whether the packet is parked in the time wheel instead of forwarded. */
  predicate Parks(r: ActionResult, hasScheduler: bool) {
    !ActionMask.IsTerminal(r.mask) && ActionMask.Has(r.mask, ActionMask.Delay) && hasScheduler
  }

  /**
   * What the inner device is handed by one Send: nothing for a dropped packet;
   * otherwise the duplicates of the original bytes and then, unless parked, the
   * outgoing bytes.
   */
  function DeviceSends(r: ActionResult, buffer: Packet, metadata: PacketMetadata, hasScheduler: bool)
    : (s: seq<SentPacket>)
    ensures ActionMask.IsTerminal(r.mask) ==> s == []
    ensures !ActionMask.IsTerminal(r.mask) ==>
      |s| == Copies(r) + (if Parks(r, hasScheduler) then 0 else 1)
      && (forall i :: 0 <= i < Copies(r) ==> s[i] == SentPacket(buffer, metadata))
      && (!Parks(r, hasScheduler) ==> s[|s| - 1] == SentPacket(Outgoing(r, buffer), metadata))
  {
    if ActionMask.IsTerminal(r.mask) then []
    else Repeat(SentPacket(buffer, metadata), Copies(r))
         + (if Parks(r, hasScheduler) then [] else [SentPacket(Outgoing(r, buffer), metadata)])
  }

  /** What Send answers: Success for a dropped or parked packet, else the device's answer. */
  function Reply(r: ActionResult, buffer: Packet, hasScheduler: bool, sendOutcome: Packet -> CaptureResult)
    : (c: CaptureResult)
    ensures ActionMask.IsTerminal(r.mask) ==> c == Success
    ensures Parks(r, hasScheduler) ==> c == Success
    ensures !ActionMask.IsTerminal(r.mask) && !Parks(r, hasScheduler) ==> c == sendOutcome(Outgoing(r, buffer))
  {
    if ActionMask.IsTerminal(r.mask) || Parks(r, hasScheduler) then Success
    else sendOutcome(Outgoing(r, buffer))
  }

  /** The contents of every slot of a time wheel. */
  ghost function ContentsOf(w: TimeWheelScheduler): (cs: seq<seq<DelayedPacket>>)
    requires w.Valid()
    reads w, w.wheel, w.Arrays()
    ensures |cs| == WheelSize && forall i :: 0 <= i < WheelSize ==> cs[i] == w.Contents(i)
  {
    seq(WheelSize, i requires 0 <= i < WheelSize && w.Valid() reads w, w.wheel, w.Arrays() => w.Contents(i))
  }

  /**
   * How one Send changes the time wheel: a parked packet joins the end of the slot
   * of its target tick (unless the wheel is disposed); otherwise nothing changes.
   */
  ghost predicate Parked(r: ActionResult, buffer: Packet, metadata: PacketMetadata, now: int, wasDisposed: bool,
                         before: seq<seq<DelayedPacket>>, after: seq<seq<DelayedPacket>>)
  {
    |before| == WheelSize
    && var k := SlotIndex(now + r.delayTicks);
    if Parks(r, true) && !wasDisposed then
      after == before[k := before[k] + [DelayedPacket(Outgoing(r, buffer), metadata, now + r.delayTicks)]]
    else after == before
  }

  class RulePacketCapture {
    const inner: PacketDevice
    const pipeline: RulePipeline
    const scheduler: TimeWheelScheduler?
    const injectQueue: InjectQueue?

    /** The pipeline and the time wheel, the parts a Send uses, are consistent. */
    ghost predicate SendReady()
      reads this, pipeline, pipeline.ruleset, pipeline.ruleset.rules, pipeline.ruleset.states
      reads scheduler, if scheduler != null then {scheduler.wheel} else {}
    {
      pipeline.Valid() && (scheduler != null ==> scheduler.Valid())
    }

    ghost predicate Valid()
      reads this, pipeline, pipeline.ruleset, pipeline.ruleset.rules, pipeline.ruleset.states
      reads scheduler, if scheduler != null then {scheduler.wheel} else {}
      reads injectQueue, if injectQueue != null then {injectQueue.queue} else {}
    {
      SendReady() && (injectQueue != null ==> injectQueue.Valid())
    }

    /** The C# constructor refuses a null device or pipeline; here the types rule them out. */
    constructor (inner: PacketDevice, pipeline: RulePipeline, scheduler: TimeWheelScheduler?, injectQueue: InjectQueue?)
      ensures this.inner == inner && this.pipeline == pipeline
      ensures this.scheduler == scheduler && this.injectQueue == injectQueue
    {
      this.inner := inner;
      this.pipeline := pipeline;
      this.scheduler := scheduler;
      this.injectQueue := injectQueue;
    }

    /**
     * Sends a packet through the rules. The result of the pipeline decides what the
     * inner device sees (DeviceSends), what Send answers, and whether the outgoing
     * bytes join the time wheel; the rule states are left as the pipeline leaves them.
     */
    method Send(buffer: Packet, metadata: PacketMetadata, clock: Clock) returns (r: CaptureResult)
      requires SendReady()
      modifies pipeline.ruleset.states, inner`sent, inner`checksumCalls
      modifies if scheduler != null then {scheduler.wheel} else {}
      modifies if scheduler != null then scheduler.Arrays() else {}
      ensures SendReady()
      ensures var o := old(Verdict(pipeline.ruleset.states[..], buffer, clock));
        pipeline.ruleset.states[..] == o.states
        && inner.sent == old(inner.sent) + DeviceSends(o.result, buffer, metadata, scheduler != null)
        && r == Reply(o.result, buffer, scheduler != null, inner.sendOutcome)
      ensures scheduler != null ==>
        var o := old(Verdict(pipeline.ruleset.states[..], buffer, clock));
        Parked(o.result, buffer, metadata, clock.now, old(scheduler.disposed), old(ContentsOf(scheduler)), ContentsOf(scheduler))
    {
      ghost var o := Verdict(pipeline.ruleset.states[..], buffer, clock);
      var result := pipeline.Evaluate(buffer, clock);
      assert result == o.result && pipeline.ruleset.states[..] == o.states;
      assert scheduler != null ==>
        scheduler.Valid() && scheduler.disposed == old(scheduler.disposed)
        && ContentsOf(scheduler) == old(ContentsOf(scheduler));
      r := Deliver(result, buffer, metadata, clock.now);
      assert pipeline.ruleset.states[..] == o.states;
    }

    /** What the rule pipeline makes of a packet, from the given rule states. */
    ghost function Verdict(states: seq<RuleStates.RuleState>, buffer: Packet, clock: Clock): Walked
      requires |states| == pipeline.ruleset.rules.Length
      reads this, pipeline, pipeline.ruleset, pipeline.ruleset.rules
    {
      Outcome(pipeline.ruleset.capabilities, pipeline.ruleset.rules[..], states, buffer, clock)
    }

    /** Carries out a pipeline result for one packet. */
    method Deliver(result: ActionResult, buffer: Packet, metadata: PacketMetadata, now: int) returns (r: CaptureResult)
      requires scheduler != null ==> scheduler.Valid()
      modifies inner`sent, inner`checksumCalls
      modifies if scheduler != null then {scheduler.wheel} else {}
      modifies if scheduler != null then scheduler.Arrays() else {}
      ensures scheduler != null ==> scheduler.Valid()
      ensures inner.sent == old(inner.sent) + DeviceSends(result, buffer, metadata, scheduler != null)
      ensures r == Reply(result, buffer, scheduler != null, inner.sendOutcome)
      ensures scheduler != null ==>
        Parked(result, buffer, metadata, now, old(scheduler.disposed), old(ContentsOf(scheduler)), ContentsOf(scheduler))
    {
      if ActionMask.IsTerminal(result.mask) {
        return Success;
      }
      r := Forward(result, buffer, metadata, now);
    }

    /** Duplicates, rewrite, then park or forward: what happens to a packet that is not dropped. */
    method Forward(result: ActionResult, buffer: Packet, metadata: PacketMetadata, now: int) returns (r: CaptureResult)
      requires scheduler != null ==> scheduler.Valid()
      requires !ActionMask.IsTerminal(result.mask)
      modifies inner`sent, inner`checksumCalls
      modifies if scheduler != null then {scheduler.wheel} else {}
      modifies if scheduler != null then scheduler.Arrays() else {}
      ensures scheduler != null ==> scheduler.Valid()
      ensures inner.sent == old(inner.sent) + DeviceSends(result, buffer, metadata, scheduler != null)
      ensures r == Reply(result, buffer, scheduler != null, inner.sendOutcome)
      ensures scheduler != null ==>
        Parked(result, buffer, metadata, now, old(scheduler.disposed), old(ContentsOf(scheduler)), ContentsOf(scheduler))
    {
      var copies := Copies(result);
      SendCopies(buffer, metadata, copies);
      var outgoing := Prepare(result, buffer, metadata);
      r := Release(result, buffer, outgoing, metadata, now);
    }

    /** The last step of a Send: the outgoing bytes are parked when a delay is asked for and there is a wheel, else sent. */
    method Release(result: ActionResult, buffer: Packet, outgoing: Packet, metadata: PacketMetadata, now: int)
      returns (r: CaptureResult)
      requires scheduler != null ==> scheduler.Valid()
      requires !ActionMask.IsTerminal(result.mask) && outgoing == Outgoing(result, buffer)
      modifies inner`sent
      modifies if scheduler != null then {scheduler.wheel} else {}
      modifies if scheduler != null then scheduler.Arrays() else {}
      ensures scheduler != null ==> scheduler.Valid()
      ensures inner.sent == old(inner.sent) + (if Parks(result, scheduler != null) then [] else [SentPacket(outgoing, metadata)])
      ensures r == Reply(result, buffer, scheduler != null, inner.sendOutcome)
      ensures scheduler != null ==>
        Parked(result, buffer, metadata, now, old(scheduler.disposed), old(ContentsOf(scheduler)), ContentsOf(scheduler))
    {
      if ActionMask.Has(result.mask, ActionMask.Delay) && scheduler != null {
        Park(outgoing, metadata, result.delayTicks, now);
        return Success;
      }
      r := inner.Send(outgoing, metadata);
    }

    /** Hands the packet to the time wheel, due `delayTicks` after `now`. */
    method Park(packet: Packet, metadata: PacketMetadata, delayTicks: int, now: int)
      requires scheduler != null && scheduler.Valid()
      modifies scheduler.wheel, scheduler.Arrays()
      ensures scheduler.Valid()
      ensures var k := SlotIndex(now + delayTicks);
        ContentsOf(scheduler)
          == if old(scheduler.disposed) then old(ContentsOf(scheduler))
             else old(ContentsOf(scheduler))[k := old(scheduler.Contents(k)) + [DelayedPacket(packet, metadata, now + delayTicks)]]
    {
      scheduler.Enqueue(packet, metadata, delayTicks, now);
    }

    /** The rewritten copy when a rewrite is asked for and the packet is short enough, else the packet. */
    method Prepare(result: ActionResult, buffer: Packet, metadata: PacketMetadata) returns (outgoing: Packet)
      modifies inner`checksumCalls
      ensures outgoing == Outgoing(result, buffer)
    {
      outgoing := buffer;
      if ActionMask.Has(result.mask, ActionMask.Modify) && result.modifyFlags != ModifyFlags.None
         && |buffer| <= MaxStackSize {
        var modBuffer := new bv8[|buffer|](i requires 0 <= i < |buffer| => buffer[i]);
        assert modBuffer[..] == buffer;
        ApplyModifications(modBuffer, result.modifyFlags, metadata);
        outgoing := modBuffer[..];
      }
    }

    /** The duplicate loop: `n` sends of the original bytes. */
    method SendCopies(buffer: Packet, metadata: PacketMetadata, n: nat)
      modifies inner`sent
      ensures inner.sent == old(inner.sent) + Repeat(SentPacket(buffer, metadata), n)
    {
      var i := 0;
      while i < n
        invariant 0 <= i <= n
        invariant inner.sent == old(inner.sent) + Repeat(SentPacket(buffer, metadata), i)
      {
        var _ := inner.Send(buffer, metadata);
        i := i + 1;
      }
    }

    /**
     * Rewrites the copy in place: Corrupt inverts byte 50, Rewrite zeroes from byte
     * 60 on, WindowClamp stores 1024 in the TCP window of an IPv4/TCP packet; then
     * the device recomputes the checksums.
     */
    method ApplyModifications(buffer: array<bv8>, flags: ModifyFlags.Bits, metadata: PacketMetadata)
      modifies buffer, inner`checksumCalls
      ensures buffer[..] == Modified(old(buffer[..]), flags)
      ensures inner.checksumCalls == old(inner.checksumCalls) + 1
    {
      ghost var p := buffer[..];
      if flags & ModifyFlags.Corrupt != 0 {
        Corrupt(buffer);
      }
      ghost var a := buffer[..];
      if flags & ModifyFlags.Rewrite != 0 {
        if buffer.Length > RewriteOffset {
          ClearFrom(buffer, RewriteOffset);
        }
      }
      ghost var b := buffer[..];
      assert b == if flags & ModifyFlags.Rewrite != 0 then Rewritten(a) else a;
      ClampWindow(buffer, flags);
      inner.CalculateChecksums(buffer[..], metadata);
    }

    /** Inverts byte 50 when there is one. */
    static method Corrupt(buffer: array<bv8>)
      modifies buffer
      ensures buffer[..] == Corrupted(old(buffer[..]))
    {
      if buffer.Length > CorruptOffset {
        buffer[CorruptOffset] := buffer[CorruptOffset] ^ 0xFF;
      }
    }

    /** Zeroes `buffer[from..]`, leaving the bytes before it alone. */
    static method ClearFrom(buffer: array<bv8>, from: nat)
      requires from <= buffer.Length
      modifies buffer
      ensures buffer[..] == old(buffer[..from]) + Zeros(buffer.Length - from)
    {
      var i := from;
      while i < buffer.Length
        invariant from <= i <= buffer.Length
        invariant buffer[..] == old(buffer[..from]) + Zeros(i - from) + old(buffer[i..])
      {
        buffer[i] := 0;
        i := i + 1;
      }
    }

    /**
     * The clamp branch: entered for WindowClamp or MssClamp on an IPv4/TCP packet
     * with a whole TCP header, it writes the window only for WindowClamp.
     */
    static method ClampWindow(buffer: array<bv8>, flags: ModifyFlags.Bits)
      modifies buffer
      ensures buffer[..] == if flags & ModifyFlags.WindowClamp != 0 then WindowClamped(old(buffer[..])) else old(buffer[..])
    {
      if flags & ModifyFlags.WindowClamp != 0 || flags & ModifyFlags.MssClamp != 0 {
        if buffer.Length >= MinTcpPacketLength && buffer[ProtocolOffset] == TcpProtocol {
          var ipHeaderLen := ((buffer[0] & 0x0F) as int) * 4;
          assert ipHeaderLen == IpHeaderLength(buffer[..]);
          if buffer.Length >= ipHeaderLen + 20 {
            if flags & ModifyFlags.WindowClamp != 0 {
              var winOffset := ipHeaderLen + TcpWindowOffset;
              buffer[winOffset] := (ClampedWindow / 256) as bv8;
              buffer[winOffset + 1] := (ClampedWindow % 256) as bv8;
            }
          }
        }
      }
    }

    /** Opening is left to the inner device; no rule runs. */
    method Open(filter: string) returns (r: CaptureResult)
      modifies inner`openedFilters
      ensures r == inner.openOutcome && inner.openedFilters == old(inner.openedFilters) + [filter]
    {
      r := inner.Open(filter);
    }

    /** Receiving is left to the inner device; rules apply only to what is sent. */
    method Receive() returns (r: CaptureResult, bytes: Packet, metadata: PacketMetadata)
      modifies inner`inbox
      ensures old(inner.inbox) == [] ==> r == OperationAborted && bytes == [] && inner.inbox == []
      ensures old(inner.inbox) != [] ==>
        Received(r, bytes, metadata) == old(inner.inbox)[0] && inner.inbox == old(inner.inbox)[1..]
    {
      r, bytes, metadata := inner.Receive();
    }

    /** Shutting down is left to the inner device. */
    method Shutdown()
      modifies inner`shutdownCalls
      ensures inner.shutdownCalls == old(inner.shutdownCalls) + 1
    {
      inner.Shutdown();
    }

    /** Checksum recomputation is left to the inner device. */
    method CalculateChecksums(bytes: Packet, metadata: PacketMetadata)
      modifies inner`checksumCalls
      ensures inner.checksumCalls == old(inner.checksumCalls) + 1
    {
      inner.CalculateChecksums(bytes, metadata);
    }

    /** Lets the time wheel send what is due, then flushes the injection queue. */
    method Tick(now: int)
      requires Valid()
      modifies scheduler, if scheduler != null then {scheduler.wheel} else {}
      modifies if scheduler != null then scheduler.Arrays() else {}
      modifies if scheduler != null then {scheduler.capture} else {}
      modifies injectQueue, if injectQueue != null then {injectQueue.queue} else {}
      modifies if injectQueue != null then {injectQueue.capture} else {}
      ensures Valid()
      ensures scheduler != null && !old(scheduler.disposed) ==>
        var k := SlotIndex(now);
        multiset(scheduler.Contents(k)) == multiset(KeptOf(old(scheduler.Contents(k)), now))
        && forall i :: 0 <= i < WheelSize && i != k ==> scheduler.Contents(i) == old(scheduler.Contents(i))
      ensures injectQueue != null && !old(injectQueue.disposed) ==> injectQueue.contents == []
      ensures scheduler != null && (injectQueue == null || injectQueue.capture != scheduler.capture) ==>
        scheduler.capture.sent == old(scheduler.capture.sent) + old(TickSends(now))
      ensures injectQueue != null && (scheduler == null || injectQueue.capture != scheduler.capture) ==>
        injectQueue.capture.sent == old(injectQueue.capture.sent) + old(FlushSends())
      ensures scheduler != null && injectQueue != null && injectQueue.capture == scheduler.capture ==>
        scheduler.capture.sent == old(scheduler.capture.sent) + old(TickSends(now)) + old(FlushSends())
    {
      ghost var tickSends, flushSends := TickSends(now), FlushSends();
      if scheduler != null {
        scheduler.Tick(now);
      }
      assert injectQueue != null ==>
        injectQueue.Valid() && injectQueue.disposed == old(injectQueue.disposed)
        && injectQueue.contents == old(injectQueue.contents) && FlushSends() == flushSends;
      if injectQueue != null {
        injectQueue.Flush();
      }
    }

    /** What the time wheel sends on a Tick at `now`. */
    ghost function TickSends(now: int): seq<SentPacket>
      requires scheduler != null ==> scheduler.Valid()
      reads this, scheduler, if scheduler != null then {scheduler.wheel} else {}
      reads if scheduler != null then scheduler.Arrays() else {}
    {
      if scheduler == null || scheduler.disposed then []
      else TimeWheel.Sends(LatestFirst(scheduler.Contents(SlotIndex(now)), now))
    }

    /** What the injection queue sends on a Flush. */
    ghost function FlushSends(): seq<SentPacket>
      reads this, injectQueue
    {
      if injectQueue == null || injectQueue.disposed then [] else InjectQueues.Sends(injectQueue.contents)
    }

    /** Shuts down the time wheel, the injection queue and then the device. */
    method Dispose()
      requires Valid()
      modifies scheduler, if scheduler != null then {scheduler.wheel} else {}
      modifies injectQueue, inner`disposeCalls
      ensures Valid()
      ensures scheduler != null ==> scheduler.disposed
      ensures injectQueue != null ==> injectQueue.disposed && injectQueue.contents == (if old(injectQueue.disposed) then old(injectQueue.contents) else [])
      ensures inner.disposeCalls == old(inner.disposeCalls) + 1
    {
      if scheduler != null {
        scheduler.Dispose();
      }
      if injectQueue != null {
        injectQueue.Dispose();
      }
      inner.Dispose();
    }
  }
}
