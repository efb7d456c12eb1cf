/**
 * The capture engine (Engine.cs, IEngine.cs): a state machine over Idle, Running,
 * Stopping, Faulted and Disposed, and a receive loop that validates every packet
 * the device delivers, hands it back to the device and keeps the counters.
 */
module Engines {
  import opened Wrappers
  import opened PacketCapture
  import opened Telemetry
  import PacketLogging

  const BufferSize := 2048
  const MaxConsecutiveErrors := 1000
  const MinPacketSize := 20
  const MaxIpPacketSize := 65535

  datatype EngineState = Idle | Running | Stopping | Faulted | Disposed

  datatype StartResult = Started | InvalidFilter | AlreadyRunning | Disposed | OpenFailed

  datatype EngineResult = Success | Stopped | InvalidState | InvalidHandle | InvalidParameter | Aborted | TooManyErrors

  /** The characters .NET counts as white space. */
  predicate IsWhiteSpace(c: char) {
    var n := c as int;
    n == 0x20 || 0x09 <= n <= 0x0D || n == 0x85 || n == 0xA0 || n == 0x1680
    || 0x2000 <= n <= 0x200A || n == 0x2028 || n == 0x2029 || n == 0x202F
    || n == 0x205F || n == 0x3000
  }

  /** An empty filter or one of white space only. */
  predicate IsBlank(filter: string) {
    forall i :: 0 <= i < |filter| ==> IsWhiteSpace(filter[i])
  }

  /** A received length worth forwarding: a whole IPv4 header, and within the receive buffer. */
  function IsValidPacket(length: int): (ok: bool)
    ensures ok <==> MinPacketSize <= length <= BufferSize
  {
    length >= MinPacketSize && length <= BufferSize && length <= MaxIpPacketSize
  }

  /**
   * What Start answers and the state it leaves, given the state it finds, the
   * filter and what opening the device would answer.
   */
  function StartOutcome(s: EngineState, filter: string, openOutcome: CaptureResult): (o: (StartResult, EngineState))
    ensures o.0 == Started <==> s == Idle && !IsBlank(filter) && openOutcome == CaptureResult.Success
    ensures o.0 == Started ==> o.1 == Running
    ensures o.0 != Started ==> o.1 == s
    ensures s == Faulted ==> o.0 != Started
  {
    if s == Running || s == Stopping then (AlreadyRunning, s)
    else if s == EngineState.Disposed then (StartResult.Disposed, s)
    else if IsBlank(filter) then (StartResult.InvalidFilter, s)
    else if s != Idle then (AlreadyRunning, s)
    else if openOutcome != CaptureResult.Success then
      (if openOutcome == CaptureResult.InvalidFilter then StartResult.InvalidFilter else OpenFailed, Idle)
    else (Started, Running)
  }

  /** Whether Start gets as far as opening the device. */
  predicate OpensDevice(s: EngineState, filter: string) {
    s == Idle && !IsBlank(filter)
  }

  /** What one receive outcome does: possibly end the loop, and the counters after it. */
  datatype Verdict = Verdict(stop: Option<EngineResult>, counters: Counters)

  /**
   * A success goes on; an aborted operation or a closed handle ends the loop as
   * Stopped; any other failure is a receive error, fatal once more than 1000 follow
   * one another.
   */
  function ReceiveVerdict(c: Counters, recv: CaptureResult): (v: Verdict)
    ensures recv == CaptureResult.Success ==> v == Verdict(Option.None, c)
    ensures recv == OperationAborted || recv == CaptureResult.InvalidHandle ==> v == Verdict(Some(Stopped), c)
    ensures recv != CaptureResult.Success && recv != OperationAborted && recv != CaptureResult.InvalidHandle ==>
      v.counters == c.AfterRecvError()
      && (v.stop.Some? <==> c.consecutiveErrors + 1 > MaxConsecutiveErrors)
      && (v.stop.Some? ==> v.stop.value == TooManyErrors)
  {
    if recv == CaptureResult.Success then Verdict(Option.None, c)
    else if recv == OperationAborted || recv == CaptureResult.InvalidHandle then Verdict(Some(Stopped), c)
    else
      var c' := c.AfterRecvError();
      if c'.consecutiveErrors > MaxConsecutiveErrors then Verdict(Some(TooManyErrors), c') else Verdict(Option.None, c')
  }

  /** The counters after a forwarded packet: a success counts, a closed handle is ignored, anything else is a send error. */
  function SendVerdict(c: Counters, sendResult: CaptureResult): (c': Counters)
    ensures c'.Covers(c) && (c.Consistent() ==> c'.Consistent())
    ensures sendResult == CaptureResult.Success <==> c'.packetsProcessed == c.packetsProcessed + 1
    ensures sendResult == CaptureResult.InvalidHandle <==> c' == c
  {
    if sendResult == CaptureResult.Success then c.AfterPacket()
    else if sendResult == CaptureResult.InvalidHandle then c
    else c.AfterSendError()
  }

  /** How a run of the receive loop ends: its result, the counters, what was sent, and the inputs left unread. */
  datatype LoopEnd = LoopEnd(result: EngineResult, counters: Counters, sent: seq<SentPacket>, rest: seq<Received>)

  /** `o`, with `done` sent before it. */
  function After(done: seq<SentPacket>, o: LoopEnd): LoopEnd {
    o.(sent := done + o.sent)
  }

  lemma AfterAfter(done: seq<SentPacket>, more: seq<SentPacket>, o: LoopEnd)
    ensures After(done, After(more, o)) == After(done + more, o)
  {
    assert done + (more + o.sent) == (done + more) + o.sent;
  }

  /**
   * The receive loop on the inputs `inbox`, from the counters `c`: `stop` is the
   * stop request it finds; an exhausted device reports an aborted operation.
   */
  function Run(stop: bool, inbox: seq<Received>, c: Counters, sendOutcome: Packet -> CaptureResult): (o: LoopEnd)
    ensures o.result == Stopped || o.result == TooManyErrors
    ensures o.result == TooManyErrors ==> o.counters.consecutiveErrors > MaxConsecutiveErrors
    decreases |inbox|
  {
    if stop then LoopEnd(Stopped, c, [], inbox)
    else if |inbox| == 0 then LoopEnd(Stopped, c, [], [])
    else
      var x := inbox[0];
      var v := ReceiveVerdict(c, x.result);
      if v.stop.Some? then LoopEnd(v.stop.value, v.counters, [], inbox[1..])
      else if !IsValidPacket(|x.bytes|) then Run(stop, inbox[1..], v.counters.AfterInvalidPacket(), sendOutcome)
      else
        var o := Run(stop, inbox[1..], SendVerdict(v.counters, sendOutcome(x.bytes)), sendOutcome);
        After([SentPacket(x.bytes, x.metadata)], o)
  }

  /**
   * The loop never lowers a counter nor breaks their consistency, reads a prefix of
   * its inputs, and sends at most one packet per input read.
   */
  lemma {:induction false} RunBounds(stop: bool, inbox: seq<Received>, c: Counters, sendOutcome: Packet -> CaptureResult)
    ensures var o := Run(stop, inbox, c, sendOutcome);
      o.counters.Covers(c) && (c.Consistent() ==> o.counters.Consistent())
      && |o.rest| <= |inbox| && o.rest == inbox[|inbox| - |o.rest|..]
      && |o.sent| <= |inbox| - |o.rest|
    decreases |inbox|
  {
    if !stop && |inbox| > 0 {
      var x := inbox[0];
      var v := ReceiveVerdict(c, x.result);
      if v.stop.None? {
        if !IsValidPacket(|x.bytes|) {
          RunBounds(stop, inbox[1..], v.counters.AfterInvalidPacket(), sendOutcome);
        } else {
          RunBounds(stop, inbox[1..], SendVerdict(v.counters, sendOutcome(x.bytes)), sendOutcome);
        }
      }
    }
  }

  /** Every packet the loop hands back to the device has a valid length. */
  lemma {:induction false} RunForwardsValidPackets(stop: bool, inbox: seq<Received>, c: Counters,
                                                    sendOutcome: Packet -> CaptureResult, i: int)
    requires 0 <= i < |Run(stop, inbox, c, sendOutcome).sent|
    ensures IsValidPacket(|Run(stop, inbox, c, sendOutcome).sent[i].bytes|)
    decreases |inbox|
  {
    var x := inbox[0];
    var v := ReceiveVerdict(c, x.result);
    if !IsValidPacket(|x.bytes|) {
      RunForwardsValidPackets(stop, inbox[1..], v.counters.AfterInvalidPacket(), sendOutcome, i);
    } else if i > 0 {
      RunForwardsValidPackets(stop, inbox[1..], SendVerdict(v.counters, sendOutcome(x.bytes)), sendOutcome, i - 1);
    }
  }

  /** How many of the sent packets the device accepted. */
  function Delivered(sent: seq<SentPacket>, sendOutcome: Packet -> CaptureResult): nat {
    if |sent| == 0 then 0
    else (if sendOutcome(sent[0].bytes) == CaptureResult.Success then 1 else 0) + Delivered(sent[1..], sendOutcome)
  }

  /** The processed-packet counter grows by exactly the packets the device accepted. */
  lemma {:induction false} RunCountsDelivered(stop: bool, inbox: seq<Received>, c: Counters,
                                               sendOutcome: Packet -> CaptureResult)
    ensures var o := Run(stop, inbox, c, sendOutcome);
      o.counters.packetsProcessed == c.packetsProcessed + Delivered(o.sent, sendOutcome)
    decreases |inbox|
  {
    if !stop && |inbox| > 0 {
      var x := inbox[0];
      var v := ReceiveVerdict(c, x.result);
      if v.stop.None? {
        if !IsValidPacket(|x.bytes|) {
          RunCountsDelivered(stop, inbox[1..], v.counters.AfterInvalidPacket(), sendOutcome);
        } else {
          var c' := SendVerdict(v.counters, sendOutcome(x.bytes));
          RunCountsDelivered(stop, inbox[1..], c', sendOutcome);
          var o := Run(stop, inbox[1..], c', sendOutcome);
          assert ([SentPacket(x.bytes, x.metadata)] + o.sent)[1..] == o.sent;
        }
      }
    }
  }

  /** A failure other than an abort or a closed handle, carrying no valid packet. */
  predicate FailedReceive(x: Received) {
    x.result != CaptureResult.Success && x.result != OperationAborted && x.result != CaptureResult.InvalidHandle
    && !IsValidPacket(|x.bytes|)
  }

  /**
   * Failed receives one after another end the loop with TooManyErrors as soon as
   * the run of failures passes 1000, whatever follows.
   */
  lemma {:induction false} FailuresTrip(inbox: seq<Received>, c: Counters, sendOutcome: Packet -> CaptureResult)
    requires c.consecutiveErrors <= MaxConsecutiveErrors < c.consecutiveErrors + |inbox|
    requires forall i :: 0 <= i <= MaxConsecutiveErrors - c.consecutiveErrors ==> FailedReceive(inbox[i])
    ensures Run(false, inbox, c, sendOutcome).result == TooManyErrors
    decreases |inbox|
  {
    var v := ReceiveVerdict(c, inbox[0].result);
    assert FailedReceive(inbox[0]);
    if v.stop.None? {
      var c' := v.counters.AfterInvalidPacket();
      forall i | 0 <= i <= MaxConsecutiveErrors - c'.consecutiveErrors
        ensures FailedReceive(inbox[1..][i])
      {
        assert inbox[1..][i] == inbox[i + 1];
      }
      FailuresTrip(inbox[1..], c', sendOutcome);
    }
  }

  class Engine {
    const telemetry: EngineTelemetry
    const logger: PacketLogging.RingBufferPacketLogger
    const capture: PacketDevice
    var state: EngineState
    var cancelRequested: bool
    var captureThreadActive: bool

    /** The logger is consistent, the counters are, and a running engine has no stop request. */
    ghost predicate Valid()
      reads this, telemetry, logger, logger.buffer
    {
      logger.Valid() && telemetry.Counts().Consistent()
      && (state == Running ==> !cancelRequested)
    }

    /** The C# constructor refuses a null logger or device; here the types rule them out. */
    constructor (logger: PacketLogging.RingBufferPacketLogger, capture: PacketDevice)
      requires logger.Valid()
      ensures Valid() && fresh(telemetry) && telemetry.Counts() == Zero
      ensures this.logger == logger && this.capture == capture
      ensures state == Idle && !cancelRequested && !captureThreadActive
    {
      telemetry := new EngineTelemetry();
      this.logger := logger;
      this.capture := capture;
      state := Idle;
      cancelRequested := false;
      captureThreadActive := false;
    }

    function IsRunning(): bool
      reads this
    {
      state == Running
    }

    function PacketCount(): nat
      reads this, telemetry
    {
      telemetry.packetsProcessed
    }

    /** Writes an Info entry stamped `now`. */
    method Log(code: PacketLogging.LogCode, value: int, now: int)
      requires logger.Valid()
      modifies logger, logger.buffer
      ensures logger.Valid()
      ensures logger.history == old(logger.history) + [PacketLogging.PacketLogEntry(now, PacketLogging.Info, code, value)]
    {
      logger.Log(PacketLogging.PacketLogEntry(now, PacketLogging.Info, code, value));
    }

    /**
     * Opens the device with the filter and starts running, unless the engine is
     * already running or stopping, disposed, faulted, or the filter is blank. A
     * failed open puts the engine back to Idle. Success clears the stop request,
     * zeroes the counters and logs EngineStarted.
     */
    method Start(filter: string, now: int) returns (r: StartResult)
      requires Valid()
      modifies this, telemetry, logger, logger.buffer, capture`openedFilters
      ensures Valid()
      ensures (r, state) == StartOutcome(old(state), filter, capture.openOutcome)
      ensures capture.openedFilters == old(capture.openedFilters) + (if OpensDevice(old(state), filter) then [filter] else [])
      ensures r == Started ==>
        !cancelRequested && telemetry.Counts() == Zero
        && logger.history == old(logger.history) + [PacketLogging.PacketLogEntry(now, PacketLogging.Info, PacketLogging.EngineStarted, 0)]
      ensures r != Started ==> telemetry.Counts() == old(telemetry.Counts()) && logger.history == old(logger.history)
      ensures captureThreadActive == old(captureThreadActive)
    {
      var s := state;
      if s == Running || s == Stopping {
        return AlreadyRunning;
      }
      if s == EngineState.Disposed {
        return StartResult.Disposed;
      }
      if IsBlank(filter) {
        return StartResult.InvalidFilter;
      }
      if state != Idle {
        return AlreadyRunning;
      }
      state := Running;
      cancelRequested := false;
      var result := capture.Open(filter);
      if result != CaptureResult.Success {
        state := Idle;
        return if result == CaptureResult.InvalidFilter then StartResult.InvalidFilter else OpenFailed;
      }
      telemetry.Reset();
      Log(PacketLogging.EngineStarted, 0, now);
      return Started;
    }

    /** Asks a running engine to stop and shuts the device down; in any other state it does nothing. */
    method Stop()
      requires Valid()
      modifies this, capture`shutdownCalls
      ensures Valid() && captureThreadActive == old(captureThreadActive)
      ensures old(state) == Running ==>
        state == Stopping && cancelRequested && capture.shutdownCalls == old(capture.shutdownCalls) + 1
      ensures old(state) != Running ==>
        state == old(state) && cancelRequested == old(cancelRequested)
        && capture.shutdownCalls == old(capture.shutdownCalls)
    {
      if state != Running {
        return;
      }
      state := Stopping;
      cancelRequested := true;
      capture.Shutdown();
    }

    /** Whether the receive loop must end before the next receive. */
    function ShouldStop(): bool
      reads this
    {
      state != Running || cancelRequested
    }

    /**
     * Runs the receive loop of a running engine to its end, then goes back to Idle
     * (after Success or Stopped) or to Faulted, and logs EngineStopped with the
     * packet count. A stopping engine answers Stopped and any other state, or a loop
     * already in progress, InvalidState, without doing anything.
     */
    method RunCaptureLoop(now: int) returns (r: EngineResult)
      requires Valid()
      modifies this, telemetry, logger, logger.buffer, capture`inbox, capture`sent, capture`checksumCalls
      ensures Valid()
      ensures old(state) == Stopping ==> r == Stopped
      ensures old(state) != Stopping && (old(state) != Running || old(captureThreadActive)) ==> r == InvalidState
      ensures old(state) != Running || old(captureThreadActive) ==>
        state == old(state) && telemetry.Counts() == old(telemetry.Counts())
        && capture.inbox == old(capture.inbox) && capture.sent == old(capture.sent)
        && logger.history == old(logger.history)
      ensures old(state) == Running && !old(captureThreadActive) ==>
        var o := Run(false, old(capture.inbox), old(telemetry.Counts()), capture.sendOutcome);
        r == o.result && telemetry.Counts() == o.counters
        && capture.sent == old(capture.sent) + o.sent && capture.inbox == o.rest
        && state == (if r == EngineResult.Success || r == Stopped then Idle else Faulted)
        && !captureThreadActive
        && logger.history
           == old(logger.history) + [PacketLogging.PacketLogEntry(now, PacketLogging.Info, PacketLogging.EngineStopped, o.counters.packetsProcessed)]
    {
      var currentState := state;
      if currentState == Stopping {
        return Stopped;
      }
      if currentState != Running {
        return InvalidState;
      }
      if captureThreadActive {
        return InvalidState;
      }
      captureThreadActive := true;
      RunBounds(false, capture.inbox, telemetry.Counts(), capture.sendOutcome);
      var result := ProcessLoop();
      captureThreadActive := false;
      state := if result == EngineResult.Success || result == Stopped then Idle else Faulted;
      Log(PacketLogging.EngineStopped, telemetry.packetsProcessed, now);
      return result;
    }

    /**
     * Receives until a stop request, the end of the device's input or too many
     * errors: a packet of valid length goes back to the device, any other is
     * counted as invalid.
     */
    method ProcessLoop() returns (r: EngineResult)
      modifies telemetry, capture`inbox, capture`sent, capture`checksumCalls
      ensures var o := Run(ShouldStop(), old(capture.inbox), old(telemetry.Counts()), capture.sendOutcome);
        r == o.result && telemetry.Counts() == o.counters
        && capture.sent == old(capture.sent) + o.sent && capture.inbox == o.rest
        && capture.checksumCalls == old(capture.checksumCalls) + |o.sent|
    {
      ghost var stop := ShouldStop();
      ghost var start := Run(stop, capture.inbox, telemetry.Counts(), capture.sendOutcome);
      ghost var done: seq<SentPacket> := [];
      while true
        invariant capture.sent == old(capture.sent) + done
        invariant capture.checksumCalls == old(capture.checksumCalls) + |done|
        invariant start == After(done, Run(stop, capture.inbox, telemetry.Counts(), capture.sendOutcome))
        decreases |capture.inbox|
      {
        if ShouldStop() {
          return Stopped;
        }
        var stopWith, forwarded := Step();
        AfterAfter(done, forwarded, Run(stop, capture.inbox, telemetry.Counts(), capture.sendOutcome));
        if stopWith.Some? {
          return stopWith.value;
        }
        done := done + forwarded;
      }
    }

    /**
     * One pass of the receive loop once no stop was requested: receive, classify the
     * outcome, then skip the packet as invalid or forward it.
     */
    method Step() returns (stopWith: Option<EngineResult>, ghost forwarded: seq<SentPacket>)
      modifies telemetry, capture`inbox, capture`sent, capture`checksumCalls
      ensures var o := Run(false, old(capture.inbox), old(telemetry.Counts()), capture.sendOutcome);
        if stopWith.Some? then
          o == LoopEnd(stopWith.value, telemetry.Counts(), [], capture.inbox) && forwarded == []
        else
          o == After(forwarded, Run(false, capture.inbox, telemetry.Counts(), capture.sendOutcome))
          && |capture.inbox| < old(|capture.inbox|)
      ensures capture.sent == old(capture.sent) + forwarded
      ensures capture.checksumCalls == old(capture.checksumCalls) + |forwarded|
    {
      var recv, bytes, metadata := capture.Receive();
      stopWith := HandleReceiveError(recv);
      forwarded := [];
      if stopWith.Some? {
        return;
      }
      if !IsValidPacket(|bytes|) {
        telemetry.RecordInvalidPacket();
        return;
      }
      ProcessPacket(bytes, metadata);
      forwarded := [SentPacket(bytes, metadata)];
    }

    /** Classifies a receive outcome, counting a receive error where there is one. */
    method HandleReceiveError(recv: CaptureResult) returns (stopWith: Option<EngineResult>)
      modifies telemetry
      ensures Verdict(stopWith, telemetry.Counts()) == ReceiveVerdict(old(telemetry.Counts()), recv)
    {
      if recv == CaptureResult.Success {
        return Option.None;
      }
      if recv == OperationAborted || recv == CaptureResult.InvalidHandle {
        return Some(Stopped);
      }
      telemetry.RecordRecvError();
      if telemetry.consecutiveErrors > MaxConsecutiveErrors {
        return Some(TooManyErrors);
      }
      return Option.None;
    }

    /** Recomputes the checksums, sends the packet and counts the outcome. */
    method ProcessPacket(bytes: Packet, metadata: PacketMetadata)
      modifies telemetry, capture`sent, capture`checksumCalls
      ensures capture.sent == old(capture.sent) + [SentPacket(bytes, metadata)]
      ensures capture.checksumCalls == old(capture.checksumCalls) + 1
      ensures telemetry.Counts() == SendVerdict(old(telemetry.Counts()), capture.sendOutcome(bytes))
    {
      capture.CalculateChecksums(bytes, metadata);
      var sendResult := capture.Send(bytes, metadata);
      if sendResult == CaptureResult.Success {
        telemetry.RecordPacket();
      } else if sendResult == CaptureResult.InvalidHandle {
      } else {
        telemetry.RecordSendError();
      }
    }

    /** Marks the engine disposed and disposes the device, once. */
    method Dispose()
      requires Valid()
      modifies this, capture`disposeCalls
      ensures Valid() && state == EngineState.Disposed
      ensures capture.disposeCalls == old(capture.disposeCalls) + (if old(state) == EngineState.Disposed then 0 else 1)
    {
      var previous := state;
      state := EngineState.Disposed;
      if previous == EngineState.Disposed {
        return;
      }
      capture.Dispose();
    }
  }
}
