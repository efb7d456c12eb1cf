/**
 * The engine's counters (EngineTelemetry.cs): packets forwarded, receive errors,
 * send errors, packets of invalid length, and the receive errors since the last
 * packet that went out.
 */
module Telemetry {
  datatype Counters = Counters(
    packetsProcessed: nat,
    recvErrors: nat,
    sendErrors: nat,
    invalidPackets: nat,
    consecutiveErrors: nat)
  {
    /** The run of consecutive errors is part of the receive errors counted since the last reset. */
    predicate Consistent() {
      consecutiveErrors <= recvErrors
    }

    /** Every total is at least its value in `before`. */
    predicate Covers(before: Counters) {
      packetsProcessed >= before.packetsProcessed && recvErrors >= before.recvErrors
      && sendErrors >= before.sendErrors && invalidPackets >= before.invalidPackets
    }

    /** A packet went out: one more processed, and the error run is over. */
    function AfterPacket(): (c: Counters)
      ensures c.Covers(this) && c.consecutiveErrors == 0 && c.Consistent()
      ensures c.packetsProcessed == packetsProcessed + 1
      ensures c.(packetsProcessed := packetsProcessed, consecutiveErrors := consecutiveErrors) == this
    {
      this.(packetsProcessed := packetsProcessed + 1, consecutiveErrors := 0)
    }

    /** A receive failed: one more receive error, and the error run grows. */
    function AfterRecvError(): (c: Counters)
      ensures c.Covers(this) && (Consistent() ==> c.Consistent())
      ensures c.recvErrors == recvErrors + 1 && c.consecutiveErrors == consecutiveErrors + 1
      ensures c.(recvErrors := recvErrors, consecutiveErrors := consecutiveErrors) == this
    {
      this.(recvErrors := recvErrors + 1, consecutiveErrors := consecutiveErrors + 1)
    }

    /** A send failed: only the send errors change. */
    function AfterSendError(): (c: Counters)
      ensures c.Covers(this) && (Consistent() ==> c.Consistent())
      ensures c.sendErrors == sendErrors + 1 && c.(sendErrors := sendErrors) == this
    {
      this.(sendErrors := sendErrors + 1)
    }

    /** A packet of invalid length was skipped: only that count changes. */
    function AfterInvalidPacket(): (c: Counters)
      ensures c.Covers(this) && (Consistent() ==> c.Consistent())
      ensures c.invalidPackets == invalidPackets + 1 && c.(invalidPackets := invalidPackets) == this
    {
      this.(invalidPackets := invalidPackets + 1)
    }
  }

  const Zero := Counters(0, 0, 0, 0, 0)

  class EngineTelemetry {
    var packetsProcessed: nat
    var recvErrors: nat
    var sendErrors: nat
    var invalidPackets: nat
    var consecutiveErrors: nat

    /** The five counters as one value; the C# properties read them one by one. */
    function Counts(): Counters
      reads this
    {
      Counters(packetsProcessed, recvErrors, sendErrors, invalidPackets, consecutiveErrors)
    }

    constructor ()
      ensures Counts() == Zero
    {
      packetsProcessed, recvErrors, sendErrors, invalidPackets, consecutiveErrors := 0, 0, 0, 0, 0;
    }

    method RecordPacket()
      modifies this
      ensures Counts() == old(Counts()).AfterPacket()
    {
      packetsProcessed := packetsProcessed + 1;
      consecutiveErrors := 0;
    }

    method RecordRecvError()
      modifies this
      ensures Counts() == old(Counts()).AfterRecvError()
    {
      recvErrors := recvErrors + 1;
      consecutiveErrors := consecutiveErrors + 1;
    }

    method RecordSendError()
      modifies this
      ensures Counts() == old(Counts()).AfterSendError()
    {
      sendErrors := sendErrors + 1;
    }

    method RecordInvalidPacket()
      modifies this
      ensures Counts() == old(Counts()).AfterInvalidPacket()
    {
      invalidPackets := invalidPackets + 1;
    }

    method Reset()
      modifies this
      ensures Counts() == Zero
    {
      packetsProcessed := 0;
      recvErrors := 0;
      sendErrors := 0;
      invalidPackets := 0;
      consecutiveErrors := 0;
    }
  }

  /** The four things the engine records. */
  datatype Event = Packet | RecvError | SendError | InvalidPacket

  function Apply(c: Counters, e: Event): Counters {
    match e
    case Packet => c.AfterPacket()
    case RecvError => c.AfterRecvError()
    case SendError => c.AfterSendError()
    case InvalidPacket => c.AfterInvalidPacket()
  }

  /** The counters after the events `es`, oldest first, recorded from `c`. */
  function Replay(c: Counters, es: seq<Event>): Counters {
    if |es| == 0 then c else Apply(Replay(c, es[..|es| - 1]), es[|es| - 1])
  }

  /** How many receive errors follow the last forwarded packet of `es`. */
  function TrailingRecvErrors(es: seq<Event>): nat {
    if |es| == 0 then 0
    else if es[|es| - 1] == Packet then 0
    else if es[|es| - 1] == RecvError then TrailingRecvErrors(es[..|es| - 1]) + 1
    else TrailingRecvErrors(es[..|es| - 1])
  }

  /** How many times `x` occurs in `es`. */
  function Occurrences(es: seq<Event>, x: Event): nat {
    if |es| == 0 then 0 else Occurrences(es[..|es| - 1], x) + (if es[|es| - 1] == x then 1 else 0)
  }

  /**
   * From a reset, the consecutive-error counter is the number of receive errors
   * since the last forwarded packet, and every total counts its own events.
   */
  lemma {:induction false} ReplayFromZero(es: seq<Event>)
    ensures var c := Replay(Zero, es);
      c.consecutiveErrors == TrailingRecvErrors(es)
      && c.packetsProcessed == Occurrences(es, Packet)
      && c.recvErrors == Occurrences(es, RecvError)
      && c.sendErrors == Occurrences(es, SendError)
      && c.invalidPackets == Occurrences(es, InvalidPacket)
      && c.Consistent()
  {
    if |es| > 0 {
      ReplayFromZero(es[..|es| - 1]);
    }
  }

  /** Recording never lowers a total. */
  lemma {:induction false} ReplayCovers(c: Counters, es: seq<Event>)
    ensures Replay(c, es).Covers(c)
    ensures c.Consistent() ==> Replay(c, es).Consistent()
  {
    if |es| > 0 {
      ReplayCovers(c, es[..|es| - 1]);
    }
  }
}
