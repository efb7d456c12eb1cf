/**
 * The packet provider the engine and the rule decorator talk to (IPacketCapture.cs).
 * The real provider is a native driver; here it is a recording device: it keeps the
 * list of packets handed to Send, answers Receive from a script of inputs, and answers
 * Send with an outcome fixed when the device is built.
 */
module PacketCapture {
  type Packet = seq<bv8>

  /** Stopwatch ticks per second; the C# code reads it from Stopwatch.Frequency. */
  type Frequency = f: int | f > 0 witness 1

  /** The current Stopwatch timestamp and the tick frequency, passed in instead of read. */
  datatype Clock = Clock(now: int, frequency: Frequency)

  datatype CaptureResult =
    | Success
    | InvalidFilter
    | InvalidHandle
    | InvalidParameter
    | OperationAborted
    | ElementNotFound
    | BufferTooSmall
    | Unknown

  /** Per-packet driver metadata; the rules and the engine only carry it along. */
  datatype PacketMetadata = PacketMetadata(
    timestamp: int,
    interfaceIndex: int,
    subInterfaceIndex: int,
    direction: bv8,
    loopback: bv8,
    impostor: bv8,
    ipChecksum: bv8,
    tcpChecksum: bv8,
    udpChecksum: bv8,
    length: int)

  const NoMetadata := PacketMetadata(0, 0, 0, 0, 0, 0, 0, 0, 0, 0)

  /** One call of Send, as the device saw it. */
  datatype SentPacket = SentPacket(bytes: Packet, metadata: PacketMetadata)

  /** One scripted answer of Receive. */
  datatype Received = Received(result: CaptureResult, bytes: Packet, metadata: PacketMetadata)

  class PacketDevice {
    /** Every packet handed to Send, oldest first. */
    var sent: seq<SentPacket>
    /** What the next calls of Receive return, in order. */
    var inbox: seq<Received>
    /** The outcome of Send for a given packet. */
    const sendOutcome: Packet -> CaptureResult
    const openOutcome: CaptureResult
    var openedFilters: seq<string>
    var checksumCalls: nat
    var shutdownCalls: nat
    var disposeCalls: nat

    constructor (openOutcome: CaptureResult, sendOutcome: Packet -> CaptureResult, inbox: seq<Received>)
      ensures this.openOutcome == openOutcome && this.sendOutcome == sendOutcome
      ensures this.inbox == inbox && sent == [] && openedFilters == []
      ensures checksumCalls == 0 && shutdownCalls == 0 && disposeCalls == 0
    {
      this.openOutcome := openOutcome;
      this.sendOutcome := sendOutcome;
      this.inbox := inbox;
      sent := [];
      openedFilters := [];
      checksumCalls := 0;
      shutdownCalls := 0;
      disposeCalls := 0;
    }

    method Open(filter: string) returns (r: CaptureResult)
      modifies this`openedFilters
      ensures r == openOutcome
      ensures openedFilters == old(openedFilters) + [filter]
    {
      openedFilters := openedFilters + [filter];
      r := openOutcome;
    }

    /**
     * Takes the next scripted input. Once the script is exhausted the device behaves
     * like a handle that was shut down: Receive reports OperationAborted.
     */
    method Receive() returns (r: CaptureResult, bytes: Packet, metadata: PacketMetadata)
      modifies this`inbox
      ensures old(inbox) == [] ==> r == OperationAborted && bytes == [] && inbox == []
      ensures old(inbox) != [] ==>
        Received(r, bytes, metadata) == old(inbox)[0] && inbox == old(inbox)[1..]
    {
      if inbox == [] {
        r, bytes, metadata := OperationAborted, [], NoMetadata;
      } else {
        r, bytes, metadata := inbox[0].result, inbox[0].bytes, inbox[0].metadata;
        inbox := inbox[1..];
      }
    }

    method Send(bytes: Packet, metadata: PacketMetadata) returns (r: CaptureResult)
      modifies this`sent
      ensures sent == old(sent) + [SentPacket(bytes, metadata)]
      ensures r == sendOutcome(bytes)
    {
      sent := sent + [SentPacket(bytes, metadata)];
      r := sendOutcome(bytes);
    }

    /** Checksum recomputation is left to the driver; the model only counts the calls. */
    method CalculateChecksums(bytes: Packet, metadata: PacketMetadata)
      modifies this`checksumCalls
      ensures checksumCalls == old(checksumCalls) + 1
    {
      checksumCalls := checksumCalls + 1;
    }

    method Shutdown()
      modifies this`shutdownCalls
      ensures shutdownCalls == old(shutdownCalls) + 1
    {
      shutdownCalls := shutdownCalls + 1;
    }

    method Dispose()
      modifies this`disposeCalls
      ensures disposeCalls == old(disposeCalls) + 1
    {
      disposeCalls := disposeCalls + 1;
    }
  }

  /** Each packet of `ps`, in order, as the device records a Send of it. */
  function SentAll(ps: seq<Packet>, metadata: PacketMetadata): (s: seq<SentPacket>)
    ensures |s| == |ps|
    ensures forall i :: 0 <= i < |ps| ==> s[i] == SentPacket(ps[i], metadata)
  {
    if |ps| == 0 then [] else [SentPacket(ps[0], metadata)] + SentAll(ps[1..], metadata)
  }
}
