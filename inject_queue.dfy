/**
 * The one-shot injection queue (InjectQueue.cs): a circular buffer of at most 64
 * packets, filled by Enqueue and drained in arrival order by Flush, which hands
 * each packet to the capture device once without passing it through the rules.
 */
module InjectQueues {
  import opened PacketCapture

  const MaxQueueSize := 64

  /** A queued packet: a copy of its bytes (whose length is the entry's length) and its metadata. */
  datatype InjectEntry = InjectEntry(bytes: Packet, metadata: PacketMetadata)

  /** What a cell holds before it is first used or after its buffer was given back. */
  const Cleared := InjectEntry([], NoMetadata)

  /** The device log entries of sending each of `es`, in order. */
  function Sends(es: seq<InjectEntry>): (r: seq<SentPacket>)
    ensures |r| == |es|
  {
    if |es| == 0 then [] else [SentPacket(es[0].bytes, es[0].metadata)] + Sends(es[1..])
  }

  lemma {:induction false} SendsAppend(es: seq<InjectEntry>, e: InjectEntry)
    ensures Sends(es + [e]) == Sends(es) + [SentPacket(e.bytes, e.metadata)]
  {
    if |es| > 0 {
      assert (es + [e])[1..] == es[1..] + [e];
      SendsAppend(es[1..], e);
    }
  }

  /** `cs` sits in the cells of `q` from `h` on, wrapping at 64. */
  ghost predicate Ring(q: seq<InjectEntry>, h: int, cs: seq<InjectEntry>) {
    |q| == MaxQueueSize && 0 <= h < MaxQueueSize && |cs| <= MaxQueueSize
    && forall j :: 0 <= j < |cs| ==> cs[j] == q[(h + j) % MaxQueueSize]
  }

  /** Writing the cell after the last one adds an entry at the end. */
  lemma RingPush(q: seq<InjectEntry>, h: int, cs: seq<InjectEntry>, e: InjectEntry)
    requires Ring(q, h, cs) && |cs| < MaxQueueSize
    ensures Ring(q[(h + |cs|) % MaxQueueSize := e], h, cs + [e])
    ensures ((h + |cs|) % MaxQueueSize + 1) % MaxQueueSize == (h + |cs| + 1) % MaxQueueSize
  {
    var q' := q[(h + |cs|) % MaxQueueSize := e];
    forall j | 0 <= j < |cs| + 1
      ensures (cs + [e])[j] == q'[(h + j) % MaxQueueSize]
    {
      if j < |cs| {
        RingDistinct(h, j, |cs|);
      }
    }
  }

  /**
   * The first entry sits at `h`; clearing that cell (or not) and starting one cell
   * later leaves the rest in place.
   */
  lemma RingPop(q: seq<InjectEntry>, h: int, cs: seq<InjectEntry>)
    requires Ring(q, h, cs) && |cs| > 0
    ensures q[h] == cs[0]
    ensures Ring(q[h := Cleared], (h + 1) % MaxQueueSize, cs[1..])
    ensures Ring(q, (h + 1) % MaxQueueSize, cs[1..])
    ensures ((h + 1) % MaxQueueSize + (|cs| - 1)) % MaxQueueSize == (h + |cs|) % MaxQueueSize
  {
    assert q[h] == q[(h + 0) % MaxQueueSize];
    var h' := (h + 1) % MaxQueueSize;
    forall j | 0 <= j < |cs| - 1
      ensures cs[1..][j] == q[h := Cleared][(h' + j) % MaxQueueSize]
      ensures cs[1..][j] == q[(h' + j) % MaxQueueSize]
    {
      RingShift(h, j);
      RingDistinct(h, 0, j + 1);
    }
    RingShift(h, |cs| - 1);
  }

  /** Stepping the start of the ring on by one cell shifts every later cell by one. */
  lemma RingShift(h: int, j: int)
    requires 0 <= h < MaxQueueSize && 0 <= j
    ensures ((h + 1) % MaxQueueSize + j) % MaxQueueSize == (h + 1 + j) % MaxQueueSize
  {
  }

  /** Two cells fewer than 64 apart are different cells. */
  lemma RingDistinct(h: int, i: int, j: int)
    requires 0 <= h < MaxQueueSize && 0 <= i < j < i + MaxQueueSize
    ensures (h + i) % MaxQueueSize != (h + j) % MaxQueueSize
  {
  }

  /** Moving the oldest entry from the queued part to the sent part of a Flush. */
  lemma FlushStep(sent0: seq<SentPacket>, done: seq<InjectEntry>, cs: seq<InjectEntry>)
    requires |cs| > 0
    ensures (done + [cs[0]]) + cs[1..] == done + cs
    ensures sent0 + Sends(done + [cs[0]]) == (sent0 + Sends(done)) + [SentPacket(cs[0].bytes, cs[0].metadata)]
  {
    SendsAppend(done, cs[0]);
    assert cs == [cs[0]] + cs[1..];
  }

  class InjectQueue {
    const capture: PacketDevice
    const queue: array<InjectEntry>
    var head: int
    var tail: int
    var count: int
    var disposed: bool
    /** The queued packets, oldest first. */
    ghost var contents: seq<InjectEntry>

    /**
     * The live cells run from `head` for `count` cells, wrapping at 64, and `tail`
     * is the cell after the last of them.
     */
    ghost predicate Valid()
      reads this, queue
    {
      queue.Length == MaxQueueSize
      && 0 <= head < MaxQueueSize && 0 <= tail < MaxQueueSize && 0 <= count <= MaxQueueSize
      && tail == (head + count) % MaxQueueSize
      && |contents| == count
      && Ring(queue[..], head, contents)
    }

    constructor (capture: PacketDevice)
      ensures Valid() && fresh(queue) && !disposed
      ensures this.capture == capture && contents == [] && head == 0 && tail == 0
    {
      this.capture := capture;
      queue := new InjectEntry[MaxQueueSize](_ => Cleared);
      head, tail, count := 0, 0, 0;
      disposed := false;
      contents := [];
    }

    /**
     * Queues a copy of the packet behind the others. A full queue and a disposed
     * queue refuse it and change nothing.
     */
    method Enqueue(packet: Packet, metadata: PacketMetadata) returns (ok: bool)
      requires Valid()
      modifies this, queue
      ensures Valid() && disposed == old(disposed) && head == old(head)
      ensures ok <==> !old(disposed) && old(count) < MaxQueueSize
      ensures ok ==>
        contents == old(contents) + [InjectEntry(packet, metadata)]
        && tail == (old(tail) + 1) % MaxQueueSize && count == old(count) + 1
      ensures !ok ==>
        contents == old(contents) && tail == old(tail) && count == old(count)
        && queue[..] == old(queue[..])
    {
      if disposed {
        return false;
      }
      if count >= MaxQueueSize {
        return false;
      }
      RingPush(queue[..], head, contents, InjectEntry(packet, metadata));
      queue[tail] := InjectEntry(packet, metadata);
      tail := (tail + 1) % MaxQueueSize;
      count := count + 1;
      contents := contents + [InjectEntry(packet, metadata)];
      return true;
    }

    /**
     * Sends every queued packet once, oldest first, and leaves the queue empty.
     * After Dispose it does nothing.
     */
    method Flush()
      requires Valid()
      modifies this, queue, capture`sent
      ensures Valid() && disposed == old(disposed)
      ensures old(disposed) ==> contents == old(contents) && capture.sent == old(capture.sent)
      ensures !old(disposed) ==> contents == [] && capture.sent == old(capture.sent) + Sends(old(contents))
    {
      if disposed {
        return;
      }
      ghost var done: seq<InjectEntry> := [];
      while count > 0
        invariant Valid() && !disposed
        invariant done + contents == old(contents)
        invariant capture.sent == old(capture.sent) + Sends(done)
        decreases count
      {
        RingPop(queue[..], head, contents);
        var e := queue[head];
        var _ := capture.Send(e.bytes, e.metadata);
        FlushStep(old(capture.sent), done, contents);
        queue[head] := Cleared;
        head := (head + 1) % MaxQueueSize;
        count := count - 1;
        done := done + [e];
        contents := contents[1..];
      }
      assert contents == [] && done + contents == done;
    }

    /**
     * Marks the queue disposed and drops every queued packet without sending it;
     * a second Dispose does nothing.
     */
    method Dispose()
      requires Valid()
      modifies this
      ensures Valid() && disposed
      ensures old(disposed) ==> contents == old(contents) && count == old(count)
      ensures !old(disposed) ==> contents == [] && count == 0
    {
      if disposed {
        return;
      }
      disposed := true;
      while count > 0
        invariant Valid() && disposed
        decreases count
      {
        RingPop(queue[..], head, contents);
        head := (head + 1) % MaxQueueSize;
        count := count - 1;
        contents := contents[1..];
      }
    }
  }

  /** Packets queued one after another come out of Flush in the order they went in. */
  lemma FifoOrder(before: seq<InjectEntry>, a: InjectEntry, b: InjectEntry)
    ensures Sends(before + [a] + [b]) == Sends(before) + [SentPacket(a.bytes, a.metadata), SentPacket(b.bytes, b.metadata)]
  {
    SendsAppend(before, a);
    SendsAppend(before + [a], b);
  }
}
