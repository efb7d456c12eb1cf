/**
 * The delay line of the rule decorator (TimeWheelScheduler.cs): a ring of 1024
 * slots, each covering 10000 Stopwatch ticks, where a delayed packet waits in the
 * slot of its target tick until a Tick at or after that target sends it on.
 * Each slot keeps its own array of entries, doubled when full; a Tick removes
 * the entries it sends by moving the slot's last entry into their place.
 */
module TimeWheel {
  import opened PacketCapture
  import opened Numerics

  const WheelSize := 1024
  const TicksPerSlot := 10000
  /** Every slot starts with room for this many entries. */
  const InitialCapacity := 16

  /** A packet waiting in the wheel: a copy of its bytes, its metadata and the tick it is due at. */
  datatype DelayedPacket = DelayedPacket(bytes: Packet, metadata: PacketMetadata, targetTick: int)

  /** The value that fills the unused part of a slot's array. */
  const Vacant := DelayedPacket([], NoMetadata, 0)

  /**
   * One slot of the wheel: its entry array, how many of its first entries are live,
   * and the array's size.
   */
  datatype Slot = Slot(packets: array<DelayedPacket>, count: int, capacity: int)

  /**
   * The slot a target tick falls in: the tick divided by the slot width (the
   * division of C#, which truncates), masked with 1023. On a two's complement
   * 64-bit value that mask keeps the non-negative remainder modulo 1024.
   */
  function SlotIndex(targetTick: int): (k: int)
    ensures 0 <= k < WheelSize
  {
    TruncDiv(targetTick, TicksPerSlot) % WheelSize
  }

  /** Ticks in one 10000-tick window share a slot, and each slot recurs once per revolution. */
  lemma SlotIndexPeriodic(t: int, u: int)
    requires 0 <= t && 0 <= u
    ensures t / TicksPerSlot == u / TicksPerSlot ==> SlotIndex(t) == SlotIndex(u)
    ensures SlotIndex(t + WheelSize * TicksPerSlot) == SlotIndex(t)
  {
    var n := WheelSize * TicksPerSlot;
    assert (t + n) / TicksPerSlot == t / TicksPerSlot + WheelSize;
  }

  predicate Due(e: DelayedPacket, now: int) {
    e.targetTick <= now
  }

  /** The entries of `s` that are due at `now`, in order. */
  function DueOf(s: seq<DelayedPacket>, now: int): (d: seq<DelayedPacket>)
  {
    if |s| == 0 then [] else (if Due(s[0], now) then [s[0]] else []) + DueOf(s[1..], now)
  }

  /** The entries of `s` that are not yet due at `now`, in order. */
  function KeptOf(s: seq<DelayedPacket>, now: int): (d: seq<DelayedPacket>)
  {
    if |s| == 0 then [] else (if Due(s[0], now) then [] else [s[0]]) + KeptOf(s[1..], now)
  }

  /** The due entries of `s`, latest index first: the order a backward scan meets them in. */
  function LatestFirst(s: seq<DelayedPacket>, now: int): (d: seq<DelayedPacket>)
  {
    if |s| == 0 then [] else LatestFirst(s[1..], now) + (if Due(s[0], now) then [s[0]] else [])
  }

  /** Every entry is either due or kept, so the two together are the slot again. */
  lemma {:induction false} DueAndKeptPartition(s: seq<DelayedPacket>, now: int)
    ensures multiset(DueOf(s, now)) + multiset(KeptOf(s, now)) == multiset(s)
  {
    if |s| > 0 {
      DueAndKeptPartition(s[1..], now);
      assert s == [s[0]] + s[1..];
    }
  }

  /** The backward scan sends exactly the due entries, each once. */
  lemma {:induction false} LatestFirstSendsDue(s: seq<DelayedPacket>, now: int)
    ensures multiset(LatestFirst(s, now)) == multiset(DueOf(s, now))
  {
    if |s| > 0 {
      LatestFirstSendsDue(s[1..], now);
    }
  }

  /** The device log entries of handing each of `es` to Send, in order. */
  function Sends(es: seq<DelayedPacket>): (r: seq<SentPacket>)
    ensures |r| == |es|
  {
    if |es| == 0 then [] else [SentPacket(es[0].bytes, es[0].metadata)] + Sends(es[1..])
  }

  lemma {:induction false} SendsAppend(es: seq<DelayedPacket>, e: DelayedPacket)
    ensures Sends(es + [e]) == Sends(es) + [SentPacket(e.bytes, e.metadata)]
  {
    if |es| > 0 {
      assert (es + [e])[1..] == es[1..] + [e];
      SendsAppend(es[1..], e);
    }
  }

  /** Scanning rule `i` on the way down: its entry is sent last, or kept in front. */
  lemma ScanStep(s: seq<DelayedPacket>, i: nat, now: int)
    requires i < |s|
    ensures LatestFirst(s[i..], now)
         == LatestFirst(s[i + 1..], now) + (if Due(s[i], now) then [s[i]] else [])
    ensures KeptOf(s[i..], now) == (if Due(s[i], now) then [] else [s[i]]) + KeptOf(s[i + 1..], now)
  {
    assert s[i..][0] == s[i] && s[i..][1..] == s[i + 1..];
  }

  /** Moving the last live entry into position `i` and dropping the last keeps the rest as a multiset. */
  lemma SwapWithLast(q: seq<DelayedPacket>, i: nat, c: nat)
    requires i < c <= |q|
    ensures multiset(q[i := q[c - 1]][i..c - 1]) == multiset(q[i + 1..c])
  {
    var q' := q[i := q[c - 1]];
    if i < c - 1 {
      assert q'[i..c - 1] == [q[c - 1]] + q[i + 1..c - 1];
      assert q[i + 1..c] == q[i + 1..c - 1] + [q[c - 1]];
    }
  }

  /**
   * Where the backward scan stands: positions up to `i` are as they were, the
   * `c - i - 1` live entries above `i` are the kept entries of those already
   * scanned, and none of them is due.
   */
  ghost predicate Swept(before: seq<DelayedPacket>, q: seq<DelayedPacket>, i: int, c: int, now: int) {
    -1 <= i < c <= |before| <= |q|
    && q[..i + 1] == before[..i + 1]
    && (forall j :: i < j < c ==> !Due(q[j], now))
    && multiset(q[i + 1..c]) == multiset(KeptOf(before[i + 1..], now))
  }

  /** One step of the scan on a due entry: the last live entry takes its place. */
  lemma SweepDue(before: seq<DelayedPacket>, q: seq<DelayedPacket>, i: int, c: int, now: int)
    requires 0 <= i && Swept(before, q, i, c, now) && Due(q[i], now)
    ensures Swept(before, q[i := q[c - 1]], i - 1, c - 1, now)
  {
    var q' := q[i := q[c - 1]];
    assert q'[..i] == before[..i] by {
      assert q'[..i] == q[..i];
      assert q[..i] == q[..i + 1][..i];
    }
    assert forall j :: i - 1 < j < c - 1 ==> !Due(q'[j], now);
    assert multiset(q'[i..c - 1]) == multiset(KeptOf(before[i..], now)) by {
      assert q[i] == before[i];
      ScanStep(before, i, now);
      SwapWithLast(q, i, c);
    }
  }

  /** One step of the scan on an entry that is not due: it stays where it is. */
  lemma SweepKeep(before: seq<DelayedPacket>, q: seq<DelayedPacket>, i: int, c: int, now: int)
    requires 0 <= i && Swept(before, q, i, c, now) && !Due(q[i], now)
    ensures Swept(before, q, i - 1, c, now)
  {
    assert q[i] == before[i];
    assert KeptOf(before[i..], now) == [q[i]] + KeptOf(before[i + 1..], now) by {
      ScanStep(before, i, now);
    }
    assert q[i..c] == [q[i]] + q[i + 1..c];
  }

  /** When the scan is over, the live entries are exactly the kept ones and none is due. */
  lemma SweptDone(before: seq<DelayedPacket>, q: seq<DelayedPacket>, c: int, now: int)
    requires Swept(before, q, -1, c, now)
    ensures multiset(q[..c]) == multiset(KeptOf(before, now))
    ensures forall j :: 0 <= j < c ==> !Due(q[j], now)
  {
    assert before[0..] == before && q[0..c] == q[..c];
  }

  lemma LogGrows(sent: seq<SentPacket>, sends: seq<SentPacket>, p: SentPacket)
    ensures sent + (sends + [p]) == (sent + sends) + [p]
  {
  }

  predicate SlotValid(s: Slot) {
    InitialCapacity <= s.capacity == s.packets.Length && 0 <= s.count <= s.capacity
  }

  class TimeWheelScheduler {
    /** Where due packets are sent. */
    const capture: PacketDevice
    const wheel: array<Slot>
    /** The timestamp of the last Tick (of construction before the first). */
    var currentTick: int
    var disposed: bool

    ghost function Arrays(): set<array<DelayedPacket>>
      reads this, wheel
    {
      set i | 0 <= i < wheel.Length :: wheel[i].packets
    }

    /** 1024 slots, each well formed, no two sharing an entry array. */
    ghost predicate Valid()
      reads this, wheel
    {
      wheel.Length == WheelSize
      && (forall i :: 0 <= i < WheelSize ==> SlotValid(wheel[i]))
      && (forall i, j :: 0 <= i < j < WheelSize ==> wheel[i].packets != wheel[j].packets)
    }

    /** The live entries of slot `i`, in array order. */
    ghost function Contents(i: int): seq<DelayedPacket>
      requires Valid() && 0 <= i < WheelSize
      reads this, wheel, Arrays()
    {
      assert wheel[i].packets in Arrays();
      wheel[i].packets[..wheel[i].count]
    }

    /** Every slot starts empty with room for 16 entries. */
    constructor (capture: PacketDevice, now: int)
      ensures Valid() && fresh(wheel) && !disposed
      ensures this.capture == capture && currentTick == now
      ensures forall i :: 0 <= i < WheelSize ==> Contents(i) == [] && wheel[i].capacity == InitialCapacity
    {
      var empty := new DelayedPacket[0];
      var w := new Slot[WheelSize](_ => Slot(empty, 0, 0));
      var i := 0;
      while i < WheelSize
        invariant 0 <= i <= WheelSize
        invariant forall j :: 0 <= j < i ==>
          fresh(w[j].packets) && w[j].packets.Length == InitialCapacity && w[j] == Slot(w[j].packets, 0, InitialCapacity)
        invariant forall j, k :: 0 <= j < k < i ==> w[j].packets != w[k].packets
      {
        var a := new DelayedPacket[InitialCapacity](_ => Vacant);
        w[i] := Slot(a, 0, InitialCapacity);
        i := i + 1;
      }
      this.capture := capture;
      wheel := w;
      currentTick := now;
      disposed := false;
    }

    /**
     * Puts a copy of the packet into the slot of `now + delayTicks`, after the
     * entries already there, doubling the slot's array first when it is full. No
     * other slot changes. After Dispose it does nothing.
     */
    method Enqueue(packet: Packet, metadata: PacketMetadata, delayTicks: int, now: int)
      requires Valid()
      modifies wheel, wheel[SlotIndex(now + delayTicks)].packets
      ensures Valid()
      ensures old(disposed) ==> forall i :: 0 <= i < WheelSize ==> wheel[i] == old(wheel[i])
      ensures old(disposed) ==> forall i :: 0 <= i < WheelSize ==> Contents(i) == old(Contents(i))
      ensures !old(disposed) ==>
        var k := SlotIndex(now + delayTicks);
        Contents(k) == old(Contents(k)) + [DelayedPacket(packet, metadata, now + delayTicks)]
        && wheel[k].capacity
           == (if old(wheel[k].count) >= old(wheel[k].capacity) then 2 * old(wheel[k].capacity)
               else old(wheel[k].capacity))
        && forall i :: 0 <= i < WheelSize && i != k ==> wheel[i] == old(wheel[i]) && Contents(i) == old(Contents(i))
    {
      if disposed {
        return;
      }
      var target := now + delayTicks;
      var k := SlotIndex(target);
      var slot := wheel[k];
      ghost var live := slot.packets[..slot.count];
      if slot.count >= slot.capacity {
        var grown := Grown(slot.packets, slot.count);
        slot := Slot(grown, slot.count, slot.capacity * 2);
      }
      slot.packets[slot.count] := DelayedPacket(packet, metadata, target);
      wheel[k] := slot.(count := slot.count + 1);
      assert wheel[k].packets[..wheel[k].count] == live + [DelayedPacket(packet, metadata, target)];
      assert forall i :: 0 <= i < WheelSize && i != k ==> wheel[i] == old(wheel[i]);
    }

    /** A fresh entry array twice the size of `packets`, starting with its first `count` entries. */
    static method Grown(packets: array<DelayedPacket>, count: int) returns (grown: array<DelayedPacket>)
      requires 0 <= count <= packets.Length
      ensures fresh(grown) && grown.Length == 2 * packets.Length
      ensures grown[..count] == packets[..count]
    {
      grown := new DelayedPacket[2 * packets.Length](_ => Vacant);
      var j := 0;
      while j < count
        invariant 0 <= j <= count
        invariant grown[..j] == packets[..j]
      {
        grown[j] := packets[j];
        j := j + 1;
      }
    }

    /**
     * Sends every due entry of the current slot, scanning from the last live entry
     * down to the first; a sent entry is replaced by the slot's last live entry,
     * which the scan has already passed. The due entries are sent latest index
     * first, the others stay (in some order), and no other slot changes. After
     * Dispose it does nothing.
     */
    method Tick(now: int)
      requires Valid()
      modifies this, wheel, wheel[SlotIndex(now)].packets, capture`sent
      ensures Valid() && disposed == old(disposed)
      ensures old(disposed) ==> capture.sent == old(capture.sent) && currentTick == old(currentTick)
      ensures old(disposed) ==> forall i :: 0 <= i < WheelSize ==> wheel[i] == old(wheel[i]) && Contents(i) == old(Contents(i))
      ensures !old(disposed) ==>
        var k := SlotIndex(now);
        var before := old(Contents(k));
        capture.sent == old(capture.sent) + Sends(LatestFirst(before, now))
        && multiset(Contents(k)) == multiset(KeptOf(before, now))
        && (forall e :: e in Contents(k) ==> !Due(e, now))
        && wheel[k].packets == old(wheel[k].packets) && wheel[k].capacity == old(wheel[k].capacity)
        && currentTick == now
      ensures !old(disposed) ==>
        forall i :: 0 <= i < WheelSize && i != SlotIndex(now) ==> wheel[i] == old(wheel[i]) && Contents(i) == old(Contents(i))
    {
      if disposed {
        return;
      }
      var k := SlotIndex(now);
      var slot := wheel[k];
      var c := Sweep(slot.packets, slot.count, now);
      SetCount(k, c);
      currentTick := now;
    }

    /** Shrinks slot `k` to its first `c` entries; the arrays and every other slot stay as they are. */
    method SetCount(k: int, c: int)
      requires Valid() && 0 <= k < WheelSize && 0 <= c <= wheel[k].count
      modifies wheel
      ensures Valid()
      ensures wheel[k] == old(wheel[k]).(count := c) && Contents(k) == old(wheel[k].packets[..c])
      ensures forall i :: 0 <= i < WheelSize && i != k ==> wheel[i] == old(wheel[i]) && Contents(i) == old(Contents(i))
    {
      wheel[k] := wheel[k].(count := c);
      assert forall i :: 0 <= i < WheelSize && i != k ==> wheel[i] == old(wheel[i]);
    }

    /**
     * The loop of Tick on one slot's array of `count` live entries: scans down from
     * the last, sends each due entry and moves the last live entry into its place.
     * Returns how many entries stay live.
     */
    method Sweep(a: array<DelayedPacket>, count: int, now: int) returns (c: int)
      requires 0 <= count <= a.Length
      modifies a, capture`sent
      ensures 0 <= c <= count
      ensures capture.sent == old(capture.sent) + Sends(LatestFirst(old(a[..count]), now))
      ensures multiset(a[..c]) == multiset(KeptOf(old(a[..count]), now))
      ensures forall j :: 0 <= j < c ==> !Due(a[j], now)
    {
      c := count;
      ghost var before := a[..count];
      assert before[count..] == [];
      var i := c - 1;
      while i >= 0
        invariant Swept(before, a[..], i, c, now)
        invariant capture.sent == old(capture.sent) + Sends(LatestFirst(before[i + 1..], now))
        decreases i
      {
        ghost var log := LatestFirst(before[i + 1..], now);
        ghost var e := before[i];
        ScanStep(before, i, now);
        c := SweepAt(before, i, c, a, now);
        if Due(e, now) {
          SendsAppend(log, e);
          LogGrows(old(capture.sent), Sends(log), SentPacket(e.bytes, e.metadata));
        } else {
          assert LatestFirst(before[i..], now) == log;
        }
        i := i - 1;
      }
      SweptDone(before, a[..], c, now);
      assert before == old(a[..count]);
    }

    /** One step of Sweep at position `i`: sends and replaces the entry there if it is due. */
    method SweepAt(ghost before: seq<DelayedPacket>, i: int, c: int, a: array<DelayedPacket>, now: int)
      returns (c': int)
      requires 0 <= i && Swept(before, a[..], i, c, now)
      modifies a, capture`sent
      ensures Swept(before, a[..], i - 1, c', now)
      ensures capture.sent == old(capture.sent)
        + if Due(before[i], now) then [SentPacket(before[i].bytes, before[i].metadata)] else []
    {
      ghost var q := a[..];
      assert a[i] == before[i] by {
        assert q[..i + 1][i] == q[i];
      }
      c' := c;
      if a[i].targetTick <= now {
        SweepDue(before, q, i, c, now);
        var e := a[i];
        var _ := capture.Send(e.bytes, e.metadata);
        a[i] := a[c - 1];
        assert a[..] == q[i := q[c - 1]];
        c' := c - 1;
      } else {
        SweepKeep(before, q, i, c, now);
      }
    }

    /** Empties every slot once; a second Dispose, like Enqueue and Tick afterwards, does nothing. */
    method Dispose()
      requires Valid()
      modifies this, wheel
      ensures Valid() && disposed
      ensures old(disposed) ==> forall i :: 0 <= i < WheelSize ==> wheel[i] == old(wheel[i])
      ensures !old(disposed) ==>
        forall i :: 0 <= i < WheelSize ==> Contents(i) == [] && wheel[i] == old(wheel[i]).(count := 0)
    {
      if disposed {
        return;
      }
      disposed := true;
      var s := 0;
      while s < WheelSize
        invariant 0 <= s <= WheelSize && disposed
        invariant forall j :: 0 <= j < WheelSize ==>
          wheel[j] == if j < s then old(wheel[j]).(count := 0) else old(wheel[j])
      {
        wheel[s] := wheel[s].(count := 0);
        s := s + 1;
      }
      assert forall j :: 0 <= j < WheelSize ==>
        wheel[j].packets == old(wheel[j].packets) && wheel[j].capacity == old(wheel[j].capacity);
      assert forall i :: 0 <= i < WheelSize ==> SlotValid(wheel[i]);
      assert forall i, j :: 0 <= i < j < WheelSize ==> wheel[i].packets != wheel[j].packets;
    }
  }
}
