/**
 * The lock-free ring logger (RingBufferPacketLogger.cs): a power-of-two array of
 * log entries and a 32-bit index that every Log increments; the entry goes to the
 * index's low bits, so the array always holds the latest entries.
 */
module PacketLogging {
  import opened Wrappers
  import opened Numerics

  datatype LogLevel = Info | Warning | Error

  datatype LogCode =
    | None
    | EngineStarted
    | EngineStopped
    | PacketProcessed
    | RecvFailed
    | SendFailed
    | InvalidPacket
    | OperationAborted
    | InvalidHandle
    | InvalidParameter

  datatype PacketLogEntry = PacketLogEntry(timestamp: int, level: LogLevel, code: LogCode, value: int)

  /** The zero-initialised entry a fresh array holds. */
  const EmptyEntry := PacketLogEntry(0, Info, LogCode.None, 0)

  /** The size a logger gets when none is given. */
  const DefaultSize := 4096

  /** Why a size is refused: the constructor's two exceptions. */
  datatype SizeError = NotPositive | NotPowerOfTwo

  /** 1, 2, 4, 8, ... */
  predicate IsPowerOfTwo(n: int)
    decreases if n > 0 then n else 0
  {
    n == 1 || (n > 1 && n % 2 == 0 && IsPowerOfTwo(n / 2))
  }

  /** The C# `&` on two non-negative integers, bit by bit from the lowest. */
  function BitAnd(a: nat, b: nat): (r: nat)
    ensures r <= a && r <= b
  {
    if a == 0 || b == 0 then 0
    else 2 * BitAnd(a / 2, b / 2) + (if a % 2 == 1 && b % 2 == 1 then 1 else 0)
  }

  /** The bits of a C# `int`, read as an unsigned number. */
  function Unsigned32(x: int): (u: nat)
    ensures u < TwoTo32 && (x - u) % TwoTo32 == 0
  {
    x % TwoTo32
  }

  /** The two checks of the constructor, in its order. */
  function SizeCheck(size: int): (e: Option<SizeError>)
    requires IsInt32(size)
  {
    if size <= 0 then Some(NotPositive)
    else if BitAnd(size, size - 1) != 0 then Some(NotPowerOfTwo)
    else Option.None
  }

  /** The constructor accepts exactly the positive powers of two. */
  lemma SizeCheckAcceptsPowersOfTwo(size: int)
    requires IsInt32(size)
    ensures SizeCheck(size).None? <==> size > 0 && IsPowerOfTwo(size)
    ensures SizeCheck(size) == Some(NotPositive) <==> size <= 0
  {
    if size > 0 {
      AndBelowIsZero(size);
    }
  }

  /** `n & (n - 1)` clears the lowest set bit, so it is zero exactly for a power of two. */
  lemma {:induction false} AndBelowIsZero(n: int)
    requires n > 0
    ensures BitAnd(n, n - 1) == 0 <==> IsPowerOfTwo(n)
    decreases n
  {
    if n == 1 {
    } else if n % 2 == 0 {
      var m := n / 2;
      assert (n - 1) / 2 == m - 1 && (n - 1) % 2 == 1;
      assert BitAnd(n, n - 1) == 2 * BitAnd(m, m - 1);
      AndBelowIsZero(m);
    } else {
      var m := n / 2;
      assert m >= 1 && (n - 1) / 2 == m && (n - 1) % 2 == 0;
      assert BitAnd(n, n - 1) == 2 * BitAnd(m, m);
      AndSelf(m);
    }
  }

  lemma {:induction false} AndSelf(a: nat)
    ensures BitAnd(a, a) == a
  {
    if a > 0 {
      AndSelf(a / 2);
    }
  }

  /** For a power of two `size`, masking with `size - 1` keeps the remainder modulo `size`. */
  lemma {:induction false} AndMaskIsModulo(i: nat, size: int)
    requires IsPowerOfTwo(size)
    ensures BitAnd(i, size - 1) == i % size
    decreases size
  {
    if size == 1 {
    } else {
      var m := size / 2;
      AndMaskIsModulo(i / 2, m);
      if i > 0 {
        assert (size - 1) / 2 == m - 1 && (size - 1) % 2 == 1;
        assert BitAnd(i, size - 1) == 2 * BitAnd(i / 2, m - 1) + i % 2;
      }
      HalveModulo(i, m);
    }
  }

  lemma HalveModulo(i: nat, m: int)
    requires m >= 1
    ensures 2 * ((i / 2) % m) + i % 2 == i % (2 * m)
  {
    var q, r := (i / 2) / m, (i / 2) % m;
    assert i / 2 == m * q + r;
    assert i == (2 * m) * q + (2 * r + i % 2);
    DivModUnique(i, 2 * m, q, 2 * r + i % 2);
  }

  /** Division with remainder has one answer. */
  lemma DivModUnique(a: int, d: int, q: int, r: int)
    requires d > 0 && a == d * q + r && 0 <= r < d
    ensures a / d == q && a % d == r
  {
    var q', r' := a / d, a % d;
    assert a == d * q' + r';
    assert d * (q' - q) == r - r';
    if q' > q {
      MulAtLeast(d, q' - q);
      assert false;
    } else if q' < q {
      MulAtLeast(d, q - q');
      assert false;
    }
  }

  lemma {:induction false} MulAtLeast(d: int, x: int)
    requires d > 0 && x >= 1
    ensures d * x >= d
    decreases x
  {
    if x > 1 {
      MulAtLeast(d, x - 1);
      assert d * x == d * (x - 1) + d;
    }
  }

  /** 2 raised to `k`. */
  function Pow2(k: nat): (p: int)
    ensures p >= 1
  {
    if k == 0 then 1 else 2 * Pow2(k - 1)
  }

  /** Doubling `k` times from 1 gives a power of two. */
  lemma {:induction false} Pow2IsPowerOfTwo(k: nat)
    ensures IsPowerOfTwo(Pow2(k))
  {
    if k > 0 {
      Pow2IsPowerOfTwo(k - 1);
      var half := Pow2(k - 1);
      assert (2 * half) % 2 == 0 && (2 * half) / 2 == half;
    }
  }

  lemma {:induction false} Pow2Add(a: nat, b: nat)
    ensures Pow2(a + b) == Pow2(a) * Pow2(b)
  {
    if a > 0 {
      Pow2Add(a - 1, b);
      assert Pow2(a + b) == 2 * Pow2(a - 1 + b);
    }
  }

  lemma {:induction false} Pow2Grows(k: nat, j: nat)
    requires k <= j
    ensures Pow2(k) <= Pow2(j)
  {
    if k < j {
      Pow2Grows(k, j - 1);
    }
  }

  /** Every power of two is 2 raised to some exponent. */
  lemma {:induction false} ExponentOf(n: int) returns (k: nat)
    requires IsPowerOfTwo(n)
    ensures Pow2(k) == n
    decreases if n > 0 then n else 0
  {
    if n == 1 {
      k := 0;
    } else {
      var j := ExponentOf(n / 2);
      k := j + 1;
    }
  }

  lemma TwoTo32IsPow2()
    ensures Pow2(32) == TwoTo32
  {
    assert Pow2(2) == 4;
    Pow2Add(2, 2);
    Pow2Add(4, 4);
    Pow2Add(8, 8);
    Pow2Add(16, 16);
  }

  /** A power of two that fits in a C# `int` has an exponent below 31. */
  lemma ExponentBelow32(k: nat)
    requires Pow2(k) <= Int32Max
    ensures k < 32 && Pow2(32) == TwoTo32
  {
    TwoTo32IsPow2();
    if k >= 32 {
      Pow2Grows(32, k);
      assert false;
    }
  }

  /** The sizes a C# `int` can hold all divide 2^32. */
  lemma DividesTwoTo32(size: int)
    requires IsPowerOfTwo(size) && size <= Int32Max
    ensures TwoTo32 % size == 0
  {
    var k := ExponentOf(size);
    ExponentBelow32(k);
    var c := Pow2(32 - k);
    Pow2Add(k, 32 - k);
    assert TwoTo32 == size * c + 0;
    DivModUnique(TwoTo32, size, c, 0);
  }

  /** Values that differ by a multiple of 2^32 fall in the same slot. */
  lemma SameSlot(x: int, y: int, size: int)
    requires size > 0 && TwoTo32 % size == 0 && (x - y) % TwoTo32 == 0
    ensures x % size == y % size
  {
    var q := (x - y) / TwoTo32;
    var k := TwoTo32 / size;
    assert x - y == TwoTo32 * q;
    assert TwoTo32 == size * k;
    assert x - y == size * (k * q);
    var c := y / size;
    assert y == size * c + y % size;
    assert x == size * (c + k * q) + y % size;
    DivModUnique(x, size, c + k * q, y % size);
  }

  /**
   * What the array holds after the entries `h` were logged, oldest first: slot `j`
   * holds the latest entry whose position is `j` modulo the size, or the empty entry.
   */
  function Window(h: seq<PacketLogEntry>, size: int): (w: seq<PacketLogEntry>)
    requires size > 0
    ensures |w| == size
  {
    if |h| == 0 then seq(size, _ => EmptyEntry)
    else Window(h[..|h| - 1], size)[(|h| - 1) % size := h[|h| - 1]]
  }

  /** The array keeps the last `size` entries, each in the slot of its position. */
  lemma {:induction false} WindowKeepsLatest(h: seq<PacketLogEntry>, size: int, t: int)
    requires size > 0 && 0 <= t < |h| && |h| - size <= t
    ensures Window(h, size)[t % size] == h[t]
  {
    if t < |h| - 1 {
      var p := h[..|h| - 1];
      WindowKeepsLatest(p, size, t);
      assert t % size != (|h| - 1) % size by {
        DistinctSlots(t, |h| - 1, size);
      }
    }
  }

  lemma DistinctSlots(a: int, b: int, size: int)
    requires size > 0 && 0 <= a < b < a + size
    ensures a % size != b % size
  {
    var qa, qb := a / size, b / size;
    assert a == size * qa + a % size && b == size * qb + b % size;
    if a % size == b % size {
      assert b - a == size * (qb - qa);
      if qb - qa >= 1 {
        MulAtLeast(size, qb - qa);
      } else if qb < qa {
        MulAtLeast(size, qa - qb);
      }
      assert false;
    }
  }

  /** Slots no entry reached yet still hold the empty entry. */
  lemma {:induction false} WindowUnwritten(h: seq<PacketLogEntry>, size: int, j: int)
    requires size > 0 && |h| <= j < size
    ensures Window(h, size)[j] == EmptyEntry
  {
    if |h| > 0 {
      WindowUnwritten(h[..|h| - 1], size, j);
      DivModUnique(|h| - 1, size, 0, |h| - 1);
    }
  }

  /** The slot `index & mask` of the C# code, for a mask one less than a power of two. */
  function Slot(index: int, mask: int): (k: int)
    requires IsPowerOfTwo(mask + 1) && mask + 1 <= Int32Max
    ensures k == index % (mask + 1)
  {
    DividesTwoTo32(mask + 1);
    SameSlot(index, Unsigned32(index), mask + 1);
    AndMaskIsModulo(Unsigned32(index), mask + 1);
    BitAnd(Unsigned32(index), mask)
  }

  /** Incrementing a wrapped count gives the wrapped successor. */
  lemma NextIndex(n: int)
    ensures ToInt32(ToInt32(n - 1) + 1) == ToInt32(n)
  {
  }

  /** The wrapped count lands in the same slot as the count itself. */
  lemma SlotOfCount(n: int, size: int)
    requires IsPowerOfTwo(size) && size <= Int32Max
    ensures ToInt32(n) % size == n % size
  {
    DividesTwoTo32(size);
    SameSlot(ToInt32(n), n, size);
  }

  /** Logging one more entry writes exactly its own slot. */
  lemma LogStep(h: seq<PacketLogEntry>, e: PacketLogEntry, size: int)
    requires size > 0
    ensures Window(h + [e], size) == Window(h, size)[|h| % size := e]
  {
    assert (h + [e])[..|h|] == h;
  }

  class RingBufferPacketLogger {
    const buffer: array<PacketLogEntry>
    const mask: int
    var index: int
    /** Every entry logged so far, oldest first. */
    ghost var history: seq<PacketLogEntry>

    /**
     * The size is a power of two, the mask is one less, the index counts the
     * entries (wrapping like a C# `int`, from -1 for none) and the array is the
     * window of the history.
     */
    ghost predicate Valid()
      reads this, buffer
    {
      IsPowerOfTwo(buffer.Length) && buffer.Length <= Int32Max
      && mask == buffer.Length - 1
      && index == ToInt32(|history| - 1)
      && buffer[..] == Window(history, buffer.Length)
    }

    /** The logger once both size checks have passed. */
    constructor (size: int)
      requires IsInt32(size) && SizeCheck(size).None?
      ensures Valid() && fresh(buffer)
      ensures buffer.Length == size && mask == size - 1 && index == -1 && history == []
    {
      SizeCheckAcceptsPowersOfTwo(size);
      buffer := new PacketLogEntry[size](_ => EmptyEntry);
      mask := size - 1;
      index := -1;
      history := [];
      new;
      assert buffer[..] == Window([], size);
    }

    /** The C# constructor: a size that is not positive or not a power of two is refused. */
    static method Create(size: int) returns (r: Result<RingBufferPacketLogger, SizeError>)
      requires IsInt32(size)
      ensures r.Failure? <==> SizeCheck(size).Some?
      ensures r.Failure? ==> r.error == SizeCheck(size).value
      ensures r.Failure? ==> (r.error == NotPositive <==> size <= 0)
      ensures r.Success? ==>
        var l := r.value;
        fresh(l) && fresh(l.buffer) && l.Valid() && l.buffer.Length == size && l.index == -1 && l.history == []
    {
      SizeCheckAcceptsPowersOfTwo(size);
      var e := SizeCheck(size);
      if e.Some? {
        return Failure(e.value);
      }
      var l := new RingBufferPacketLogger(size);
      return Success(l);
    }

    /** The C# constructor called without a size: a logger of `DefaultSize` entries. */
    static method CreateDefault() returns (l: RingBufferPacketLogger)
      ensures fresh(l) && fresh(l.buffer) && l.Valid()
      ensures l.buffer.Length == DefaultSize && l.index == -1 && l.history == []
    {
      assert IsPowerOfTwo(1) && IsPowerOfTwo(2) && IsPowerOfTwo(4) && IsPowerOfTwo(8);
      assert IsPowerOfTwo(16) && IsPowerOfTwo(32) && IsPowerOfTwo(64) && IsPowerOfTwo(128);
      assert IsPowerOfTwo(256) && IsPowerOfTwo(512) && IsPowerOfTwo(1024) && IsPowerOfTwo(2048);
      assert IsPowerOfTwo(DefaultSize);
      SizeCheckAcceptsPowersOfTwo(DefaultSize);
      l := new RingBufferPacketLogger(DefaultSize);
    }

    /** Stores the entry in the slot after the previous one, overwriting the oldest. */
    method Log(entry: PacketLogEntry)
      requires Valid()
      modifies this, buffer
      ensures Valid() && history == old(history) + [entry]
      ensures buffer[..] == old(buffer[..])[(|history| - 1) % buffer.Length := entry]
    {
      var i := ToInt32(index + 1);
      NextIndex(|history|);
      var slot := Slot(i, mask);
      SlotOfCount(|history|, buffer.Length);
      buffer[slot] := entry;
      index := i;
      LogStep(history, entry, buffer.Length);
      history := history + [entry];
    }

    /** A copy of the array, sharing nothing with the logger. */
    method Snapshot() returns (copy: array<PacketLogEntry>)
      requires Valid()
      ensures fresh(copy) && copy[..] == buffer[..] == Window(history, buffer.Length)
    {
      copy := new PacketLogEntry[buffer.Length](i requires 0 <= i < buffer.Length reads buffer => buffer[i]);
    }
  }

  /** After any run of Log calls the logger holds the last `size` entries in order of their slots. */
  lemma LoggerKeepsLatest(l: RingBufferPacketLogger, t: int)
    requires l.Valid() && 0 <= t < |l.history| && |l.history| - l.buffer.Length <= t
    ensures l.buffer[t % l.buffer.Length] == l.history[t]
  {
    WindowKeepsLatest(l.history, l.buffer.Length, t);
  }
}
