/** The per-lidar ring of frames with free-running 32-bit indices (src/comm/ldq.h, src/comm/ldq.cpp)
    and its use in PushLidarData (src/lds.cpp). */
module RingQueue {
  import opened Arithmetic
  import opened Frames

  type Uint32 = x: int | 0 <= x < 0x1_0000_0000

  predicate IsPowerOf2(size: Uint32) {
    size != 0 && And(size, size - 1) == 0
  }

  lemma IsPowerOf2Exactly(size: Uint32)
    ensures IsPowerOf2(size) <==> IsPow2(size)
  {
    if size > 0 {
      AndPredecessor(size);
    }
  }

  lemma Exponent31(k: nat)
    requires k <= 31
    ensures Pow2(k) <= 0x8000_0000
  {
    Pow2Of32();
    if k < 31 {
      Pow2Monotone(k, 31);
    }
  }

  /** The least power of two that is not below `size`, if there is one in 32 bits. */
  method RoundupPowerOf2(size: Uint32) returns (power: Uint32, ghost exponent: nat)
    ensures exponent <= 31 && power == Pow2(exponent)
    ensures size <= 0x8000_0000 ==> size <= power
    ensures size <= 0x8000_0000 ==> forall k: nat :: size <= Pow2(k) ==> power <= Pow2(k)
    ensures size > 0x8000_0000 ==> power == 0x8000_0000
  {
    Pow2Of32();
    power := 0;
    var shift: Uint32 := 1;
    exponent := 0;
    var i := 0;
    while i < 32
      invariant 0 <= i <= 32
      invariant i < 32 ==> shift == Pow2(i)
      invariant i > 0 ==> exponent == i - 1 && power == Pow2(exponent) && power < size
    {
      power := shift;
      exponent := i;
      if size <= power {
        NoneSmaller(size, i);
        Exponent31(i);
        return;
      }
      i := i + 1;
      if i < 32 {
        Pow2Monotone(i - 1, 31);
        shift := 2 * shift;
      }
    }
  }

  lemma NoneSmaller(size: Uint32, i: nat)
    requires i > 0 ==> Pow2(i - 1) < size
    ensures forall k: nat :: size <= Pow2(k) ==> Pow2(i) <= Pow2(k)
  {
    forall k: nat | size <= Pow2(k)
      ensures Pow2(i) <= Pow2(k)
    {
      if k < i - 1 {
        Pow2Monotone(k, i - 1);
      } else if i < k {
        Pow2Monotone(i, k);
      }
    }
  }

  /* ---- the index arithmetic ---- */

  /** What an unbounded count shows in 32 bits. */
  function Low(n: nat): Uint32 {
    n % TWO_32
  }

  /** Unsigned subtraction. */
  function Minus(a: Uint32, b: Uint32): Uint32 {
    if a >= b then a - b else a - b + 0x1_0000_0000
  }

  function Next(a: Uint32): Uint32 {
    if a == 0xFFFF_FFFF then 0 else a + 1
  }

  lemma NextLow(n: nat)
    ensures Next(Low(n)) == Low(n + 1)
  {
  }

  /** The difference of the indices is the number of frames, however often they have wrapped. */
  lemma UsedSize(read: nat, wrote: nat)
    requires read <= wrote < read + TWO_32
    ensures Minus(Low(wrote), Low(read)) == wrote - read
  {
  }

  lemma EmptyExactly(read: nat, wrote: nat)
    requires read <= wrote < read + TWO_32
    ensures Low(wrote) == Low(read) <==> wrote == read
  {
    UsedSize(read, wrote);
  }

  /** The slot of the n-th frame. */
  function Slot(n: nat, k: nat): (i: nat)
    ensures i < Pow2(k)
  {
    n % Pow2(k)
  }

  lemma MaskedIndex(n: nat, k: nat)
    requires k <= 31
    ensures And(Low(n), Pow2(k) - 1) == Slot(n, k)
  {
    AndMask(Low(n), k);
    LowBits(n, k);
  }

  /** The frames with numbers `read` to `wrote` in the ring. */
  function Window(ring: seq<Frame>, k: nat, read: nat, wrote: nat): (w: seq<Frame>)
    requires |ring| == Pow2(k) && read <= wrote
    ensures |w| == wrote - read
    ensures forall i :: 0 <= i < |w| ==> w[i] == ring[Slot(read + i, k)]
  {
    seq(wrote - read, i requires 0 <= i => ring[Slot(read + i, k)])
  }

  lemma WindowPush(ring: seq<Frame>, k: nat, read: nat, wrote: nat, f: Frame)
    requires |ring| == Pow2(k) && read <= wrote < read + Pow2(k)
    ensures Window(ring[Slot(wrote, k) := f], k, read, wrote + 1) == Window(ring, k, read, wrote) + [f]
  {
    var before, after := Window(ring, k, read, wrote), Window(ring[Slot(wrote, k) := f], k, read, wrote + 1);
    forall i | 0 <= i < wrote - read
      ensures after[i] == before[i]
    {
      SlotsDiffer(read + i, wrote, k);
    }
    hide Slot;
    assert after[wrote - read] == f by {
      assert read + (wrote - read) == wrote;
    }
  }

  lemma SlotsDiffer(a: nat, b: nat, k: nat)
    requires a < b < a + Pow2(k)
    ensures Slot(a, k) != Slot(b, k)
  {
    ModDistinct(a, b, Pow2(k));
  }

  lemma WindowPop(ring: seq<Frame>, k: nat, read: nat, wrote: nat)
    requires |ring| == Pow2(k) && read < wrote
    ensures Window(ring, k, read, wrote)[0] == ring[Slot(read, k)]
    ensures Window(ring, k, read + 1, wrote) == Window(ring, k, read, wrote)[1..]
  {
    hide Slot;
    forall i | 0 <= i < wrote - read - 1
      ensures Window(ring, k, read + 1, wrote)[i] == Window(ring, k, read, wrote)[1..][i]
    {
      assert read + 1 + i == read + (1 + i);
    }
    assert read + 0 == read;
  }

  /** The queue. `read` and `wrote` count all frames ever taken and put. */
  class LidarDataQueue {
    var storage: array?<Frame>
    var rd: Uint32
    var wr: Uint32
    var mask: Uint32
    var size: Uint32
    ghost var read: nat
    ghost var wrote: nat
    ghost var exponent: nat

    ghost predicate Valid()
      reads this, storage
    {
      && storage != null && exponent <= 31
      && size == Pow2(exponent) == storage.Length && mask == size - 1
      && read <= wrote <= read + size
      && rd == Low(read) && wr == Low(wrote)
    }

    ghost function Contents(): seq<Frame>
      requires Valid()
      reads this, storage
    {
      Window(storage[..], exponent, read, wrote)
    }

    constructor ()
      ensures storage == null
    {
      storage, rd, wr, mask, size := null, 0, 0, 0, 0;
    }

    /** Makes the queue ready, with room for a power of two of frames. */
    method InitQueue(queueSize: Uint32)
      modifies this
      ensures Valid() && fresh(storage) && Contents() == []
      ensures IsPow2(queueSize) ==> size == queueSize
      ensures queueSize <= 0x8000_0000 ==> size >= queueSize
      ensures queueSize <= 0x8000_0000 ==> forall k: nat :: queueSize <= Pow2(k) ==> size <= Pow2(k)
      ensures queueSize > 0x8000_0000 ==> size == 0x8000_0000
    {
      IsPowerOf2Exactly(queueSize);
      var power := queueSize;
      if !IsPowerOf2(queueSize) {
        power, exponent := RoundupPowerOf2(queueSize);
      } else {
        exponent := Exponent(queueSize);
      }
      Exponent31(exponent);
      storage := new Frame[power](_ => Frame(0, []));
      rd, wr, size, mask := 0, 0, power, power - 1;
      read, wrote := 0, 0;
    }

    predicate IsEmpty()
      requires Valid()
      reads this, storage
      ensures IsEmpty() <==> Contents() == []
    {
      Exponent31(exponent);
      EmptyExactly(read, wrote);
      rd == wr
    }

    predicate IsFull()
      requires Valid()
      reads this, storage
      ensures |Contents()| <= size && (IsFull() <==> |Contents()| == size)
    {
      Exponent31(exponent);
      UsedSize(read, wrote);
      Minus(wr, rd) > mask
    }

    function Used(): (n: Uint32)
      requires Valid()
      reads this, storage
      ensures n == |Contents()|
    {
      Exponent31(exponent);
      UsedSize(read, wrote);
      Minus(wr, rd)
    }

    method PrePop() returns (ok: bool, frame: Frame)
      requires Valid()
      ensures ok <==> Contents() != []
      ensures ok ==> frame == Contents()[0]
    {
      frame := Frame(0, []);
      if IsEmpty() {
        return false, frame;
      }
      MaskedIndex(read, exponent);
      WindowPop(storage[..], exponent, read, wrote);
      frame := storage[And(rd, mask)];
      ok := true;
    }

    method Pop() returns (ok: bool, frame: Frame)
      requires Valid()
      modifies this`rd, this`read
      ensures Valid()
      ensures ok <==> old(Contents()) != []
      ensures ok ==> old(Contents()) == [frame] + Contents()
      ensures !ok ==> Contents() == old(Contents())
    {
      ok, frame := PrePop();
      if ok {
        NextLow(read);
        WindowPop(storage[..], exponent, read, wrote);
        rd := Next(rd);
        read := read + 1;
      }
    }

    /** The caller has checked that the queue is not full. */
    method PushAny(frame: Frame)
      requires Valid() && |Contents()| < size
      modifies this`wr, this`wrote, storage
      ensures Valid() && Contents() == old(Contents()) + [frame]
    {
      MaskedIndex(wrote, exponent);
      WindowPush(storage[..], exponent, read, wrote, frame);
      NextLow(wrote);
      storage[And(wr, mask)] := frame;
      wr := Next(wr);
      wrote := wrote + 1;
    }
  }

  ghost function Exponent(size: Uint32): (k: nat)
    requires IsPow2(size)
    ensures size == Pow2(k) && k <= 31
  {
    var k: nat :| size == Pow2(k);
    ExponentBound(size, k);
    k
  }

  lemma ExponentBound(size: Uint32, k: nat)
    requires size == Pow2(k)
    ensures k <= 31
  {
    Pow2Of32();
    if k > 32 {
      Pow2Monotone(32, k);
    }
  }
}
