/** Sizing the kernel's page hash table: memory is rounded up to a power of two
    with two 32-bit leading-zero counts, then scaled in 32-bit arithmetic. */
module HashTableSize {
  import opened Division
  import opened Powers

  type UInt32 = n: int | 0 <= n < 0x1_0000_0000
  type UInt64 = n: int | 0 <= n < 0x1_0000_0000_0000_0000

  const PTEG_SIZE_G4: int := 64
  const PTEG_SIZE_G5: int := 128
  const MINIMUM := 256 * 1024

  function U32(x: int): UInt32 {
    x % 0x1_0000_0000
  }

  function U64(x: int): UInt64 {
    x % 0x1_0000_0000_0000_0000
  }

  /** Significant bits. */
  function Bits(x: nat): nat {
    if x == 0 then 0 else 1 + Bits(x / 2)
  }

  lemma {:induction false} BitsBound(x: nat, b: nat)
    requires x < Pow2(b)
    ensures Bits(x) <= b
    decreases b
  {
    if x > 0 {
      BitsBound(x / 2, b - 1);
    }
  }

  lemma {:induction false} BitsRange(x: nat)
    requires x > 0
    ensures Bits(x) >= 1 && Pow2(Bits(x) - 1) <= x < Pow2(Bits(x))
    decreases x
  {
    if x > 1 {
      BitsRange(x / 2);
    }
  }

  /** Halving a number in two parts halves the lower. */
  lemma HalvesLow(x: nat, p: nat, high: nat, low: nat)
    requires x == high * (2 * p) + low
    ensures x / 2 == high * p + low / 2
  {
    Associates(high, 2, p);
    assert high * (2 * p) == 2 * (high * p) by { Associates(2, high, p); }
    var rest := high * p;
    assert x == 2 * rest + low;
  }

  /** The bits of a number in two parts, the lower of k bits. */
  lemma {:induction false} BitsSplit(x: nat, k: nat, high: nat, low: nat)
    requires x == high * Pow2(k) + low && low < Pow2(k)
    ensures Bits(x) == if high == 0 then Bits(low) else k + Bits(high)
    decreases k
  {
    if high == 0 {
      assert x == low;
    } else if k == 0 {
      assert x == high;
    } else {
      HalvesLow(x, Pow2(k - 1), high, low);
      BitsSplit(x / 2, k - 1, high, low / 2);
      MultipleExceeds(high, Pow2(k));
      assert Bits(x) == 1 + Bits(x / 2);
    }
  }

  lemma Constants()
    ensures Pow2(6) == PTEG_SIZE_G4 && Pow2(7) == PTEG_SIZE_G5
    ensures Pow2(13) == 0x2000 && Pow2(18) == MINIMUM && Pow2(24) == 0x100_0000 && Pow2(32) == 0x1_0000_0000
  {
    assert Pow2(2) == 4 && Pow2(4) == 16;
    Pow2Adds(4, 2);
    Pow2Adds(4, 4);
    hide Pow2;
    Pow2Adds(6, 1 + 6);
    Pow2Adds(8, 8);
    Pow2Adds(16, 2);
    Pow2Adds(16, 8);
    Pow2Adds(16, 16);
    PowersOfTwo();
  }

  lemma PowersOfTwo()
    ensures Pow2(2) == 4 && Pow2(5) == 32 && Pow2(6) == 64 && Pow2(7) == 128 && Pow2(8) == 256
  {
  }

  lemma Constants64()
    ensures Pow2(37) == 0x20_0000_0000 && Pow2(63) == 0x8000_0000_0000_0000 && Pow2(64) == 0x1_0000_0000_0000_0000
  {
    Constants();
    PowersOfTwo();
    assert Pow2(64) == 2 * Pow2(63);
    hide Pow2;
    Pow2Adds(32, 5);
    Pow2Adds(32, 32);
  }

  /** The machine instruction: leading zeros of a 32-bit word. */
  function Cntlzw(num: UInt32): nat {
    Constants();
    BitsBound(num, 32);
    32 - Bits(num)
  }

  // ----- the size, in exponents -----

  /** The exponent of the memory size as rounded by the two counts. */
  function RoundedExponent(msize: UInt64): nat {
    var b := Bits(U64(2 * msize as int - 1));
    if b == 0 then 0 else b - 1
  }

  /** The size for memory of 2^t bytes and page table groups of 2^p bytes: one
      half of one group per two pages, shifted; memory counts up to 2^37 bytes, and
      a size that does not fit 32 bits or is too small becomes the minimum. */
  function TableSize(t: nat, p: nat, shift: int): UInt32 {
    var x := (if t < 37 then t else 37) - 14 + p + shift;
    if t >= 13 && 18 <= x < 32 then Fits32(x); Pow2(x) else MINIMUM
  }

  lemma Fits32(x: nat)
    requires x < 32
    ensures Pow2(x) < 0x1_0000_0000
  {
    Constants();
    Pow2Grows(x, 32);
  }

  lemma CountsBits(v: UInt64)
    requires v > 0
    ensures var high, low := v / 0x1_0000_0000, U32(v);
      (if Cntlzw(high) == 32 then 32 + Cntlzw(low) else Cntlzw(high)) == 64 - Bits(v)
  {
    Constants();
    BitsSplit(v, 32, v / 0x1_0000_0000, U32(v));
    if v / 0x1_0000_0000 > 0 {
      BitsRange(v / 0x1_0000_0000);
    }
  }

  lemma Odd(msize: UInt64)
    ensures U64(2 * msize as int - 1) > 0
    ensures U64(U64(msize as int * 2) as int - 1) == U64(2 * msize as int - 1)
  {
  }

  lemma Rounds(msize: UInt64, nbits: nat)
    requires nbits == 64 - Bits(U64(2 * msize as int - 1))
    ensures 0x8000_0000_0000_0000 / Pow2(nbits) == Pow2(RoundedExponent(msize))
    ensures RoundedExponent(msize) <= 63
  {
    Odd(msize);
    Constants64();
    BitsRange(U64(2 * msize as int - 1));
    BitsBound(U64(2 * msize as int - 1), 64);
    Pow2Divides(63, nbits);
  }

  /** The 32-bit product does not wrap. */
  lemma Scales(t: nat, p: nat)
    requires t <= 37 && (p == 6 || p == 7)
    ensures var pages := Pow2(t) / Pow2(13);
      && pages <= 0x100_0000 && pages * Pow2(p) < 0x1_0000_0000
      && pages * Pow2(p) / 2 == if t >= 13 then Pow2(t - 14 + p) else 0
  {
    Constants();
    Pow2Divides(t, 13);
    if t >= 13 {
      if t < 37 {
        Pow2Grows(t - 13, 24);
      }
      Pow2Adds(t - 13, p);
      Fits32(t - 13 + p);
    }
  }

  lemma Shifts(x: nat, shift: int)
    requires x < 32 && -32 < shift < 32
    ensures shift >= 0 ==> U32(Pow2(x) * Pow2(shift)) == if x + shift < 32 then Pow2(x + shift) else 0
    ensures shift < 0 ==> Pow2(x) / Pow2(-shift) == if x + shift >= 0 then Pow2(x + shift) else 0
  {
    Constants();
    if shift >= 0 {
      Pow2Adds(x, shift);
      Pow2Divides(x + shift, 32);
    } else {
      Pow2Divides(x, -shift);
    }
  }

  lemma Clamps(x: int)
    ensures x >= 0 ==> (Pow2(x) < MINIMUM <==> x < 18)
  {
    Constants();
    if 0 <= x < 18 {
      Pow2Grows(x, 18);
    } else if x > 18 {
      Pow2Grows(18, x);
    }
  }

  /** Memory size rounded up, by the position of the leading one bit. */
  method RoundMemory(msize: UInt64) returns (tmemsize: int)
    ensures tmemsize == Pow2(RoundedExponent(msize)) && RoundedExponent(msize) <= 63
  {
    Odd(msize);
    CountsBits(U64(2 * msize as int - 1));
    hide Bits, RoundedExponent, U64, Pow2;
    var nbits := Cntlzw(U64(U64(msize as int * 2) as int - 1) / 0x1_0000_0000);
    if nbits == 32 {
      nbits := nbits + Cntlzw(U32(U64(U64(msize as int * 2) as int - 1)));
    }
    Rounds(msize, nbits);
    tmemsize := 0x8000_0000_0000_0000 / Pow2(nbits);
  }

  lemma ClampsMemory(t: nat)
    ensures (if Pow2(t) > 0x20_0000_0000 then 0x20_0000_0000 else Pow2(t)) == Pow2(if t < 37 then t else 37)
  {
    Constants64();
    if t < 37 {
      Pow2Grows(t, 37);
    } else if t > 37 {
      Pow2Grows(37, t);
    }
  }

  /** Half of one page table group of this size per two pages, of memory counted
      up to 2^37 bytes, made so many times bigger or smaller. */
  function Wanted(memory: int, pfPTEG: int, shift: int): int
    requires memory >= 0
  {
    var counted := if memory < 0x20_0000_0000 then memory else 0x20_0000_0000;
    var size := counted / 0x2000 * pfPTEG / 2;
    if shift >= 0 then size * Pow2(shift) else size / Pow2(-shift)
  }

  lemma CountedIs(t: nat)
    ensures (if Pow2(t) < 0x20_0000_0000 then Pow2(t) else 0x20_0000_0000) == Pow2(if t < 37 then t else 37)
  {
    ClampsMemory(t);
  }

  lemma WantedIs(t: nat, p: nat, shift: int)
    requires (p == 6 || p == 7) && -32 < shift < 32
    ensures var x := (if t < 37 then t else 37) - 14 + p + shift;
      Wanted(Pow2(t), Pow2(p), shift) == if t >= 13 && x >= 0 then Pow2(x) else 0
  {
    var t' := if t < 37 then t else 37;
    CountedIs(t);
    Constants();
    hide Pow2;
    Scales(t', p);
    if t' >= 13 {
      if shift >= 0 {
        Pow2Adds(t' - 14 + p, shift);
      } else {
        Pow2Divides(t' - 14 + p, -shift);
      }
    } else if shift < 0 {
      NothingLeft(Pow2(-shift));
    }
  }

  /** Exactly the powers of two from 2^18 to 2^31 are sizes that can be used. */
  lemma Usable(x: nat)
    ensures MINIMUM <= Pow2(x) < 0x1_0000_0000 <==> 18 <= x < 32
  {
    Constants();
    Clamps(x);
    if x < 32 {
      Pow2Grows(x, 32);
    } else if x > 32 {
      Pow2Grows(32, x);
    }
  }

  /** The size is what is wanted if that is at least 256 KB and fits 32 bits, and
      256 KB otherwise. */
  lemma SizeAsWanted(t: nat, p: nat, shift: int)
    requires (p == 6 || p == 7) && -32 < shift < 32
    ensures var wanted := Wanted(Pow2(t), Pow2(p), shift);
      TableSize(t, p, shift) == if MINIMUM <= wanted < 0x1_0000_0000 then wanted else MINIMUM
  {
    hide Pow2, Wanted;
    var x := (if t < 37 then t else 37) - 14 + p + shift;
    WantedIs(t, p, shift);
    if x >= 0 {
      Usable(x);
    }
  }

  method CalculateHashTableSize(msize: UInt64, pfPTEG: int, hashTableShift: int) returns (hashTableSize: UInt32)
    requires pfPTEG == PTEG_SIZE_G4 || pfPTEG == PTEG_SIZE_G5
    requires -32 < hashTableShift < 32
    ensures hashTableSize == TableSize(RoundedExponent(msize), if pfPTEG == PTEG_SIZE_G4 then 6 else 7, hashTableShift)
    ensures var wanted := Wanted(Pow2(RoundedExponent(msize)), pfPTEG, hashTableShift);
      hashTableSize == if MINIMUM <= wanted < 0x1_0000_0000 then wanted else MINIMUM
  {
    ghost var p, t := if pfPTEG == PTEG_SIZE_G4 then 6 else 7, RoundedExponent(msize);
    ghost var t' := if t < 37 then t else 37;
    hide RoundedExponent, Pow2, Wanted;
    Constants();
    SizeAsWanted(t, p, hashTableShift);
    var tmemsize := RoundMemory(msize);
    ClampsMemory(t);
    if tmemsize > 0x20_0000_0000 {
      tmemsize := 0x20_0000_0000;
    }
    hashTableSize := HalfGroups(tmemsize, pfPTEG, t', p);
    hashTableSize := ApplyShift(hashTableSize, hashTableShift, t' >= 13, t' as int - 14 + p);
    if hashTableSize < MINIMUM {
      hashTableSize := MINIMUM;
    }
  }

  /** Half of one page table group per two pages; the product does not wrap. */
  method HalfGroups(tmemsize: int, pfPTEG: int, ghost t: nat, ghost p: nat) returns (size: UInt32)
    requires t <= 37 && tmemsize == Pow2(t) && (p == 6 || p == 7)
    requires pfPTEG == if p == 6 then PTEG_SIZE_G4 else PTEG_SIZE_G5
    ensures if t >= 13 then size == Pow2(t - 14 + p) && t - 14 + p < 32 else size == 0
  {
    hide Pow2;
    Constants();
    Scales(t, p);
    size := U32(U32(tmemsize / Pow2(13)) as int * pfPTEG);
    size := size / 2;
  }

  /** A shift of a power of two, or of nothing, in 32 bits. */
  method ApplyShift(base: UInt32, shift: int, ghost some: bool, ghost x: int) returns (size: UInt32)
    requires -32 < shift < 32
    requires if some then 0 <= x < 32 && base == Pow2(x) else base == 0
    ensures some && 18 <= x + shift < 32 ==> size == Pow2(x + shift) && size >= MINIMUM
    ensures !(some && 18 <= x + shift < 32) ==> size < MINIMUM
  {
    hide Pow2;
    if some {
      Shifts(x, shift);
      Clamps(x + shift);
    }
    if shift >= 0 {
      size := U32(base as int * Pow2(shift));
    } else {
      NothingLeft(Pow2(-shift));
      size := base / Pow2(-shift);
    }
  }

  lemma NothingLeft(d: int)
    requires d > 0
    ensures 0 / d == 0
  {
  }

  // ----- what the size is good for -----

  /** 2^e is the least power of two that is at least m. */
  predicate IsLeastPower(e: nat, m: int) {
    m <= Pow2(e) && (e > 0 ==> Pow2(e - 1) < m)
  }

  lemma RoundsUpInRange(msize: UInt64)
    requires 1 <= msize <= 0x8000_0000_0000_0000
    ensures IsLeastPower(RoundedExponent(msize), msize)
  {
    var v := 2 * msize as int - 1;
    assert U64(v) == v;
    BitsRange(v);
    var b := Bits(v);
    assert Pow2(b) == 2 * Pow2(b - 1);
    if b > 1 {
      assert Pow2(b - 1) == 2 * Pow2(b - 2);
    }
  }

  lemma RoundsZero(msize: UInt64)
    requires msize == 0
    ensures !IsLeastPower(RoundedExponent(msize), msize)
  {
    var v := U64(2 * msize as int - 1);
    assert v > 2 && Pow2(1) == 2;
    BitsRange(v);
  }

  lemma RoundsHuge(msize: UInt64)
    requires msize > 0x8000_0000_0000_0000
    ensures !IsLeastPower(RoundedExponent(msize), msize)
  {
    var v := U64(2 * msize as int - 1);
    Odd(msize);
    Constants64();
    BitsRange(v);
    BitsBound(v, 64);
    var b := Bits(v);
    if b < 64 {
      Pow2Grows(b - 1, 63);
    }
  }

  /** The two counts round memory up to the next power of two exactly when there
      is memory, and no more than 2^63 bytes of it. */
  lemma RoundsUp(msize: UInt64)
    ensures IsLeastPower(RoundedExponent(msize), msize) <==> 1 <= msize <= 0x8000_0000_0000_0000
  {
    hide IsLeastPower, RoundedExponent;
    if msize == 0 {
      RoundsZero(msize);
    } else if msize <= 0x8000_0000_0000_0000 {
      RoundsUpInRange(msize);
    } else {
      RoundsHuge(msize);
    }
  }

  /** Whatever the memory and the shift, the size is a power of two and at least
      the minimum. */
  lemma SizeIsPower(t: nat, p: nat, shift: int) returns (e: nat)
    ensures TableSize(t, p, shift) == Pow2(e) && 18 <= e < 32
    ensures TableSize(t, p, shift) >= MINIMUM
  {
    Constants();
    var x := (if t < 37 then t else 37) - 14 + p + shift;
    e := if t >= 13 && 18 <= x < 32 then x else 18;
    Clamps(e);
  }

  /** The size for a memory size in bytes. */
  function SizeFor(msize: UInt64, p: nat, shift: int): UInt32 {
    TableSize(RoundedExponent(msize), p, shift)
  }

  /** The same from the memory size: of the 2^e bytes it is rounded up to. */
  lemma SizeOfMemory(msize: UInt64, e: nat, p: nat, shift: int)
    requires 1 <= msize <= 0x8000_0000_0000_0000 && IsLeastPower(e, msize)
    requires (p == 6 || p == 7) && -32 < shift < 32
    ensures var wanted := Wanted(Pow2(e), Pow2(p), shift);
      SizeFor(msize, p, shift) == if MINIMUM <= wanted < 0x1_0000_0000 then wanted else MINIMUM
  {
    hide Wanted, TableSize, RoundedExponent;
    RoundsUp(msize);
    LeastPowersAgree(e, msize, RoundedExponent(msize), msize);
    LeastPowersAgree(RoundedExponent(msize), msize, e, msize);
    SizeAsWanted(e, p, shift);
  }

  /** No memory counts as 2^63 bytes, and more than that as what exceeds it. */
  lemma RoundsOutside(msize: UInt64)
    ensures msize == 0 ==> RoundedExponent(msize) == 63
    ensures msize > 0x8000_0000_0000_0000 ==>
      RoundedExponent(msize) == RoundedExponent(msize - 0x8000_0000_0000_0000)
  {
    if msize == 0 {
      var v := 0xffff_ffff_ffff_ffff;
      assert U64(2 * msize as int - 1) == v;
      Constants64();
      BitsRange(v);
      BitsBound(v, 64);
      if Bits(v) < 64 {
        hide Bits;
        Pow2Grows(Bits(v), 64);
      }
    } else if msize > 0x8000_0000_0000_0000 {
      assert U64(2 * msize as int - 1) == U64(2 * (msize as int - 0x8000_0000_0000_0000) - 1);
    }
  }

  /** main's own call: of 1024 MB, 8 MB. */
  lemma SizeOfOneGigabyte()
    ensures SizeFor(1024 * 1024 * 1024, 7, 0) == 8388608
  {
    hide RoundedExponent;
    Constants();
    PowersOfTwo();
    Pow2Adds(24, 6);
    assert Pow2(0) == 1 && Pow2(30) == 1024 * 1024 * 1024 && Pow2(30) == 2 * Pow2(29);
    SizeOfMemory(1024 * 1024 * 1024, 30, 7, 0);
  }

  ghost predicate Monotone(p: nat, shift: int) {
    forall m: UInt64, m': UInt64 :: 1 <= m <= m' <= 0x8000_0000_0000_0000 ==> SizeFor(m, p, shift) <= SizeFor(m', p, shift)
  }

  /** More memory never gives a smaller table, exactly when no memory size makes
      the shifted size overflow 32 bits while another fills its top bit. */
  lemma SizeIsMonotone(p: nat, shift: int)
    requires (p == 6 || p == 7) && -32 < shift < 32
    ensures Monotone(p, shift) <==> !(9 - p <= shift <= 32 - p)
  {
    hide RoundedExponent, Pow2;
    if 9 - p <= shift <= 32 - p {
      var t := 45 - p - shift;
      Constants64();
      RoundsPower(t);
      RoundsPower(63);
      Pow2Grows(t, 63);
      Pow2Grows(18, 31);
      Constants();
      assert SizeFor(Pow2(t), p, shift) == Pow2(31) && SizeFor(Pow2(63), p, shift) == MINIMUM;
    } else {
      forall m: UInt64, m': UInt64 | 1 <= m <= m' <= 0x8000_0000_0000_0000
        ensures SizeFor(m, p, shift) <= SizeFor(m', p, shift)
      {
        RoundsInOrder(m, m');
        OrdersSizes(RoundedExponent(m), RoundedExponent(m'), p, shift);
      }
    }
  }

  lemma OrdersSizes(t: nat, t': nat, p: nat, shift: int)
    requires t <= t' && (p == 6 || p == 7) && !(9 - p <= shift <= 32 - p)
    ensures TableSize(t, p, shift) <= TableSize(t', p, shift)
  {
    var e := SizeIsPower(t, p, shift);
    var e' := SizeIsPower(t', p, shift);
    var x := (if t < 37 then t else 37) - 14 + p + shift;
    var x' := (if t' < 37 then t' else 37) - 14 + p + shift;
    if t >= 13 && 18 <= x < 32 {
      assert x' < 32;
      if x < x' {
        Pow2Grows(x, x');
      }
    }
  }

  lemma LeastPowersAgree(e: nat, m: int, e': nat, m': int)
    requires IsLeastPower(e, m) && IsLeastPower(e', m') && m <= m'
    ensures e <= e'
  {
    if e' < e - 1 {
      Pow2Grows(e', e - 1);
    }
  }

  lemma RoundsPower(t: nat)
    requires t <= 63
    ensures 1 <= Pow2(t) <= 0x8000_0000_0000_0000 && RoundedExponent(Pow2(t)) == t
  {
    Constants64();
    if t < 63 {
      Pow2Grows(t, 63);
    }
    RoundsUp(Pow2(t));
    hide RoundedExponent;
    LeastPowersAgree(RoundedExponent(Pow2(t)), Pow2(t), t, Pow2(t));
    LeastPowersAgree(t, Pow2(t), RoundedExponent(Pow2(t)), Pow2(t));
  }

  /** Memory sizes in order are rounded to exponents in order. */
  lemma RoundsInOrder(m: UInt64, m': UInt64)
    requires 1 <= m <= m' <= 0x8000_0000_0000_0000
    ensures RoundedExponent(m) <= RoundedExponent(m')
  {
    RoundsUp(m);
    RoundsUp(m');
    LeastPowersAgree(RoundedExponent(m), m, RoundedExponent(m'), m');
  }
}
