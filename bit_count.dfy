/** SCANcontroller.countBits and the population count it computes. The
    argument is the enum value cast to a C# int, i.e. a 32-bit two's-complement
    word, so the loop's arithmetic is that of bv32. */
module BitCount {
  import opened ScanType

  /** A C# int as a 32-bit word. */
  type Word = bv32

  /** The value whose lowest n bits are set and whose other bits are clear. */
  function LowBits(n: nat): Word
    requires n <= 32
  {
    if n == 0 then 0 else (LowBits(n - 1) << 1) | 1
  }

  /** x has no set bit at position n or above. */
  predicate FitsIn(x: Word, n: nat)
    requires n <= 32
  {
    x & !LowBits(n) == 0
  }

  /** Bit 0 of x, as a number. */
  function LowBit(x: Word): nat
  {
    if x & 1 == 1 then 1 else 0
  }

  /** x shifted right by one position. */
  function Half(x: Word): Word
  {
    x >> 1
  }

  /** x with its lowest set bit cleared. */
  function ClearLowest(x: Word): Word
  {
    x & (x - 1)
  }

  /** Number of set bits among the lowest n bits of x. */
  function PopcountBelow(x: Word, n: nat): (r: nat)
    requires n <= 32
    ensures r <= n
  {
    if n == 0 then 0 else LowBit(x) + PopcountBelow(Half(x), n - 1)
  }

  /** Population count of a 32-bit value. */
  function Popcount(x: Word): (r: nat)
    ensures r <= 32
  {
    PopcountBelow(x, 32)
  }

  /** All 32 bits set: LowBits evaluated four positions at a time. */
  lemma AllOnes()
    ensures LowBits(32) == 0xFFFF_FFFF
  {
    assert LowBits(4) == 0xF;
    assert LowBits(8) == 0xFF;
    assert LowBits(12) == 0xFFF;
    assert LowBits(16) == 0xFFFF;
    assert LowBits(20) == 0xF_FFFF;
    assert LowBits(24) == 0xFF_FFFF;
    assert LowBits(28) == 0xFFF_FFFF;
  }

  /** Every 32-bit value fits in 32 bits. */
  lemma AllFit(x: Word)
    ensures FitsIn(x, 32)
  {
    AllOnes();
  }

  /** Only zero fits in no bits. */
  lemma FitsNone(x: Word)
    requires FitsIn(x, 0)
    ensures x == 0
  {
    assert LowBits(0) == 0;
  }

  /** The bit-level step behind FitsShift. */
  lemma ShiftBelowMask(x: Word, l: Word)
    requires x & !((l << 1) | 1) == 0
    ensures (x >> 1) & !l == 0
  {
  }

  /** Shifting right by one drops one position from the bound. */
  lemma FitsShift(x: Word, n: nat)
    requires 1 <= n <= 32 && FitsIn(x, n)
    ensures FitsIn(x >> 1, n - 1)
  {
    ShiftBelowMask(x, LowBits(n - 1));
  }

  /** Clearing the lowest set bit of an odd value clears bit 0 only. */
  lemma OddBits(x: Word)
    requires x & 1 == 1
    ensures LowBit(ClearLowest(x)) == 0 && LowBit(x) == 1 && Half(ClearLowest(x)) == Half(x)
  {
  }

  /** Clearing the lowest set bit of a non-zero even value clears the lowest
      set bit of the value shifted right by one. */
  lemma EvenBits(x: Word)
    requires x & 1 == 0 && x != 0
    ensures LowBit(ClearLowest(x)) == 0 && LowBit(x) == 0
    ensures Half(ClearLowest(x)) == ClearLowest(Half(x)) && Half(x) != 0
  {
  }

  /** Zero stays zero when shifted and has bit 0 clear. */
  lemma ZeroBits(x: Word)
    requires x == 0
    ensures Half(x) == 0 && LowBit(x) == 0
  {
  }

  /** Clearing the lowest set bit (x & (x - 1)) removes exactly one set bit. */
  lemma {:induction false} PopcountClearLowest(x: Word, n: nat)
    requires 1 <= n <= 32 && x != 0 && FitsIn(x, n)
    ensures PopcountBelow(ClearLowest(x), n) + 1 == PopcountBelow(x, n)
  {
    if x & 1 == 1 {
      OddBits(x);
    } else {
      EvenBits(x);
      FitsShift(x, n);
      if n == 1 {
        FitsNone(Half(x));
      }
      PopcountClearLowest(Half(x), n - 1);
    }
  }

  /** Only zero has no set bit. */
  lemma {:induction false} PopcountZero(x: Word, n: nat)
    requires n <= 32 && FitsIn(x, n)
    ensures PopcountBelow(x, n) == 0 <==> x == 0
  {
    if n == 0 {
      FitsNone(x);
    } else {
      FitsShift(x, n);
      PopcountZero(Half(x), n - 1);
      if x == 0 {
        ZeroBits(x);
      } else if x & 1 == 0 {
        EvenBits(x);
      }
    }
  }

  /** A value has exactly one bit set iff it is non-zero and clearing its
      lowest set bit leaves nothing. */
  lemma SingleBitIff(x: Word)
    ensures Popcount(x) == 1 <==> x != 0 && x & (x - 1) == 0
  {
    AllFit(x);
    AllFit(ClearLowest(x));
    if x != 0 {
      PopcountClearLowest(x, 32);
      PopcountZero(ClearLowest(x), 32);
    } else {
      PopcountZero(x, 32);
    }
  }

  /** countBits (SCANcontroller.cs:205-209): repeatedly clears the lowest set
      bit, counting how often until nothing is left. */
  method CountBits(i0: Word) returns (count: nat)
    ensures count == Popcount(i0)
  {
    var i := i0;
    count := 0;
    while i != 0
      invariant count + Popcount(i) == Popcount(i0)
      decreases Popcount(i)
    {
      AllFit(i);
      PopcountClearLowest(i, 32);
      i := i & (i - 1);
      count := count + 1;
    }
    AllFit(i);
    PopcountZero(i, 32);
  }

  /** (int)sensor: the integer value of a mask. */
  function ToWord(m: Mask): Word
  {
    (if 0 in m then 0x01 else 0) | (if 1 in m then 0x02 else 0)
    | (if 2 in m then 0x04 else 0) | (if 3 in m then 0x08 else 0)
    | (if 4 in m then 0x10 else 0) | (if 5 in m then 0x20 else 0)
    | (if 6 in m then 0x40 else 0) | (if 7 in m then 0x80 else 0)
  }

  /** Of the enumeration's members, exactly the five sensor bits have one
      bit set; Nothing and the composites do not, so registerSensor's
      countBits test keeps the single-bit members only. */
  lemma SingleMembers(m: Mask)
    requires m in Members
    ensures Popcount(ToWord(m)) == 1 <==> m in Singles
  {
    SingleBitIff(ToWord(m));
  }
}
