/**
 * Two ways of counting the set bits of a 32-bit unsigned value
 * (bit_counting.c): Kernighan's "clear the lowest set bit" loop and a
 * shift-and-test loop, both proved to return the population count.
 */
module BitCounting {
  import opened UInt32

  /** Population count: the number of 1 digits in the binary expansion of v. */
  function Popcount(v: nat): (ones: nat)
  {
    if v == 0 then 0 else v % 2 + Popcount(v / 2)
  }

  /** Number of binary digits of v (0 for 0): how often `v >>= 1` runs before v is 0. */
  function BitLength(v: nat): (digits: nat)
  {
    if v == 0 then 0 else 1 + BitLength(v / 2)
  }

  /** Position of the least significant set bit of a nonzero v. */
  function TrailingZeros(v: nat): (position: nat)
    requires v > 0
    decreases v
  {
    if v % 2 == 1 then 0 else 1 + TrailingZeros(v / 2)
  }

  /** TrailingZeros(v) is the lowest position holding a 1. */
  lemma {:induction false} TrailingZerosIsLowestSetBit(v: nat)
    requires v > 0
    ensures Bit(v, TrailingZeros(v)) == 1
    ensures forall i :: 0 <= i < TrailingZeros(v) ==> Bit(v, i) == 0
    decreases v
  {
    if v % 2 == 0 {
      var h := v / 2;
      TrailingZerosIsLowestSetBit(h);
      forall i | 0 <= i < TrailingZeros(v) ensures Bit(v, i) == 0 {
        if i > 0 {
          assert Bit(v, i) == Bit(h, i - 1);
        }
      }
    }
  }

  /** The number of positions i < k whose bit is 1. */
  function OnesBelow(v: nat, k: nat): (ones: nat)
  {
    if k == 0 then 0 else OnesBelow(v, k - 1) + Bit(v, k - 1)
  }

  /** Counting ones from position 0 up is the lowest bit plus the ones of v >> 1. */
  lemma {:induction false} OnesBelowShift(v: nat, k: nat)
    ensures OnesBelow(v, k + 1) == v % 2 + OnesBelow(v / 2, k)
    decreases k
  {
    if k > 0 {
      OnesBelowShift(v, k - 1);
      assert Bit(v, k) == Bit(v / 2, k - 1);
    }
  }

  /** Popcount(v) is the number of positions below BitLength(v) that hold a 1. */
  lemma {:induction false} PopcountCountsSetBits(v: nat)
    ensures Popcount(v) == OnesBelow(v, BitLength(v))
    decreases v
  {
    if v > 0 {
      PopcountCountsSetBits(v / 2);
      OnesBelowShift(v, BitLength(v / 2));
    }
  }

  /** Every bit at or above BitLength(v) is 0. */
  lemma {:induction false} BitsAboveLengthAreZero(v: nat, i: nat)
    requires i >= BitLength(v)
    ensures Bit(v, i) == 0
    decreases i
  {
    if v == 0 {
      ZeroBits(i);
    } else {
      BitsAboveLengthAreZero(v / 2, i - 1);
    }
  }

  /** Positions from BitLength(v) up add no ones. */
  lemma {:induction false} OnesBelowPastLength(v: nat, k: nat)
    requires k >= BitLength(v)
    ensures OnesBelow(v, k) == OnesBelow(v, BitLength(v))
    decreases k
  {
    if k > BitLength(v) {
      BitsAboveLengthAreZero(v, k - 1);
      OnesBelowPastLength(v, k - 1);
    }
  }

  /** Popcount of a 32-bit value is the number of its 32 bit positions that hold a 1. */
  lemma PopcountIsOnesOf32Bits(v: U32)
    ensures Popcount(v) == OnesBelow(v, 32)
  {
    PopcountBound32(v);
    PopcountCountsSetBits(v);
    OnesBelowPastLength(v, 32);
  }

  /** Only 0 has no set bit. */
  lemma {:induction false} PopcountZero(v: nat)
    ensures Popcount(v) == 0 <==> v == 0
  {
    if v > 0 && v % 2 == 0 {
      PopcountZero(v / 2);
    }
  }

  /** A value never has more set bits than binary digits. */
  lemma {:induction false} PopcountAtMostBitLength(v: nat)
    ensures Popcount(v) <= BitLength(v)
  {
    if v > 0 {
      PopcountAtMostBitLength(v / 2);
    }
  }

  /** A value below 2^k has at most k binary digits. */
  lemma {:induction false} BitLengthBound(v: nat, k: nat)
    requires v < Pow2(k)
    ensures BitLength(v) <= k
    decreases k
  {
    if v > 0 {
      BitLengthBound(v / 2, k - 1);
    }
  }

  /** Every 32-bit value has at most 32 set bits and at most 32 binary digits. */
  lemma PopcountBound32(v: U32)
    ensures Popcount(v) <= BitLength(v) <= 32
  {
    Pow2ThirtyTwo();
    BitLengthBound(v, 32);
    PopcountAtMostBitLength(v);
  }

  /** Doubling shifts a zero in below the existing digits. */
  lemma PopcountDouble(x: nat)
    ensures Popcount(2 * x) == Popcount(x)
  {
  }

  /**
   * `v & (v - 1)` clears exactly the least significant set bit of a nonzero v:
   * the result is v minus that bit, it is smaller than v, and it has one set bit fewer.
   */
  lemma {:induction false} ClearLowestSetBit(v: nat)
    requires v > 0
    ensures BitAnd(v, v - 1) == v - Pow2(TrailingZeros(v))
    ensures BitAnd(v, v - 1) < v
    ensures Popcount(BitAnd(v, v - 1)) + 1 == Popcount(v)
    decreases v
  {
    if v % 2 == 1 {
      // v - 1 is v with bit 0 cleared; the digits above agree.
      assert (v - 1) / 2 == v / 2 && (v - 1) % 2 == 0;
      BitAndSelf(v / 2);
      assert BitAnd(v, v - 1) == v - 1;
    } else {
      // the borrow turns the trailing zeros of v into ones and clears bit TrailingZeros(v).
      var h := v / 2;
      assert (v - 1) / 2 == h - 1 && (v - 1) % 2 == 1;
      ClearLowestSetBit(h);
      assert BitAnd(v, v - 1) == 2 * BitAnd(h, h - 1);
      PopcountDouble(BitAnd(h, h - 1));
    }
  }

  /**
   * The worked examples: 7 = 0111 clears to 6, 4, 0; 8 = 1000 to 0; 6 = 0110 to 4, 0;
   * the shift loop takes 8 = 1000 through 0100, 0010, 0001 to 0 in four passes.
   */
  lemma WorkedExamples()
    ensures BitAnd(7, 6) == 6 && BitAnd(6, 5) == 4 && BitAnd(4, 3) == 0 && Popcount(7) == 3
    ensures BitAnd(8, 7) == 0 && Popcount(8) == 1
    ensures Popcount(6) == 2
    ensures BitLength(8) == 4 && BitAnd(8, 1) == 0 && BitAnd(4, 1) == 0 && BitAnd(2, 1) == 0 && BitAnd(1, 1) == 1
  {
  }

  /** `count_set_bits`: Kernighan's loop, one pass per set bit. */
  method CountSetBits(v: U32) returns (bitCount: U32)
    ensures bitCount == Popcount(v)
    ensures bitCount <= 32
    ensures v == 0 ==> bitCount == 0
  {
    PopcountBound32(v);
    var w: U32 := v;
    bitCount := 0;
    while w != 0
      invariant bitCount + Popcount(w) == Popcount(v)
      invariant bitCount <= 32
      decreases w
    {
      ClearLowestSetBit(w);
      PopcountZero(w);
      w := BitAnd(w, w - 1);
      bitCount := bitCount + 1;
    }
  }

  /**
   * `count_set_bits_2`: adds the lowest bit and shifts right until v is 0;
   * `passes` counts the loop's iterations, one per binary digit of v.
   */
  method CountSetBits2(v: U32) returns (bitCount: U32, ghost passes: nat)
    ensures bitCount == Popcount(v)
    ensures bitCount <= 32
    ensures passes == BitLength(v) && passes <= 32
  {
    PopcountBound32(v);
    var w: U32 := v;
    bitCount := 0;
    passes := 0;
    while w != 0
      invariant bitCount + Popcount(w) == Popcount(v)
      invariant passes + BitLength(w) == BitLength(v)
      decreases w
    {
      BitAndOne(w);
      bitCount := bitCount + BitAnd(w, 1);
      w := w / 2;
      passes := passes + 1;
    }
  }

  /** What `main` does with each input value: both methods, side by side, agree. */
  method CountBothWays(v: U32) returns (method1: U32, method2: U32)
    ensures method1 == method2 == Popcount(v)
  {
    method1 := CountSetBits(v);
    ghost var passes;
    method2, passes := CountSetBits2(v);
  }
}
