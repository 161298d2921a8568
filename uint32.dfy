/**
 * The C `unsigned int` of the C programs: 32-bit values, the
 * bitwise AND they use, and a heap cell standing for an `unsigned int`
 * object whose address is passed to a function (`unsigned int *`).
 */
module UInt32 {

  /** 2^32: C unsigned arithmetic is taken modulo this. */
  const Modulus: nat := 0x1_0000_0000

  type U32 = x: nat | x < 0x1_0000_0000

  /** 2^k */
  function Pow2(k: nat): (p: nat)
    ensures p >= 1
  {
    if k == 0 then 1 else 2 * Pow2(k - 1)
  }

  lemma Pow2ThirtyTwo()
    ensures Pow2(32) == Modulus
  {
    assert Pow2(8) == 0x100;
    assert Pow2(16) == 0x1_0000 by { Pow2Add(8, 8); }
    Pow2Add(16, 16);
  }

  lemma {:induction false} Pow2Add(a: nat, b: nat)
    ensures Pow2(a + b) == Pow2(a) * Pow2(b)
    decreases a
  {
    if a > 0 {
      Pow2Add(a - 1, b);
    }
  }

  /** Bit i of x (0 = least significant): the digit `(x >> i) & 1`. */
  function Bit(x: nat, i: nat): (b: nat)
    ensures b < 2
  {
    if i == 0 then x % 2 else Bit(x / 2, i - 1)
  }

  /** The C operator `&` on non-negative values, defined digit by binary digit. */
  function BitAnd(a: nat, b: nat): (r: nat)
    ensures r <= a && r <= b
    decreases a
  {
    if a == 0 || b == 0 then 0
    else 2 * BitAnd(a / 2, b / 2) + (if a % 2 == 1 && b % 2 == 1 then 1 else 0)
  }

  /** `&` is bitwise: bit i of a & b is set exactly when it is set in both. */
  lemma {:induction false} BitAndBits(a: nat, b: nat, i: nat)
    ensures Bit(BitAnd(a, b), i) == 1 <==> Bit(a, i) == 1 && Bit(b, i) == 1
    decreases i
  {
    var r := BitAnd(a, b);
    if a == 0 || b == 0 {
      ZeroBits(i);
    } else if i > 0 {
      BitAndBits(a / 2, b / 2, i - 1);
      assert r / 2 == BitAnd(a / 2, b / 2);
    }
  }

  lemma {:induction false} ZeroBits(i: nat)
    ensures Bit(0, i) == 0
  {
    if i > 0 {
      ZeroBits(i - 1);
    }
  }

  /** `x & 1` is the least significant bit of x. */
  lemma BitAndOne(x: nat)
    ensures BitAnd(x, 1) == x % 2
  {
    if x != 0 {
      assert BitAnd(x / 2, 0) == 0;
    }
  }

  /** `x & x == x`. */
  lemma {:induction false} BitAndSelf(x: nat)
    ensures BitAnd(x, x) == x
    decreases x
  {
    if x != 0 {
      BitAndSelf(x / 2);
    }
  }

  /**
   * An `unsigned int` object in memory. A C function that receives
   * `unsigned int *` and writes through it is a method that modifies a Cell.
   */
  class Cell {
    var value: U32

    constructor (v: U32)
      ensures value == v
    {
      value := v;
    }
  }
}
