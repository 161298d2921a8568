/**
 * Integer division of 32-bit unsigned values by repeated subtraction
 * (division.c): an iterative version giving quotient and remainder and a
 * recursive version giving the quotient.
 */
module Division {
  import opened UInt32

  /** Quotient and remainder are unique: any q, r with x == q*d + r, r < d are x / d and x % d. */
  lemma DivModUnique(x: nat, d: nat, q: nat, r: nat)
    requires d > 0 && x == q * d + r && r < d
    ensures q == x / d && r == x % d
  {
    var q', r' := x / d, x % d;
    if q < q' {
      MulAtLeast(q' - q, d);
      assert false;
    } else if q > q' {
      MulAtLeast(q - q', d);
      assert false;
    }
  }

  lemma MulAtLeast(k: nat, d: nat)
    requires k >= 1
    ensures k * d >= d
  {
    assert k * d == (k - 1) * d + d;
  }

  /**
   * `division_by_subtraction`: subtracts div from num while num >= div,
   * counting the subtractions; returns the count and what is left.
   * The loop never ends when div is 0, and the caller rejects div == 0.
   */
  method DivisionBySubtraction(num: U32, div: U32) returns (quotient: U32, remainder: U32)
    requires div > 0
    ensures num == quotient * div + remainder && remainder < div
    ensures quotient == num / div && remainder == num % div
    ensures quotient <= num
  {
    var n: U32 := num;
    quotient := 0;
    while n >= div
      invariant num == quotient * div + n
      invariant quotient + n <= num
      decreases n
    {
      n := n - div;
      quotient := quotient + 1;
    }
    remainder := n;
    DivModUnique(num, div, quotient, remainder);
  }

  /** `divide_recursion`: 0 when num < div, else one more than the quotient of num - div. */
  function DivideRecursion(num: U32, div: U32): (q: U32)
    requires div > 0
    ensures q == num / div
    ensures q <= num
    decreases num
  {
    if num < div then 0
    else
      var q := 1 + DivideRecursion(num - div, div);
      DivModUnique(num, div, q, (num - div) % div);
      q
  }

  /** What `main` does with each accepted pair: both versions give the same quotient. */
  method DivideBothWays(num: U32, div: U32) returns (quotient: U32, remainder: U32, recursionResult: U32)
    requires div > 0
    ensures recursionResult == quotient
    ensures num == quotient * div + remainder && remainder < div
  {
    quotient, remainder := DivisionBySubtraction(num, div);
    recursionResult := DivideRecursion(num, div);
  }
}
