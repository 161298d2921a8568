/**
 * The 3n+1 cycle-length search (pro_challanges_1.6.1.c): a value is halved
 * when even and replaced by 3n+1 (in 32-bit unsigned arithmetic) when odd;
 * the cycle length of n counts the terms from n down to the first value <= 1;
 * the search returns the largest cycle length over a half-open range.
 *
 * Because of the 32-bit wrap, some start values follow a different path from
 * the true 3n+1 sequence, and a sequence can end at 0. Whether each of the
 * 2^32 start values reaches a value <= 1 is a finite question, but far too
 * large to settle in a proof; on an input that never gets there the C loop
 * runs forever. So cycle lengths are defined with an explicit step budget
 * (`fuel`), and the methods take, as a ghost parameter, a budget under which
 * their input halts.
 */
module ThreeNPlusOne {
  import opened UInt32

  datatype Option<T> = None | Some(value: T)

  /** `is_even`: n is twice some value. */
  function IsEven(n: U32): (even: bool)
    ensures even <==> n == 2 * (n / 2)
  {
    n % 2 == 0
  }

  /** The value `perform_action` leaves behind; `*num * 3 + 1` wraps modulo 2^32. */
  function Step(n: U32): (next: U32)
  {
    if IsEven(n) then n / 2 else (n * 3 + 1) % Modulus
  }

  /** `even_action`: halves the value in place. */
  method EvenAction(num: Cell)
    modifies num
    ensures num.value == old(num.value) / 2
  {
    num.value := num.value / 2;
  }

  /** `odd_action`: replaces the value by 3n+1, computed in 32-bit unsigned arithmetic. */
  method OddAction(num: Cell)
    modifies num
    ensures num.value == (old(num.value) * 3 + 1) % Modulus
  {
    num.value := (num.value * 3 + 1) % Modulus;
  }

  /** `perform_action`: one step of the sequence, in place. */
  method PerformAction(num: Cell)
    modifies num
    ensures num.value == Step(old(num.value))
  {
    if IsEven(num.value) {
      EvenAction(num);
    } else {
      OddAction(num);
    }
  }

  /** `swap`: exchanges the two values (and is harmless when both are one object). */
  method Swap(num1: Cell, num2: Cell)
    modifies num1, num2
    ensures num1.value == old(num2.value) && num2.value == old(num1.value)
  {
    var temp := num1.value;
    num1.value := num2.value;
    num2.value := temp;
  }

  /** An even positive value strictly decreases. */
  lemma StepHalvesEven(n: U32)
    requires IsEven(n) && n > 0
    ensures Step(n) < n
  {
  }

  /** An odd value always steps to an even one, also when 3n+1 wraps (2^32 is even). */
  lemma StepOddGivesEven(n: U32)
    requires !IsEven(n)
    ensures IsEven(Step(n))
  {
  }

  /** Without overflow the odd step is the true 3n+1. */
  lemma StepOddNoWrap(n: U32)
    requires !IsEven(n) && n * 3 + 1 < Modulus
    ensures Step(n) == 3 * n + 1 && Step(n) > n
  {
  }

  /** The wrap is reachable: 3 * 0x5555_5555 + 1 == 2^32, which wraps to 0. */
  lemma StepWrapsToZero()
    ensures Step(0x5555_5555) == 0
  {
  }

  /** The value after k steps. */
  function Iterate(n: U32, k: nat): (value: U32)
    decreases k
  {
    if k == 0 then n else Iterate(Step(n), k - 1)
  }

  /**
   * The number of terms from n down to the first value <= 1, both ends
   * included, or None when that needs more than fuel steps.
   */
  function CycleLength(n: U32, fuel: nat): (length: Option<nat>)
    decreases fuel
  {
    if n <= 1 then Some(1)
    else if fuel == 0 then None
    else match CycleLength(Step(n), fuel - 1)
      case None => None
      case Some(c) => Some(c + 1)
  }

  /** The budget does not change a cycle length, only whether it is found. */
  lemma {:induction false} CycleLengthFuelIrrelevant(n: U32, fuel: nat, more: nat)
    requires CycleLength(n, fuel).Some? && fuel <= more
    ensures CycleLength(n, more) == CycleLength(n, fuel)
    decreases fuel
  {
    if n > 1 {
      CycleLengthFuelIrrelevant(Step(n), fuel - 1, more - 1);
    }
  }

  /**
   * CycleLength against the plain definition: c terms means the value after
   * c - 1 steps is <= 1 and every earlier value is > 1.
   */
  lemma {:induction false} CycleLengthCountsSteps(n: U32, fuel: nat, c: nat)
    requires CycleLength(n, fuel) == Some(c)
    ensures c >= 1 && Iterate(n, c - 1) <= 1
    ensures forall j :: 0 <= j < c - 1 ==> Iterate(n, j) > 1
    decreases fuel
  {
    if n > 1 {
      CycleLengthCountsSteps(Step(n), fuel - 1, c - 1);
      forall j | 0 <= j < c - 1 ensures Iterate(n, j) > 1 {
        if j > 0 {
          assert Iterate(n, j) == Iterate(Step(n), j - 1);
        }
      }
    }
  }

  /** Conversely, the first index k with Iterate(n, k) <= 1 gives k + 1 terms within budget k. */
  lemma {:induction false} StepsGiveCycleLength(n: U32, k: nat)
    requires Iterate(n, k) <= 1
    requires forall j :: 0 <= j < k ==> Iterate(n, j) > 1
    ensures CycleLength(n, k) == Some(k + 1)
    decreases k
  {
    if k > 0 {
      assert n == Iterate(n, 0) > 1;
      assert Iterate(Step(n), k - 1) == Iterate(n, k);
      forall j | 0 <= j < k - 1 ensures Iterate(Step(n), j) > 1 {
        assert Iterate(n, j + 1) == Iterate(Step(n), j);
      }
      StepsGiveCycleLength(Step(n), k - 1);
    }
  }

  /** Each term above 1 adds one to the cycle length of its successor. */
  lemma CycleLengthStep(n: U32, fuel: nat)
    requires n > 1 && CycleLength(Step(n), fuel).Some?
    ensures CycleLength(n, fuel + 1) == Some(CycleLength(Step(n), fuel).value + 1)
  {
  }

  /** The 32-bit wrap ends the sequence of 0x5555_5555 early: 2 terms, as the wrapped step is 0. */
  lemma WrapEndsSequence()
    ensures CycleLength(0x5555_5555, 1) == Some(2)
  {
  }

  /**
   * `generate_sequence`: counts the terms down to the first value <= 1,
   * counting in 32-bit unsigned arithmetic. The C loop returns only when
   * the sequence gets there; `fuel` is a budget under which it does.
   */
  method GenerateSequence(num: U32, ghost fuel: nat) returns (count: U32)
    requires CycleLength(num, fuel).Some?
    ensures count == CycleLength(num, fuel).value % Modulus
    ensures num <= 1 ==> count == 1
  {
    var n := new Cell(num);
    ghost var left := fuel;
    ghost var steps: nat := 0;
    count := 1;
    while n.value > 1
      invariant CycleLength(n.value, left).Some?
      invariant steps + CycleLength(n.value, left).value == CycleLength(num, fuel).value
      invariant count == (steps + 1) % Modulus
      decreases left
    {
      ghost var before := n.value;
      IncrementMod(steps + 1);
      count := (count + 1) % Modulus;
      PerformAction(n);
      left := left - 1;
      steps := steps + 1;
      assert n.value == Step(before);
    }
  }

  /** Incrementing a 32-bit counter wraps like counting in nat and reducing at the end. */
  lemma IncrementMod(x: nat)
    ensures (x % Modulus + 1) % Modulus == (x + 1) % Modulus
  {
  }

  /** The count `generate_sequence` returns for a halting start value. */
  function SequenceCount(n: U32, fuel: nat): (count: U32)
    requires CycleLength(n, fuel).Some?
  {
    CycleLength(n, fuel).value % Modulus
  }

  /** Every value in [lo, hi) halts within the budget. */
  ghost predicate AllHalt(lo: nat, hi: nat, fuel: nat)
  {
    forall i: nat :: lo <= i < hi && i < Modulus ==> CycleLength(i, fuel).Some?
  }

  /** The largest count over [lo, hi), 0 for an empty range. */
  function MaxCount(lo: nat, hi: nat, fuel: nat): (best: U32)
    requires hi < Modulus && AllHalt(lo, hi, fuel)
    decreases hi
  {
    if hi <= lo then 0
    else
      var best := MaxCount(lo, hi - 1, fuel);
      var c := SequenceCount(hi - 1, fuel);
      if c >= best then c else best
  }

  /** MaxCount is at least every count in the range ... */
  lemma {:induction false} MaxCountIsUpperBound(lo: nat, hi: nat, fuel: nat, i: nat)
    requires hi < Modulus && AllHalt(lo, hi, fuel) && lo <= i < hi
    ensures SequenceCount(i, fuel) <= MaxCount(lo, hi, fuel)
    decreases hi
  {
    if i < hi - 1 {
      MaxCountIsUpperBound(lo, hi - 1, fuel, i);
    }
  }

  /** ... and is one of them when the range is not empty. */
  lemma {:induction false} MaxCountIsAttained(lo: nat, hi: nat, fuel: nat)
    requires hi < Modulus && AllHalt(lo, hi, fuel) && lo < hi
    ensures exists i: nat :: lo <= i < hi && SequenceCount(i, fuel) == MaxCount(lo, hi, fuel)
    decreases hi
  {
    if lo < hi - 1 && SequenceCount(hi - 1, fuel) < MaxCount(lo, hi - 1, fuel) {
      MaxCountIsAttained(lo, hi - 1, fuel);
      var i: nat :| lo <= i < hi - 1 && SequenceCount(i, fuel) == MaxCount(lo, hi - 1, fuel);
      assert lo <= i < hi && SequenceCount(i, fuel) == MaxCount(lo, hi, fuel);
    } else {
      var i: nat := hi - 1;
      assert lo <= i < hi && SequenceCount(i, fuel) == MaxCount(lo, hi, fuel);
    }
  }

  function Min(a: nat, b: nat): (m: nat) { if a <= b then a else b }
  function Max(a: nat, b: nat): (m: nat) { if a <= b then b else a }

  /**
   * `get_sequence_difference`: puts the bounds in order with `swap`, then
   * keeps the largest count over [smaller, larger). The larger bound
   * itself is not examined.
   */
  method GetSequenceDifference(num1: U32, num2: U32, ghost fuel: nat) returns (highCount: U32)
    requires AllHalt(Min(num1, num2), Max(num1, num2), fuel)
    ensures highCount == MaxCount(Min(num1, num2), Max(num1, num2), fuel)
    ensures forall i: nat :: Min(num1, num2) <= i < Max(num1, num2) ==> SequenceCount(i, fuel) <= highCount
    ensures num1 == num2 ==> highCount == 0
    ensures num1 != num2 ==>
      exists i: nat :: Min(num1, num2) <= i < Max(num1, num2) && SequenceCount(i, fuel) == highCount
  {
    var a := new Cell(num1);
    var b := new Cell(num2);
    if a.value > b.value {
      Swap(a, b);
    }
    var i: U32 := a.value;
    highCount := 0;
    while i < b.value
      invariant a.value <= i <= b.value
      invariant a.value == Min(num1, num2) && b.value == Max(num1, num2)
      invariant highCount == MaxCount(a.value, i, fuel)
    {
      var count := GenerateSequence(i, fuel);
      if count >= highCount {
        highCount := count;
      }
      i := i + 1;
    }
    forall j: nat | Min(num1, num2) <= j < Max(num1, num2) ensures SequenceCount(j, fuel) <= highCount {
      MaxCountIsUpperBound(a.value, b.value, fuel, j);
    }
    if num1 != num2 {
      MaxCountIsAttained(a.value, b.value, fuel);
    }
  }
}
