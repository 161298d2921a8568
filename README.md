# Set-bit counting, division by subtraction and the 3n+1 cycle-length search

A Dafny model of three small C programs that work on 32-bit `unsigned int` values:

- **bit_counting.c**: `count_set_bits` counts the set bits with Kernighan's loop. Each pass runs `v &= v - 1`, which clears the lowest set bit. `count_set_bits_2` adds `v & 1` and shifts `v` right until it is 0. Both are proved to return the population count `Popcount(v)`, so they agree on every input. Both results are at most 32.
- **division.c**: `division_by_subtraction` subtracts `div` from `num` while `num >= div` and counts the subtractions. `divide_recursion` computes the same quotient recursively. For `div > 0` the loop ends with `num == quotient * div + remainder` and `remainder < div`. Both results equal Dafny's `/` (and `%` for the remainder).
- **pro_challanges_1.6.1.c**: the 3n+1 problem. `perform_action` halves an even value in place. It replaces an odd value by `3n + 1`, which wraps modulo 2^32. `generate_sequence` counts the terms from `n` down to the first value `<= 1`, both ends included. `get_sequence_difference` orders its two bounds with `swap`. It then returns the largest count over the half-open range `[smaller, larger)`, or 0 when the range is empty.

Modelling choices:

- `unsigned int` is `UInt32.U32`: a `nat` below 2^32. `&` is `UInt32.BitAnd`, defined one binary digit at a time. `UInt32.BitAndBits` proves that it is the bitwise AND. `v >>= 1` is `v / 2`. The only wrap-around the code can reach is in `odd_action`, and it is written out as `% Modulus`. The `count++` in `generate_sequence` is reduced the same way. That reduction never actually takes effect: a sequence that reaches a value `<= 1` passes only distinct values above 1 on the way, so it has fewer than 2^32 terms. The model keeps the reduction but does not prove this bound. Every other operation is proved to stay in range. For example, `num - div` only runs under `num >= div`, and the bit counts stay at most 32.
- A C function that takes `unsigned int *` and writes through it becomes a method that modifies a `UInt32.Cell`. A cell is a heap object holding one `U32`. A caller allocates a cell where the C code takes the address of a local variable, as `generate_sequence` does for `num` and `get_sequence_difference` does for its two bounds.
- Because of the 32-bit wrap, some start values follow a different path from the true 3n+1 sequence, and a sequence can end at 0 (`WrapEndsSequence`). Whether each of the 2^32 start values reaches a value `<= 1` is a finite question, but far too large to settle in a proof. On an input that never gets there, the C loop runs forever. So `CycleLength(n, fuel)` takes a step budget. It returns `None` when the budget runs out first. `GenerateSequence` and `GetSequenceDifference` take the budget as a ghost parameter. They require that the inputs reach a value `<= 1` within it. `CycleLengthFuelIrrelevant` shows that the budget never changes a length it finds.

## Model

| member | source | states |
|---|---|---|
| `UInt32.BitAnd` | bit_counting.c:47 | `a & b` is never larger than either operand, so `v & (v - 1)` stays a 32-bit value |
| `UInt32.BitAndBits` | bit_counting.c:47 | bit i of `a & b` is 1 exactly when bit i is 1 in both `a` and `b` |
| `UInt32.BitAndOne` | bit_counting.c:70 | `v & 1` is the least significant bit `v % 2` |
| `UInt32.BitAndSelf` | bit_counting.c:47 | `x & x == x` |
| `BitCounting.TrailingZerosIsLowestSetBit` | bit_counting.c:10-11 | `TrailingZeros(v)` is the position of the least significant set bit: that bit is 1 and every lower bit is 0 |
| `BitCounting.ClearLowestSetBit` | bit_counting.c:45-48 | for nonzero v, `v & (v - 1)` equals v minus its lowest set bit; it is smaller than v and has exactly one set bit fewer |
| `BitCounting.PopcountZero` | bit_counting.c:45 | the population count is 0 exactly when v is 0, which is when the loop condition `v` fails |
| `BitCounting.PopcountAtMostBitLength` | bit_counting.c:69-71 | a value has no more set bits than binary digits |
| `BitCounting.BitLengthBound` | bit_counting.c:69 | a value below 2^k has at most k binary digits, so the shift loop runs at most k times |
| `BitCounting.PopcountBound32` | bit_counting.c:40-73 | every 32-bit value has at most 32 set bits and at most 32 binary digits |
| `BitCounting.PopcountCountsSetBits` | bit_counting.c:40-50 | `Popcount(v)` is the number of bit positions below `BitLength(v)` whose bit is 1 |
| `BitCounting.BitsAboveLengthAreZero` | bit_counting.c:69 | every bit at or above `BitLength(v)` is 0, so the shift loop stops once it has passed the highest set bit |
| `BitCounting.PopcountIsOnesOf32Bits` | bit_counting.c:40-73 | for a 32-bit v, `Popcount(v)` is the number of its 32 bit positions that hold a 1 |
| `BitCounting.WorkedExamples` | bit_counting.c:13-61 | 7 clears to 6, 4, 0 and has 3 set bits; 8 clears to 0 and has 1; 6 has 2; the shift loop takes 8 through four passes, adding 1 only in the last |
| `BitCounting.CountSetBits` | bit_counting.c:40-50 | the Kernighan loop returns `Popcount(v)`, at most 32, and 0 for v == 0; each pass removes one set bit |
| `BitCounting.CountSetBits2` | bit_counting.c:64-73 | the shift loop returns `Popcount(v)`, at most 32, after one pass per binary digit of v (at most 32 passes) |
| `BitCounting.CountBothWays` | bit_counting.c:81-82 | the two methods return the same count for every input |
| `Division.DivisionBySubtraction` | division.c:13-24 | for div > 0 it ends with `num == quotient * div + remainder` and `remainder < div`, so it returns `num / div` and `num % div`; the quotient never exceeds num; `num - div` never underflows |
| `Division.DivideRecursion` | division.c:27-36 | for div > 0 the result is `num / div`, which is 0 when num < div, and never exceeds num |
| `Division.DivideBothWays` | division.c:55-59 | the iterative quotient and the recursive result are equal for the same inputs |
| `ThreeNPlusOne.IsEven` | pro_challanges_1.6.1.c:8-16 | true exactly when n is twice a whole number |
| `ThreeNPlusOne.EvenAction` | pro_challanges_1.6.1.c:18-22 | the cell holds half its old value |
| `ThreeNPlusOne.OddAction` | pro_challanges_1.6.1.c:24-28 | the cell holds `3n + 1` reduced modulo 2^32 |
| `ThreeNPlusOne.PerformAction` | pro_challanges_1.6.1.c:31-38 | the cell holds `Step` of its old value (halved when even, wrapped `3n + 1` when odd) and no other object changes |
| `ThreeNPlusOne.Swap` | pro_challanges_1.6.1.c:57-63 | the two cells exchange their values; nothing else changes |
| `ThreeNPlusOne.StepHalvesEven` | pro_challanges_1.6.1.c:18-22 | an even positive value strictly decreases |
| `ThreeNPlusOne.StepOddGivesEven` | pro_challanges_1.6.1.c:24-28 | an odd value always steps to an even one, with or without the wrap |
| `ThreeNPlusOne.StepOddNoWrap` | pro_challanges_1.6.1.c:24-28 | when `3n + 1` fits in 32 bits the odd step is exactly `3n + 1`, which is larger than n |
| `ThreeNPlusOne.StepWrapsToZero` | pro_challanges_1.6.1.c:24-28 | the wrap is reachable: `0x5555_5555` steps to 0 |
| `ThreeNPlusOne.CycleLengthFuelIrrelevant` | pro_challanges_1.6.1.c:44-55 | a larger step budget never changes a cycle length that has been found |
| `ThreeNPlusOne.CycleLengthCountsSteps` | pro_challanges_1.6.1.c:44-55 | a cycle length c means the value after c - 1 steps is <= 1 and every earlier value is > 1, so the count includes the start and the final value |
| `ThreeNPlusOne.StepsGiveCycleLength` | pro_challanges_1.6.1.c:44-55 | conversely, if step k is the first value <= 1, the cycle length is k + 1 |
| `ThreeNPlusOne.CycleLengthStep` | pro_challanges_1.6.1.c:47-53 | for n > 1 the cycle length is one more than that of `Step(n)` |
| `ThreeNPlusOne.WrapEndsSequence` | pro_challanges_1.6.1.c:44-55 | through the wrap, the sequence of `0x5555_5555` has 2 terms |
| `ThreeNPlusOne.GenerateSequence` | pro_challanges_1.6.1.c:44-55 | returns the cycle length of num modulo 2^32, and 1 for num <= 1 (including 0) |
| `ThreeNPlusOne.MaxCountIsUpperBound` | pro_challanges_1.6.1.c:80-85 | the running maximum is at least every count in the range |
| `ThreeNPlusOne.MaxCountIsAttained` | pro_challanges_1.6.1.c:80-85 | on a non-empty range the maximum is the count of some value in the range |
| `ThreeNPlusOne.GetSequenceDifference` | pro_challanges_1.6.1.c:66-87 | returns the largest count over `[min(num1, num2), max(num1, num2))`, with the upper bound excluded: at least every count there, equal to one of them, and 0 when num1 == num2; the contract depends on the bounds only through min and max, so swapping the arguments gives the same result |

## Left out

- interest.c: the financial formulas compute in IEEE `double` and use `pow` with real exponents. Their identities hold only up to rounding, and there is no real-exponent power to state them with.
- coin_toss.c: randomness (`srand(time(NULL))`, `rand`), `sleep` and console output, with no logic to specify.
- metadata_nbar.py: a test script that drives router devices through external libraries. It is all foreign calls and I/O.
- The `main` functions of the three modelled files: `scanf`/`printf` loops. The per-input work of the first two is modelled by `BitCounting.CountBothWays` and `Division.DivideBothWays`. Their guard rejecting `div == 0` becomes the `div > 0` precondition. The guard that stops on `num < div` is not modelled, because both division routines handle that case themselves (quotient 0).
- The `printf` calls in `division_by_subtraction` and the `#ifdef debug` print in `perform_action`: output only. `division_by_subtraction` returns its quotient and remainder instead of printing them.
- Division.DivideRecursion: stack depth is not modelled. The C recursion goes one call deeper per unit of quotient. On a large quotient (such as 4000000000 divided by 1) it overflows the stack and crashes, unless the compiler turns `1 + divide_recursion(..)` into a loop. The model is a total function returning `num / div`.
- ThreeNPlusOne.GenerateSequence: requires a step budget within which num reaches a value <= 1. The C loop has no such precondition; on an input whose wrapped sequence never gets there, it simply does not return. Whether each of the 2^32 start values gets there under the wrapped step is a finite question, but far too large to settle in a proof.
- ThreeNPlusOne.GetSequenceDifference: requires the same budget for every value in the range, for the same reason.
