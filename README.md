# min-max: variadic maximum and minimum, modelled in Dafny

The `min-max` crate offers four macros, `max!`, `min!`, `max_partial!` and
`min_partial!`. Each takes a fixed, non-empty list of operands of one type
and reduces it to one value. It does this by right-folding a binary
comparator: one operand is returned as it is, and `m!(x, xs...)` expands to
`cmp(x, m!(xs...))`.

- `max!` and `min!` fold with `std::cmp::max` and `std::cmp::min` over a
  type with a total order (`Ord`).
- `max_partial!` and `min_partial!` fold with `partial_min_max::max` and
  `partial_min_max::min` over a partially ordered type such as a float.

The model has four modules, one per file:

- `StdCmp` (`std_cmp.dfy`) holds the binary `std::cmp::max`/`min`. The order
  of the operand type is a relation `le`, where `le(a, b)` means that
  `a.cmp(&b)` is not `Greater`. `TotalOrder(le)` states what `Ord` demands.
  `max` returns its second operand unless the first compares greater. `min`
  returns its first operand unless it compares greater.
- `PartialMinMax` (`partial_min_max.dfy`) holds the binary comparators of the
  `partial_min_max` crate. A partially ordered value is `Num(v)`, ordered by
  `le`, or `Incomparable`, which stands for a not-a-number float. Only the
  crate's documented contract is assumed: `max(a, b)` is `if a > b { a } else
  { b }` and `min(a, b)` is `if a < b { a } else { b }`. Both comparisons are
  false when either side is `Incomparable`, so a failed comparison yields the
  right operand.
- `MinMax` (`min_max.dfy`) holds the four macros. Each is a recursive function
  over the operand sequence `s` with `requires |s| >= 1`. The module also holds
  the lemmas about them.
- `MinMaxExamples` (`examples_of_use.dfy`) applies the macros to concrete
  operands. It uses integers, a record ordered lexicographically by two
  fields, and floats written as reals.

The fold shape itself, `cmp(x, m!(xs...))` for two or more operands and the
operand unchanged for one, is the definition of each of the four functions.

What is proved:

- Over a total order, `max!`/`min!` return the greatest/least operand. That
  property pins the result down, so the result does not depend on the order
  of the operands, on left versus right association, or on nesting.
- `max_partial!`/`min_partial!` are incomparable exactly when their last
  operand is incomparable. Otherwise they return `max!`/`min!` of the
  comparable operands, so an incomparable operand anywhere but last is
  passed over.
- With every operand comparable, the partial macros give what the total ones
  give.

## Model

| member | source | states |
|---|---|---|
| `StdCmp.Max` | src/lib.rs:5 | `std::cmp::max` returns one of its operands; over a total order it is at least as large as both |
| `StdCmp.Min` | src/lib.rs:13 | `std::cmp::min` returns one of its operands; over a total order it is at most as large as both |
| `StdCmp.MaxCommutative` | src/lib.rs:5 | over a total order binary `max` does not depend on the order of its operands |
| `StdCmp.MaxAssociative` | src/lib.rs:5 | over a total order `max(a, max(b, c)) == max(max(a, b), c)` |
| `StdCmp.MinCommutative` | src/lib.rs:13 | over a total order binary `min` does not depend on the order of its operands |
| `StdCmp.MinAssociative` | src/lib.rs:13 | over a total order `min(a, min(b, c)) == min(min(a, b), c)` |
| `PartialMinMax.Max` | src/lib.rs:21 | `partial_min_max::max` returns one of its operands; the right one when either side is incomparable; otherwise exactly what `std::cmp::max` returns |
| `PartialMinMax.Min` | src/lib.rs:29 | `partial_min_max::min` returns one of its operands; the right one when either side is incomparable; otherwise, over a total order, what `std::cmp::min` returns |
| `MinMax.Max` | src/lib.rs:2-7 | `max!` returns one of its operands; a single operand is returned unchanged |
| `MinMax.Min` | src/lib.rs:9-15 | `min!` returns one of its operands; a single operand is returned unchanged |
| `MinMax.MaxPartial` | src/lib.rs:17-23 | `max_partial!` returns one of its operands; a single operand is returned unchanged |
| `MinMax.MinPartial` | src/lib.rs:25-31 | `min_partial!` returns one of its operands; a single operand is returned unchanged |
| `MinMax.MaxIsGreatest` | src/lib.rs:4-5 | over a total order `max!` returns an operand that is at least as large as every operand |
| `MinMax.MinIsLeast` | src/lib.rs:12-13 | over a total order `min!` returns an operand that is at most as large as every operand |
| `MinMax.MaxCharacterized` | src/lib.rs:2-7 | over a total order an operand is the greatest one if and only if it is `max!`'s result |
| `MinMax.MinCharacterized` | src/lib.rs:9-15 | over a total order an operand is the least one if and only if it is `min!`'s result |
| `MinMax.MinLeMax` | src/lib.rs:2-15 | over a total order `min!(s) <= max!(s)` |
| `MinMax.MaxPermutationInvariant` | src/lib.rs:4-5 | over a total order any reordering of the operands gives the same `max!` |
| `MinMax.MinPermutationInvariant` | src/lib.rs:12-13 | over a total order any reordering of the operands gives the same `min!` |
| `MinMax.LeftFoldIsGreatest` | src/lib.rs:4-5 | over a total order, a left fold of any comparator that picks the larger of its operands yields the greatest operand |
| `MinMax.MaxIsLeftFold` | src/lib.rs:4-5 | over a total order `max!` equals the left-associated fold of `std::cmp::max` |
| `MinMax.MinIsLeftFold` | src/lib.rs:12-13 | over a total order `min!` equals the left-associated fold of `std::cmp::min` |
| `MinMax.MaxConcat` | src/lib.rs:4-5 | over a total order `max!(s..., t...) == max(max!(s...), max!(t...))`: nested calls equal one flat call |
| `MinMax.MinConcat` | src/lib.rs:12-13 | over a total order `min!(s..., t...) == min(min!(s...), min!(t...))` |
| `MinMax.MaxPartialPoisonedByLast` | src/lib.rs:20-21 | `max_partial!` is incomparable if and only if its last operand is |
| `MinMax.MinPartialPoisonedByLast` | src/lib.rs:28-29 | `min_partial!` is incomparable if and only if its last operand is |
| `MinMax.MaxPartialSkipsIncomparable` | src/lib.rs:20-21 | when the last operand is comparable, `max_partial!` is `max!` of the comparable operands, so incomparable operands before it are passed over |
| `MinMax.MinPartialSkipsIncomparable` | src/lib.rs:28-29 | over a total order, when the last operand is comparable, `min_partial!` is `min!` of the comparable operands |
| `MinMax.MaxPartialAgreesWithMax` | src/lib.rs:17-23 | with every operand comparable, `max_partial!` returns what `max!` returns on the same values |
| `MinMax.MinPartialAgreesWithMin` | src/lib.rs:25-31 | over a total order, with every operand comparable, `min_partial!` returns what `min!` returns on the same values |
| `MinMaxExamples.SevenIntegers` | src/lib.rs:2-15 | `max!(1, 5, 7, 2, 4, 9, 3) == 9` and `min!(1, 5, 7, 2, 4, 9, 3) == 1` |
| `MinMaxExamples.ThreeRecords` | src/lib.rs:2-7 | `max!` over three lexicographically ordered records returns the greatest record |
| `MinMaxExamples.SevenFloats` | src/lib.rs:17-31 | `max_partial!(1.8, 5.8, 7.8, 2.8, 4.8, 9.8, 3.8) == 9.8` and `min_partial!` of them is `1.8` |
| `MinMaxExamples.NaNLast` | src/lib.rs:17-23 | `max_partial!` with a not-a-number last operand is not-a-number |
| `MinMaxExamples.NaNInterior` | src/lib.rs:17-23 | `max_partial!(1.8, 5.8, NaN, 2.8, 4.8, 9.8, 3.8) == 9.8` |
| `MinMaxExamples.MaxPartialIsOrderSensitive` | src/lib.rs:20-21 | `max_partial!` changes its result when the operands are reordered, when the fold is left-associated, or when a call is nested inside another |

## Left out

- Macro mechanics are not modelled: compile-time arity checking, hygiene, and type-checking of operand expressions. The refusal of an empty operand list is the precondition `|s| >= 1`.
- Operands are values. Evaluating each operand expression once, left to right, is Rust expression semantics with no counterpart in a model over sequences.
- IEEE-754 arithmetic is not modelled. Ordinary floats are reals, and every not-a-number is the single value `Incomparable`. Signed zeros, which compare equal but are distinct values, are not distinguished.
- Partially ordered types in general are not modelled. Incomparability comes only from the distinguished `Incomparable` value; ordinary values are totally ordered among themselves, as non-NaN floats are.
- The internals of `std::cmp` and of `partial_min_max` are foreign code. Only their binary contracts are modelled, in `StdCmp` and `PartialMinMax`.
- Which of two equal operands is returned is not stated separately. `TotalOrder` asks the order to be consistent with equality, so equal operands are the same value. The binary functions do follow Rust's documented tie rules: `max` returns the second operand and `min` the first.
- The lemmas about `max!` and `min!` assume `TotalOrder(le)`. For an `Ord` implementation that breaks the order laws, the model states only that the result is one of the operands.
