/**
  The binary comparators of the `partial_min_max` crate that the
  `max_partial!` and `min_partial!` macros fold with.

  A value of a partially ordered type (a float, say) is either an ordinary,
  comparable value `Num(v)`, ordered among the others by the total order
  `le`, or `Incomparable`, which compares neither less, greater nor equal to
  anything, itself included (a not-a-number float).

  The crate is foreign code; only its documented binary behaviour is
  modelled: `max(a, b)` is `a` when `a > b` and `b` otherwise, `min(a, b)` is
  `a` when `a < b` and `b` otherwise, so a failed comparison yields the
  right-hand operand.
 */
module PartialMinMax {
  import StdCmp

  datatype Partial<T> = Num(value: T) | Incomparable

  /** `a > b`: false whenever either side is `Incomparable`. */
  predicate Greater<T>(le: (T, T) -> bool, a: Partial<T>, b: Partial<T>) {
    a.Num? && b.Num? && !le(a.value, b.value)
  }

  /** `a < b`: false whenever either side is `Incomparable`. */
  predicate Less<T>(le: (T, T) -> bool, a: Partial<T>, b: Partial<T>) {
    a.Num? && b.Num? && !le(b.value, a.value)
  }

  /**
    `partial_min_max::max`: one of its operands; the right one whenever the
    comparison fails, and otherwise what `std::cmp::max` picks.
   */
  function Max<T(!new)>(le: (T, T) -> bool, a: Partial<T>, b: Partial<T>): (r: Partial<T>)
    ensures r == a || r == b
    ensures a.Incomparable? || b.Incomparable? ==> r == b
    ensures a.Num? && b.Num? ==> r == Num(StdCmp.Max(le, a.value, b.value))
  {
    if Greater(le, a, b) then a else b
  }

  /**
    `partial_min_max::min`: one of its operands; the right one whenever the
    comparison fails, and otherwise, over a total order, what `std::cmp::min`
    picks (the two differ only on a tie, which a total order makes the same
    value).
   */
  function Min<T(!new)>(le: (T, T) -> bool, a: Partial<T>, b: Partial<T>): (r: Partial<T>)
    ensures r == a || r == b
    ensures a.Incomparable? || b.Incomparable? ==> r == b
    ensures StdCmp.TotalOrder(le) && a.Num? && b.Num? ==> r == Num(StdCmp.Min(le, a.value, b.value))
  {
    if Less(le, a, b) then a else b
  }
}
