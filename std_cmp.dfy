/**
  The binary comparators of Rust's `std::cmp` that the `max!` and `min!`
  macros fold with, over a type `T` whose `Ord` implementation is given as
  the relation `le`: `le(a, b)` holds exactly when `a.cmp(&b)` is not
  `Greater`.

  `std::cmp` is foreign code; only its documented binary behaviour is
  modelled: `max` returns its second operand unless the first compares
  greater, `min` returns its first operand unless it compares greater.
 */
module StdCmp {

  /** `le` is a total order consistent with equality, as `Ord` demands. */
  ghost predicate TotalOrder<T(!new)>(le: (T, T) -> bool) {
    && (forall x :: le(x, x))
    && (forall x, y :: le(x, y) && le(y, x) ==> x == y)
    && (forall x, y, z :: le(x, y) && le(y, z) ==> le(x, z))
    && (forall x, y :: le(x, y) || le(y, x))
  }

  /** The same order read backwards: `Flip(le)(a, b)` is `b <= a`. */
  function Flip<T>(le: (T, T) -> bool): (T, T) -> bool {
    (a, b) => le(b, a)
  }

  /** Reversing a total order yields a total order. */
  lemma FlipTotalOrder<T(!new)>(le: (T, T) -> bool)
    requires TotalOrder(le)
    ensures TotalOrder(Flip(le))
  {
    var ge := Flip(le);
    assert forall x, y :: ge(x, y) == le(y, x);
  }

  /** `std::cmp::max`: one of its operands, at least as large as both. */
  function Max<T(!new)>(le: (T, T) -> bool, a: T, b: T): (r: T)
    ensures r == a || r == b
    ensures TotalOrder(le) ==> le(a, r) && le(b, r)
  {
    if le(a, b) then b else a
  }

  /** `std::cmp::min`: one of its operands, at most as large as both. */
  function Min<T(!new)>(le: (T, T) -> bool, a: T, b: T): (r: T)
    ensures r == a || r == b
    ensures TotalOrder(le) ==> le(r, a) && le(r, b)
  {
    if le(a, b) then a else b
  }

  /** Binary `max` is commutative over a total order. */
  lemma MaxCommutative<T(!new)>(le: (T, T) -> bool, a: T, b: T)
    requires TotalOrder(le)
    ensures Max(le, a, b) == Max(le, b, a)
  {
  }

  /** Binary `max` is associative over a total order. */
  lemma MaxAssociative<T(!new)>(le: (T, T) -> bool, a: T, b: T, c: T)
    requires TotalOrder(le)
    ensures Max(le, a, Max(le, b, c)) == Max(le, Max(le, a, b), c)
  {
  }

  /** Binary `min` is commutative over a total order. */
  lemma MinCommutative<T(!new)>(le: (T, T) -> bool, a: T, b: T)
    requires TotalOrder(le)
    ensures Min(le, a, b) == Min(le, b, a)
  {
  }

  /** Binary `min` is associative over a total order. */
  lemma MinAssociative<T(!new)>(le: (T, T) -> bool, a: T, b: T, c: T)
    requires TotalOrder(le)
    ensures Min(le, a, Min(le, b, c)) == Min(le, Min(le, a, b), c)
  {
  }
}
