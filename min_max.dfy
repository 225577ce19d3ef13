/**
  The four macros of the `min-max` crate, `max!`, `min!`, `max_partial!` and
  `min_partial!`. Each takes a non-empty, fixed list of operands of one type
  and right-folds a binary comparator over it: one operand is returned as it
  is, and `m!(x, xs...)` is `cmp(x, m!(xs...))`. A call with operands
  `x1, ..., xn` is modelled as the function applied to the sequence
  `[x1, ..., xn]`; the macros' refusal of an empty list becomes
  `requires |s| >= 1`.

  The total variants take the type's order as `le` (see `StdCmp`); the
  partial variants take sequences of `PartialMinMax.Partial<T>`, whose
  `Incomparable` value stands for a not-a-number float.
 */
module MinMax {
  import StdCmp
  import PartialMinMax

  type Partial<T> = PartialMinMax.Partial<T>

  // ---------------------------------------------------------------------
  // The macros
  // ---------------------------------------------------------------------

  /** `max!(x1, ..., xn)`: `std::cmp::max(x1, max!(x2, ..., xn))`. */
  function Max<T(!new)>(le: (T, T) -> bool, s: seq<T>): (r: T)
    requires |s| >= 1
    ensures r in s
    ensures |s| == 1 ==> r == s[0]
    decreases |s|
  {
    if |s| == 1 then s[0] else StdCmp.Max(le, s[0], Max(le, s[1..]))
  }

  /** `min!(x1, ..., xn)`: `std::cmp::min(x1, min!(x2, ..., xn))`. */
  function Min<T(!new)>(le: (T, T) -> bool, s: seq<T>): (r: T)
    requires |s| >= 1
    ensures r in s
    ensures |s| == 1 ==> r == s[0]
    decreases |s|
  {
    if |s| == 1 then s[0] else StdCmp.Min(le, s[0], Min(le, s[1..]))
  }

  /** `max_partial!(x1, ..., xn)`: `partial_min_max::max(x1, max_partial!(x2, ..., xn))`. */
  function MaxPartial<T(!new)>(le: (T, T) -> bool, s: seq<Partial<T>>): (r: Partial<T>)
    requires |s| >= 1
    ensures r in s
    ensures |s| == 1 ==> r == s[0]
    decreases |s|
  {
    if |s| == 1 then s[0] else PartialMinMax.Max(le, s[0], MaxPartial(le, s[1..]))
  }

  /** `min_partial!(x1, ..., xn)`: `partial_min_max::min(x1, min_partial!(x2, ..., xn))`. */
  function MinPartial<T(!new)>(le: (T, T) -> bool, s: seq<Partial<T>>): (r: Partial<T>)
    requires |s| >= 1
    ensures r in s
    ensures |s| == 1 ==> r == s[0]
    decreases |s|
  {
    if |s| == 1 then s[0] else PartialMinMax.Min(le, s[0], MinPartial(le, s[1..]))
  }

  // ---------------------------------------------------------------------
  // Reference definitions
  // ---------------------------------------------------------------------

  /** `m` is an operand that is at least as large as every operand. */
  ghost predicate IsGreatest<T>(le: (T, T) -> bool, s: seq<T>, m: T) {
    m in s && forall x :: x in s ==> le(x, m)
  }

  /** `m` is an operand that is at most as large as every operand. */
  ghost predicate IsLeast<T>(le: (T, T) -> bool, s: seq<T>, m: T) {
    m in s && forall x :: x in s ==> le(m, x)
  }

  /** The left-associated fold `op(op(op(x1, x2), x3), ..., xn)`. */
  ghost function LeftFold<T>(op: (T, T) -> T, s: seq<T>): T
    requires |s| >= 1
    decreases |s|
  {
    if |s| == 1 then s[0] else op(LeftFold(op, s[..|s| - 1]), s[|s| - 1])
  }

  /** Every operand wrapped as a comparable value: the all-comparable list. */
  function Lift<T>(xs: seq<T>): (s: seq<Partial<T>>)
    ensures |s| == |xs|
    ensures forall i :: 0 <= i < |xs| ==> s[i] == PartialMinMax.Num(xs[i])
  {
    if xs == [] then [] else [PartialMinMax.Num(xs[0])] + Lift(xs[1..])
  }

  /** The comparable operands, in order, with every `Incomparable` left out. */
  function Comparable<T(!new)>(s: seq<Partial<T>>): (r: seq<T>)
    ensures |r| <= |s|
    ensures forall x :: x in r <==> PartialMinMax.Num(x) in s
  {
    if s == [] then []
    else
      assert s == [s[0]] + s[1..];
      (if s[0].Num? then [s[0].value] else []) + Comparable(s[1..])
  }

  // ---------------------------------------------------------------------
  // max! and min! over a total order
  // ---------------------------------------------------------------------

  /** `max!` returns an operand that is at least as large as every operand. */
  lemma {:induction false} MaxIsGreatest<T(!new)>(le: (T, T) -> bool, s: seq<T>)
    requires StdCmp.TotalOrder(le) && |s| >= 1
    ensures IsGreatest(le, s, Max(le, s))
    decreases |s|
  {
    if |s| > 1 {
      MaxIsGreatest(le, s[1..]);
      forall x | x in s
        ensures le(x, Max(le, s))
      {
        if x != s[0] {
          var i :| 0 <= i < |s| && s[i] == x;
          assert s[1..][i - 1] == x;
        }
      }
    }
  }

  /** `min!` returns an operand that is at most as large as every operand. */
  lemma {:induction false} MinIsLeast<T(!new)>(le: (T, T) -> bool, s: seq<T>)
    requires StdCmp.TotalOrder(le) && |s| >= 1
    ensures IsLeast(le, s, Min(le, s))
    decreases |s|
  {
    if |s| > 1 {
      MinIsLeast(le, s[1..]);
      forall x | x in s
        ensures le(Min(le, s), x)
      {
        if x != s[0] {
          var i :| 0 <= i < |s| && s[i] == x;
          assert s[1..][i - 1] == x;
        }
      }
    }
  }

  /** Over a total order, being the greatest operand determines `max!`'s result. */
  lemma MaxCharacterized<T(!new)>(le: (T, T) -> bool, s: seq<T>, m: T)
    requires StdCmp.TotalOrder(le) && |s| >= 1
    ensures IsGreatest(le, s, m) <==> m == Max(le, s)
  {
    MaxIsGreatest(le, s);
  }

  /** Over a total order, being the least operand determines `min!`'s result. */
  lemma MinCharacterized<T(!new)>(le: (T, T) -> bool, s: seq<T>, m: T)
    requires StdCmp.TotalOrder(le) && |s| >= 1
    ensures IsLeast(le, s, m) <==> m == Min(le, s)
  {
    MinIsLeast(le, s);
  }

  /** `min!(s) <= max!(s)`. */
  lemma {:induction false} MinLeMax<T(!new)>(le: (T, T) -> bool, s: seq<T>)
    requires StdCmp.TotalOrder(le) && |s| >= 1
    ensures le(Min(le, s), Max(le, s))
  {
    MaxIsGreatest(le, s);
  }

  /** Reordering the operands of `max!` does not change its result. */
  lemma MaxPermutationInvariant<T(!new)>(le: (T, T) -> bool, s: seq<T>, t: seq<T>)
    requires StdCmp.TotalOrder(le) && |s| >= 1 && multiset(s) == multiset(t)
    ensures |t| == |s| && Max(le, s) == Max(le, t)
  {
    assert |t| == |multiset(t)| == |multiset(s)| == |s|;
    forall x
      ensures x in s <==> x in t
    {
      assert x in s <==> x in multiset(s);
      assert x in t <==> x in multiset(t);
    }
    MaxIsGreatest(le, t);
    MaxCharacterized(le, s, Max(le, t));
  }

  /** Reordering the operands of `min!` does not change its result. */
  lemma MinPermutationInvariant<T(!new)>(le: (T, T) -> bool, s: seq<T>, t: seq<T>)
    requires StdCmp.TotalOrder(le) && |s| >= 1 && multiset(s) == multiset(t)
    ensures |t| == |s| && Min(le, s) == Min(le, t)
  {
    assert |t| == |multiset(t)| == |multiset(s)| == |s|;
    forall x
      ensures x in s <==> x in t
    {
      assert x in s <==> x in multiset(s);
      assert x in t <==> x in multiset(t);
    }
    MinIsLeast(le, t);
    MinCharacterized(le, s, Min(le, t));
  }

  /**
    A left fold of a comparator that picks one of its operands, at least as
    large as both, yields the greatest operand.
   */
  lemma {:induction false} LeftFoldIsGreatest<T(!new)>(le: (T, T) -> bool, op: (T, T) -> T, s: seq<T>)
    requires StdCmp.TotalOrder(le) && |s| >= 1
    requires forall a, b :: (op(a, b) == a || op(a, b) == b) && le(a, op(a, b)) && le(b, op(a, b))
    ensures IsGreatest(le, s, LeftFold(op, s))
    decreases |s|
  {
    if |s| > 1 {
      var init := s[..|s| - 1];
      LeftFoldIsGreatest(le, op, init);
      var m := LeftFold(op, init);
      assert LeftFold(op, s) == op(m, s[|s| - 1]);
      forall x | x in init
        ensures x in s
      {
        var i :| 0 <= i < |init| && init[i] == x;
        assert s[i] == x;
      }
      forall x | x in s
        ensures le(x, LeftFold(op, s))
      {
        if x != s[|s| - 1] {
          var i :| 0 <= i < |s| && s[i] == x;
          assert init[i] == x;
        }
      }
    }
  }

  /** Over a total order `max!` agrees with the left-associated fold of `std::cmp::max`. */
  lemma MaxIsLeftFold<T(!new)>(le: (T, T) -> bool, s: seq<T>)
    requires StdCmp.TotalOrder(le) && |s| >= 1
    ensures Max(le, s) == LeftFold((a, b) => StdCmp.Max(le, a, b), s)
  {
    var op := (a, b) => StdCmp.Max(le, a, b);
    LeftFoldIsGreatest(le, op, s);
    MaxCharacterized(le, s, LeftFold(op, s));
  }

  /** Over a total order `min!` agrees with the left-associated fold of `std::cmp::min`. */
  lemma MinIsLeftFold<T(!new)>(le: (T, T) -> bool, s: seq<T>)
    requires StdCmp.TotalOrder(le) && |s| >= 1
    ensures Min(le, s) == LeftFold((a, b) => StdCmp.Min(le, a, b), s)
  {
    var op := (a, b) => StdCmp.Min(le, a, b);
    var ge := StdCmp.Flip(le);
    StdCmp.FlipTotalOrder(le);
    assert forall a, b :: ge(a, b) == le(b, a);
    LeftFoldIsGreatest(ge, op, s);
    MinCharacterized(le, s, LeftFold(op, s));
  }

  /** Nesting `max!` inside `max!` is the same as one flat call. */
  lemma MaxConcat<T(!new)>(le: (T, T) -> bool, s: seq<T>, t: seq<T>)
    requires StdCmp.TotalOrder(le) && |s| >= 1 && |t| >= 1
    ensures Max(le, s + t) == StdCmp.Max(le, Max(le, s), Max(le, t))
  {
    MaxIsGreatest(le, s);
    MaxIsGreatest(le, t);
    MaxCharacterized(le, s + t, StdCmp.Max(le, Max(le, s), Max(le, t)));
  }

  /** Nesting `min!` inside `min!` is the same as one flat call. */
  lemma MinConcat<T(!new)>(le: (T, T) -> bool, s: seq<T>, t: seq<T>)
    requires StdCmp.TotalOrder(le) && |s| >= 1 && |t| >= 1
    ensures Min(le, s + t) == StdCmp.Min(le, Min(le, s), Min(le, t))
  {
    MinIsLeast(le, s);
    MinIsLeast(le, t);
    MinCharacterized(le, s + t, StdCmp.Min(le, Min(le, s), Min(le, t)));
  }

  // ---------------------------------------------------------------------
  // max_partial! and min_partial!
  // ---------------------------------------------------------------------

  /** `max_partial!` is incomparable exactly when its last operand is. */
  lemma {:induction false} MaxPartialPoisonedByLast<T(!new)>(le: (T, T) -> bool, s: seq<Partial<T>>)
    requires |s| >= 1
    ensures MaxPartial(le, s).Incomparable? <==> s[|s| - 1].Incomparable?
    decreases |s|
  {
    if |s| > 1 {
      MaxPartialPoisonedByLast(le, s[1..]);
      assert s[1..][|s| - 2] == s[|s| - 1];
    }
  }

  /** `min_partial!` is incomparable exactly when its last operand is. */
  lemma {:induction false} MinPartialPoisonedByLast<T(!new)>(le: (T, T) -> bool, s: seq<Partial<T>>)
    requires |s| >= 1
    ensures MinPartial(le, s).Incomparable? <==> s[|s| - 1].Incomparable?
    decreases |s|
  {
    if |s| > 1 {
      MinPartialPoisonedByLast(le, s[1..]);
      assert s[1..][|s| - 2] == s[|s| - 1];
    }
  }

  /** When the last operand is comparable, `max_partial!` is `max!` of the comparable operands. */
  lemma {:induction false} MaxPartialSkipsIncomparable<T(!new)>(le: (T, T) -> bool, s: seq<Partial<T>>)
    requires |s| >= 1 && s[|s| - 1].Num?
    ensures |Comparable(s)| >= 1
    ensures MaxPartial(le, s) == PartialMinMax.Num(Max(le, Comparable(s)))
    decreases |s|
  {
    assert s[|s| - 1].value in Comparable(s);
    if |s| > 1 {
      var rest := s[1..];
      assert rest[|rest| - 1] == s[|s| - 1];
      MaxPartialSkipsIncomparable(le, rest);
      if s[0].Num? {
        assert Comparable(s) == [s[0].value] + Comparable(rest);
        assert Comparable(s)[1..] == Comparable(rest);
      } else {
        assert Comparable(s) == Comparable(rest);
      }
    }
  }

  /**
    When the last operand is comparable, `min_partial!` is `min!` of the
    comparable operands (over a total order, which settles ties).
   */
  lemma {:induction false} MinPartialSkipsIncomparable<T(!new)>(le: (T, T) -> bool, s: seq<Partial<T>>)
    requires StdCmp.TotalOrder(le) && |s| >= 1 && s[|s| - 1].Num?
    ensures |Comparable(s)| >= 1
    ensures MinPartial(le, s) == PartialMinMax.Num(Min(le, Comparable(s)))
    decreases |s|
  {
    assert s[|s| - 1].value in Comparable(s);
    if |s| > 1 {
      var rest := s[1..];
      assert rest[|rest| - 1] == s[|s| - 1];
      MinPartialSkipsIncomparable(le, rest);
      if s[0].Num? {
        assert Comparable(s) == [s[0].value] + Comparable(rest);
        assert Comparable(s)[1..] == Comparable(rest);
      } else {
        assert Comparable(s) == Comparable(rest);
      }
    }
  }

  /** With every operand comparable, `max_partial!` gives what `max!` gives. */
  lemma {:induction false} MaxPartialAgreesWithMax<T(!new)>(le: (T, T) -> bool, xs: seq<T>)
    requires |xs| >= 1
    ensures MaxPartial(le, Lift(xs)) == PartialMinMax.Num(Max(le, xs))
    decreases |xs|
  {
    if |xs| > 1 {
      MaxPartialAgreesWithMax(le, xs[1..]);
      assert Lift(xs)[1..] == Lift(xs[1..]);
    }
  }

  /** With every operand comparable, `min_partial!` gives what `min!` gives over a total order. */
  lemma {:induction false} MinPartialAgreesWithMin<T(!new)>(le: (T, T) -> bool, xs: seq<T>)
    requires StdCmp.TotalOrder(le) && |xs| >= 1
    ensures MinPartial(le, Lift(xs)) == PartialMinMax.Num(Min(le, xs))
    decreases |xs|
  {
    if |xs| > 1 {
      MinPartialAgreesWithMin(le, xs[1..]);
      assert Lift(xs)[1..] == Lift(xs[1..]);
    }
  }
}
