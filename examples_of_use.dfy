/**
  Concrete uses of the four macros: integers and a two-field record under
  total orders, and floats, modelled as reals with `Incomparable` for
  not-a-number, under the partial policy.
 */
module MinMaxExamples {
  import StdCmp
  import MinMax
  import PartialMinMax

  function IntLe(a: int, b: int): bool { a <= b }

  function RealLe(a: real, b: real): bool { a <= b }

  /** A record ordered lexicographically by its two numeric fields. */
  datatype Pair = Pair(first: int, second: int)

  function LexLe(a: Pair, b: Pair): bool {
    a.first < b.first || (a.first == b.first && a.second <= b.second)
  }

  lemma IntLeIsTotalOrder()
    ensures StdCmp.TotalOrder(IntLe)
  {
  }

  lemma RealLeIsTotalOrder()
    ensures StdCmp.TotalOrder(RealLe)
  {
  }

  lemma LexLeIsTotalOrder()
    ensures StdCmp.TotalOrder(LexLe)
  {
  }

  /** `max!(1, 5, 7, 2, 4, 9, 3) == 9` and `min!(1, 5, 7, 2, 4, 9, 3) == 1`. */
  lemma SevenIntegers()
    ensures MinMax.Max(IntLe, [1, 5, 7, 2, 4, 9, 3]) == 9
    ensures MinMax.Min(IntLe, [1, 5, 7, 2, 4, 9, 3]) == 1
  {
    IntLeIsTotalOrder();
    MinMax.MaxCharacterized(IntLe, [1, 5, 7, 2, 4, 9, 3], 9);
    MinMax.MinCharacterized(IntLe, [1, 5, 7, 2, 4, 9, 3], 1);
  }

  /** `max!` over three records picks the lexicographically greatest one. */
  lemma ThreeRecords()
    ensures MinMax.Max(LexLe, [Pair(1, 9), Pair(2, 0), Pair(2, -3)]) == Pair(2, 0)
  {
    LexLeIsTotalOrder();
    MinMax.MaxCharacterized(LexLe, [Pair(1, 9), Pair(2, 0), Pair(2, -3)], Pair(2, 0));
  }

  /** `max_partial!` and `min_partial!` over seven comparable floats. */
  lemma SevenFloats()
    ensures MinMax.MaxPartial(RealLe, MinMax.Lift([1.8, 5.8, 7.8, 2.8, 4.8, 9.8, 3.8])) == PartialMinMax.Num(9.8)
    ensures MinMax.MinPartial(RealLe, MinMax.Lift([1.8, 5.8, 7.8, 2.8, 4.8, 9.8, 3.8])) == PartialMinMax.Num(1.8)
  {
    var xs := [1.8, 5.8, 7.8, 2.8, 4.8, 9.8, 3.8];
    RealLeIsTotalOrder();
    MinMax.MaxPartialAgreesWithMax(RealLe, xs);
    MinMax.MinPartialAgreesWithMin(RealLe, xs);
    MinMax.MaxCharacterized(RealLe, xs, 9.8);
    MinMax.MinCharacterized(RealLe, xs, 1.8);
  }

  /** A not-a-number last operand poisons `max_partial!`. */
  lemma NaNLast()
    ensures MinMax.MaxPartial(RealLe, [PartialMinMax.Num(1.8), PartialMinMax.Num(5.8), PartialMinMax.Num(2.8),
                                       PartialMinMax.Num(4.8), PartialMinMax.Num(9.8), PartialMinMax.Num(3.8),
                                       PartialMinMax.Incomparable]).Incomparable?
  {
    MinMax.MaxPartialPoisonedByLast(RealLe, [PartialMinMax.Num(1.8), PartialMinMax.Num(5.8), PartialMinMax.Num(2.8),
                                             PartialMinMax.Num(4.8), PartialMinMax.Num(9.8), PartialMinMax.Num(3.8),
                                             PartialMinMax.Incomparable]);
  }

  /** A not-a-number operand anywhere else is passed over by `max_partial!`. */
  lemma NaNInterior()
    ensures MinMax.MaxPartial(RealLe, [PartialMinMax.Num(1.8), PartialMinMax.Num(5.8), PartialMinMax.Incomparable,
                                       PartialMinMax.Num(2.8), PartialMinMax.Num(4.8), PartialMinMax.Num(9.8),
                                       PartialMinMax.Num(3.8)]) == PartialMinMax.Num(9.8)
  {
    var s := [PartialMinMax.Num(1.8), PartialMinMax.Num(5.8), PartialMinMax.Incomparable,
              PartialMinMax.Num(2.8), PartialMinMax.Num(4.8), PartialMinMax.Num(9.8),
              PartialMinMax.Num(3.8)];
    RealLeIsTotalOrder();
    MinMax.MaxPartialSkipsIncomparable(RealLe, s);
    MinMax.MaxCharacterized(RealLe, MinMax.Comparable(s), 9.8);
  }

  /**
    Unlike `max!`, `max_partial!` depends on the order of its operands, on
    right-associated combination, and on how calls are nested.
   */
  lemma MaxPartialIsOrderSensitive()
    ensures MinMax.MaxPartial(RealLe, [PartialMinMax.Num(1.0), PartialMinMax.Incomparable]).Incomparable?
    ensures MinMax.MaxPartial(RealLe, [PartialMinMax.Incomparable, PartialMinMax.Num(1.0)]) == PartialMinMax.Num(1.0)
    ensures MinMax.MaxPartial(RealLe, [PartialMinMax.Num(2.0), PartialMinMax.Incomparable, PartialMinMax.Num(1.0)])
            == PartialMinMax.Num(2.0)
    ensures MinMax.LeftFold((a, b) => PartialMinMax.Max(RealLe, a, b),
                            [PartialMinMax.Num(2.0), PartialMinMax.Incomparable, PartialMinMax.Num(1.0)])
            == PartialMinMax.Num(1.0)
    ensures PartialMinMax.Max(RealLe,
                              MinMax.MaxPartial(RealLe, [PartialMinMax.Num(2.0), PartialMinMax.Incomparable]),
                              MinMax.MaxPartial(RealLe, [PartialMinMax.Num(1.0)]))
            == PartialMinMax.Num(1.0)
  {
  }
}
