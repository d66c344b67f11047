/** What the map table computes, in numbers: results of at most sixty digits are exact, opposite
    maps undo each other, and one figure goes through every map. */
module MapLaws {
  import opened Decimals
  import opened Maps
  import opened Parity
  import opened Precision

  /** At most sixty digits. */
  ghost predicate Short(n: int) {
    Abs(n as real) < Shift(1.0, PREC)
  }

  /** The context rounds nothing of at most sixty digits. */
  lemma CtxKeeps(n: int, e: int)
    requires Short(n)
    ensures Ctx(Shift(n as real, e)) == Shift(n as real, e)
  {
    hide Shift, RoundHalfEven, Adjusted;
    var x := Shift(n as real, e);
    if x != 0.0 {
      var k := LastPlace(x);
      FewPlaces(n, e);
      ShiftInteger(n, e - k);
      ShiftShift(n as real, e, -k);
      ShiftShift(n as real, e - k, k);
      WholeRounds(Shift(n as real, e - k).Floor);
    }
  }

  /** The context rounds to a nearest integer of its last place, on a tie to the even one. */
  lemma TiesToEven(x: real, j: int)
    requires j != RoundHalfEven(x)
    ensures Abs(x - RoundHalfEven(x) as real) <= Abs(x - j as real)
    ensures Abs(x - RoundHalfEven(x) as real) == Abs(x - j as real) ==> RoundHalfEven(x) % 2 == 0
  {
  }

  lemma WholeRounds(n: int)
    ensures RoundHalfEven(n as real) == n
  {
  }

  /** The sixtieth digit of such a number is no coarser than its own last place. */
  lemma FewPlaces(n: int, e: int)
    requires Short(n) && Shift(n as real, e) != 0.0
    ensures LastPlace(Shift(n as real, e)) <= e
  {
    hide Shift, Adjusted;
    var x := Shift(n as real, e);
    ShiftMagnitude(n as real, e);
    ShiftOrder(Abs(n as real), Shift(1.0, PREC), e);
    ShiftShift(1.0, PREC, e);
    AdjustedBounds(Abs(x));
    if Adjusted(Abs(x)) >= PREC + e {
      ShiftGrows(PREC + e, Adjusted(Abs(x)));
    }
  }

  lemma ShiftMagnitude(x: real, e: int)
    ensures Abs(Shift(x, e)) == Shift(Abs(x), e)
  {
    hide Shift;
    ShiftOdd(x, e);
    ShiftZero(e);
    ShiftOrder(0.0, x, e);
    ShiftOrder(x, 0.0, e);
  }

  /** Whole numbers below a billion are exact. */
  lemma WholeKept(n: int)
    requires -1_000_000_000 < n < 1_000_000_000
    ensures Ctx(n as real) == n as real
  {
    hide Ctx;
    Billion();
    ShiftGrows(9, PREC);
    ShiftByZero(n as real);
    CtxKeeps(n, 0);
  }

  lemma Billion()
    ensures Shift(1.0, 9) == 1_000_000_000.0
  {
    assert Shift(1.0, 3) == 1_000.0;
    assert Shift(1_000.0, 3) == 1_000_000.0;
    assert Shift(1_000_000.0, 3) == 1_000_000_000.0;
    ShiftShift(1.0, 3, 3);
    ShiftShift(1.0, 6, 3);
  }

  // ---- opposite maps

  /** A figure times `f` has at most sixty digits. */
  ghost predicate RoomFor(d: Decimal, f: nat) {
    Short(d.coef) && Short(d.coef * f)
  }

  lemma {:induction false} ShiftTimes(x: real, f: real, e: int)
    ensures Shift(x * f, e) == Shift(x, e) * f
    decreases if e < 0 then -e else e
  {
    if e > 0 {
      ShiftTimes(x, f, e - 1);
      Regroup(Shift(x, e - 1), f);
    } else if e < 0 {
      ShiftTimes(x, f, e + 1);
      Regroup(Shift(x, e + 1), f);
    }
  }

  lemma Regroup(y: real, f: real)
    ensures 10.0 * (y * f) == (10.0 * y) * f && (y * f) / 10.0 == (y / 10.0) * f
  {
  }

  lemma Scaled(d: Decimal, f: nat)
    requires RoomFor(d, f)
    ensures Ctx(Value(d) * f as real) == Value(d) * f as real && Ctx(Value(d)) == Value(d)
  {
    hide Ctx, Shift, Value;
    ValueIs(d);
    CtxKeeps(d.coef, d.exp);
    CtxKeeps(d.coef * f, d.exp);
    TimesWhole(d.coef, f, d.exp);
    SameRounding(Value(d) * f as real, Shift((d.coef * f) as real, d.exp));
  }

  lemma SameRounding(x: real, y: real)
    requires x == y && Ctx(y) == y
    ensures Ctx(x) == x
  {
  }

  lemma ValueIs(d: Decimal)
    ensures Value(d) == Shift(d.coef as real, d.exp)
  {
  }

  lemma TimesWhole(n: int, f: nat, e: int)
    ensures Shift((n * f) as real, e) == Shift(n as real, e) * f as real
  {
    hide Shift;
    ProductAsReal(n, f);
    var x := n as real * f as real;
    ShiftTimes(n as real, f as real, e);
    assert (n * f) as real == x;
  }

  lemma {:induction false} ProductAsReal(n: int, f: nat)
    ensures (n * f) as real == n as real * f as real
    decreases f
  {
    if f > 0 {
      ProductAsReal(n, f - 1);
    }
  }

  lemma BackAgain(v: real, f: real)
    requires f > 0.0
    ensures v * f / f == v
  {
  }

  /** Maps that undo each other on every figure whose multiple has at most sixty digits: times a
      hundred and over a hundred, times a thousand and over a thousand, years to months and back,
      and changing the sign twice. */
  lemma Undo(d: Decimal)
    requires RoomFor(d, 1000)
    ensures UnaryValue(PerHundred, UnaryValue(TimesHundred, Value(d))) == Value(d)
    ensures UnaryValue(PercentOf, UnaryValue(TimesHundred, Value(d))) == Value(d)
    ensures UnaryValue(PerThousand, UnaryValue(TimesThousand, Value(d))) == Value(d)
    ensures UnaryValue(MonthsToYears, UnaryValue(YearsTimes(12), Value(d))) == Value(d)
    ensures UnaryValue(Negate, UnaryValue(Negate, Value(d))) == Value(d)
  {
    hide Ctx, Value;
    Smaller(d, 100, 1000);
    Smaller(d, 12, 1000);
    Scaled(d, 1000);
    Scaled(d, 100);
    Scaled(d, 12);
    CtxOdd(Value(d));
    BackAgain(Value(d), 100.0);
    BackAgain(Value(d), 1000.0);
    BackAgain(Value(d), 12.0);
  }

  lemma Smaller(d: Decimal, f: nat, g: nat)
    requires RoomFor(d, g) && f <= g
    ensures RoomFor(d, f)
  {
    hide Shift;
    Products(d.coef, f, g);
  }

  lemma Products(n: int, f: nat, g: nat)
    requires f <= g
    ensures Abs((n * f) as real) <= Abs((n * g) as real)
  {
    if n >= 0 {
      assert n * f <= n * g;
    } else {
      assert n * f >= n * g;
    }
  }

  // ---- the table, in figures

  /** The map at `p` makes `r` of a literal of 5,694,000. */
  predicate Makes(p: MapIndex, r: int) {
    UnaryValue(UnaryMap(p), 5_694_000.0) == r as real
  }

  /** Plain, percent and rate maps. */
  lemma RateFigures()
    ensures Makes(0, 5_694_000) && Makes(1, 56_940) && Makes(2, 56_940)
    ensures Makes(3, 4_745) && Makes(4, 28_470) && Makes(5, 14_235)
    ensures Makes(6, 1_095) && Makes(7, 2_190) && Makes(8, 156) && Makes(9, 474_500)
  {
    hide Ctx;
    WholeKept(56_940);
    WholeKept(4_745);
    WholeKept(28_470);
    WholeKept(14_235);
    WholeKept(1_095);
    WholeKept(2_190);
    WholeKept(156);
    WholeKept(474_500);
  }

  /** Time, sign, complement and scale maps. */
  lemma OtherFigures()
    ensures Makes(10, 68_328_000) && Makes(11, 22_776_000) && Makes(12, 296_088_000) && Makes(13, 148_044_000)
    ensures Makes(14, 474_500) && UnaryValue(UnaryMap(15), 5_694.0) == 2_078_310.0
    ensures Makes(16, -5_694_000) && Makes(17, -56_939) && Makes(18, -5_693_999)
    ensures Makes(19, 569_400_000) && UnaryValue(UnaryMap(20), 5_694.0) == 5_694_000.0 && Makes(21, 5_694)
  {
    hide Ctx;
    WholeKept(68_328_000);
    WholeKept(22_776_000);
    WholeKept(296_088_000);
    WholeKept(148_044_000);
    WholeKept(474_500);
    WholeKept(2_078_310);
    WholeKept(-5_694_000);
    WholeKept(56_940);
    WholeKept(-56_939);
    WholeKept(-5_693_999);
    WholeKept(569_400_000);
    WholeKept(5_694_000);
    WholeKept(5_694);
  }

  /** The two-literal maps of 300 and 60. */
  lemma PairFigures()
    ensures BinaryValue(BinaryMap(0), 300.0, 60.0) == 240.0 && BinaryValue(BinaryMap(1), 300.0, 60.0) == 360.0
    ensures BinaryValue(BinaryMap(2), 300.0, 200.0) == -300.0 && BinaryValue(BinaryMap(3), 300.0, 200.0) == 600.0
    ensures BinaryValue(BinaryMap(4), 300.0, 60.0) == 2_880.0 && BinaryValue(BinaryMap(5), 300.0, 60.0) == 3_540.0
  {
    hide Ctx;
    WholeKept(240);
    WholeKept(360);
    WholeKept(-1);
    WholeKept(2);
    WholeKept(-300);
    WholeKept(600);
    WholeKept(3_600);
    WholeKept(720);
    WholeKept(2_880);
    WholeKept(3_540);
  }

  /** Percent and rate maps read percentages only, the conversions of years read years (to months
      also bare numbers), months to years reads months and bare numbers, and every other map reads
      any literal. */
  lemma ReadTags(t: Tag)
    ensures forall p: MapIndex :: p in {1, 3, 4, 5, 6, 7, 8, 17} ==> (Applies(UnaryMap(p), t) <==> t == PercentTag)
    ensures forall p: MapIndex :: p in {11, 12, 13, 15} ==> (Applies(UnaryMap(p), t) <==> t == YearsTag)
    ensures Applies(UnaryMap(10), t) <==> t in {YearsTag, BareTag}
    ensures Applies(UnaryMap(14), t) <==> t in {MonthsTag, BareTag}
    ensures forall p: MapIndex :: p in {0, 2, 9, 16, 18, 19, 20, 21} ==> Applies(UnaryMap(p), t)
    ensures forall q: BinaryIndex :: q in {2, 3} ==> (BinaryApplies(BinaryMap(q), t) <==> t == PercentTag)
    ensures forall q: BinaryIndex :: q in {0, 1, 4, 5} ==> BinaryApplies(BinaryMap(q), t)
  {
  }
}
