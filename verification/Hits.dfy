/** When a literal explains a number: which maps may be used on it, the rule for zero, and which
    numbers may be matched at their own precision only. */
module Hits {
  import opened Corpus
  import opened Decimals
  import opened MapLaws
  import opened Maps
  import opened Parity

  /** The map may read the literal, and makes `x` of it. */
  predicate Reads(lit: Lit, p: MapIndex, x: real) {
    Applies(UnaryMap(p), lit.tag) && UnaryValue(UnaryMap(p), lit.value) == x
  }

  /** A number is explained exactly by the literals that a map turns into it; zero only by zero. */
  lemma ExactRule(v: Decimal, lit: Lit, p: MapIndex)
    ensures ExactHit(v, lit, p) <==> Reads(lit, p, Value(v)) && (Value(v) != 0.0 || lit.value == 0.0)
  {
    hide UnaryValue, UnaryMap, Applies;
  }

  /** A literal that states the number explains it whatever its unit, through the first map. */
  lemma StatedHits(v: Decimal, lit: Lit)
    requires lit.value == Value(v)
    ensures ExactHit(v, lit, 0)
  {
    hide Value;
  }

  /** `x` is `k` with the point moved. */
  predicate Moved(k: nat, j: int, x: real) {
    Shift(k as real, j) == x
  }

  /** At most three significant digits. */
  ghost predicate FewDigits(x: real) {
    exists k: nat, j: int :: k < 1000 && Moved(k, j, x)
  }

  /** What is explained at label precision only: a number with places after the point and at least
      four significant digits, in whose half-up window the map's result lies without being it. */
  lemma NearRule(v: Decimal, lit: Lit, p: MapIndex)
    ensures ApproxHit(v, lit, p) <==>
      exists x :: Reads(lit, p, x) && x != Value(v) && AtLabelPrecision(x, v) && Value(v) != 0.0 && v.exp < 0 &&
        !FewDigits(Abs(Ctx(v.coef as real)))
  {
    hide UnaryValue, UnaryMap, Applies, Value, AtLabelPrecision, ApproxEligible, FewDigits;
    EligibleRule(v);
    if ApproxHit(v, lit, p) {
      assert Reads(lit, p, UnaryValue(UnaryMap(p), lit.value));
    }
  }

  // ---- significant digits

  lemma {:induction false} Stripped(n: nat) returns (i: nat)
    ensures Shift(StripZeros(n) as real, i) == n as real && (n > 0 ==> StripZeros(n) % 10 != 0)
    decreases n
  {
    i := 0;
    if n > 0 && n % 10 == 0 {
      i := Stripped(n / 10);
      i := i + 1;
    }
  }

  lemma Count(n: nat)
    ensures DigitCount(n) >= 4 <==> n >= 1000
  {
    assert n >= 10 ==> DigitCount(n) == 1 + DigitCount(n / 10);
    assert n >= 100 ==> DigitCount(n / 10) == 1 + DigitCount(n / 10 / 10);
    assert n >= 1000 ==> DigitCount(n / 10 / 10) == 1 + DigitCount(n / 10 / 10 / 10);
  }

  lemma NoTail(k: nat, n: nat)
    requires n > 0
    ensures Shift(k as real, n) == Shift(k as real, n).Floor as real && Shift(k as real, n).Floor % 10 == 0
  {
    hide Shift;
    ShiftInteger(k, n - 1);
    ShiftStep(k as real, n - 1);
    assert Shift(k as real, n) == (10 * Shift(k as real, n - 1).Floor) as real;
  }

  lemma {:induction false} AtLeast(m: nat, n: nat)
    ensures Shift(m as real, n) >= m as real
    decreases n
  {
    if n > 0 {
      AtLeast(m, n - 1);
    }
  }

  /** An integer without trailing zeros is the smallest that a power of ten takes to its value. */
  lemma Smallest(m: nat, e: int, k: nat, j: int)
    requires m % 10 != 0 && Shift(m as real, e) == Shift(k as real, j)
    ensures m <= k
  {
    hide Shift;
    if j >= e {
      ShiftShift(k as real, j - e, e);
      ShiftOrder(m as real, Shift(k as real, j - e), e);
      ShiftByZero(k as real);
      if j > e {
        NoTail(k, j - e);
      }
    } else {
      ShiftShift(m as real, e - j, j);
      ShiftOrder(Shift(m as real, e - j), k as real, j);
      AtLeast(m, e - j);
    }
  }

  lemma TooLong()
    ensures Shift(1.0, PREC) == TOO_LONG as real
  {
    assert Shift(1.0, 20) == 100_000_000_000_000_000_000.0 by {
      Ten(1.0);
      Ten(10_000_000_000.0);
      ShiftShift(1.0, 10, 10);
    }
    Ten(100_000_000_000_000_000_000.0);
    Ten(1_000_000_000_000_000_000_000_000_000_000.0);
    Ten(10_000_000_000_000_000_000_000_000_000_000_000_000_000.0);
    Ten(100_000_000_000_000_000_000_000_000_000_000_000_000_000_000_000_000.0);
    ShiftShift(1.0, 20, 10);
    ShiftShift(1.0, 30, 10);
    ShiftShift(1.0, 40, 10);
    ShiftShift(1.0, 50, 10);
  }

  /** A coefficient fits the context when it has at most sixty digits. */
  lemma FitsContext(q: int)
    ensures InContext(q) <==> Short(q)
  {
    hide Shift;
    TooLong();
  }

  lemma Ten(x: real)
    ensures Shift(x, 10) == 10_000_000_000.0 * x
  {
    assert Shift(x, 5) == 100_000.0 * x;
    assert Shift(Shift(x, 5), 5) == 100_000.0 * Shift(x, 5);
    ShiftShift(x, 5, 5);
  }

  /** Rounding a coefficient leaves its rounded digits, moved to their place. */
  lemma RoundedIs(n: nat) returns (l: int)
    ensures Shift(RoundedCoef(n) as real, l) == Ctx(n as real)
  {
    hide Shift, LastPlace, RoundHalfEven;
    l := 0;
    ShiftByZero(n as real);
    TooLong();
    if n < TOO_LONG {
      CtxKeeps(n, 0);
    } else {
      l := LastPlace(n as real);
      RoundedSign(n as real, l);
    }
  }

  lemma RoundedSign(x: real, l: int)
    requires x >= 0.0
    ensures RoundHalfEven(Shift(x, -l)) >= 0
  {
    hide Shift;
    ShiftZero(-l);
    ShiftOrder(x, 0.0, -l);
  }

  lemma CtxSign(n: int)
    ensures Abs(Ctx(n as real)) == Ctx((if n < 0 then -n else n) as real)
  {
    hide Ctx, Shift;
    CtxOdd(n as real);
    var m: nat := if n < 0 then -n else n;
    var l := RoundedIs(m);
    ShiftZero(l);
    ShiftOrder(RoundedCoef(m) as real, 0.0, l);
  }

  /** A number may have been rounded when it has places after the point and at least four significant
      digits; trailing zeros and the place of the point do not count. */
  lemma EligibleRule(d: Decimal)
    ensures ApproxEligible(d) <==> d.exp < 0 && !FewDigits(Abs(Ctx(d.coef as real)))
  {
    hide Shift, Ctx, StripZeros, DigitCount, RoundedCoef;
    var n: nat := if d.coef < 0 then -d.coef else d.coef;
    CtxSign(d.coef);
    var r := RoundedCoef(n);
    var l := RoundedIs(n);
    var m := StripZeros(r);
    var i := Stripped(r);
    ShiftShift(m as real, i, l);
    Count(m);
    if m < 1000 {
      assert Moved(m, i + l, Abs(Ctx(d.coef as real)));
    } else {
      ManyDigits(m, i + l, Abs(Ctx(d.coef as real)));
    }
  }

  lemma ManyDigits(m: nat, e: int, x: real)
    requires m >= 1000 && m % 10 != 0 && Moved(m, e, x)
    ensures !FewDigits(x)
  {
    hide Shift;
    forall k: nat, j: int | Moved(k, j, x) ensures k >= 1000 {
      Smallest(m, e, k, j);
    }
  }
}
