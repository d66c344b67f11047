/** What comparison at label precision and the context's rounding guarantee. */
module Precision {
  import opened Decimals
  import opened Maps

  // ---- the label's window

  /** Between two edges around a multiple of `sign`: closed towards zero, open away
      from it, and open on both sides of zero. */
  predicate Between(got: real, sign: int, lo: real, hi: real) {
    if sign > 0 then lo <= got < hi
    else if sign < 0 then lo < got <= hi
    else lo < got < hi
  }

  /** A quantised match is exactly membership in the half-up window of the gold's last
      place, half a unit of that place to either side. */
  lemma WindowIff(got: real, gold: Decimal)
    ensures AtLabelPrecision(got, gold) <==>
            && InContext(gold.coef)
            && Between(got, gold.coef, Shift(gold.coef as real - 0.5, gold.exp),
                       Shift(gold.coef as real + 0.5, gold.exp))
  {
    var c := gold.coef as real;
    var x := Shift(got, -gold.exp);
    ShiftShift(got, -gold.exp, gold.exp);
    ShiftOrder(c - 0.5, x, gold.exp);
    ShiftOrder(x, c + 0.5, gold.exp);
  }

  lemma ThousandFold(x: real, e: int)
    ensures Shift(1000.0 * x, e) == 1000.0 * Shift(x, e) == Shift(x, e + 3)
  {
    ShiftShift(x, 3, e);
    ShiftStep(x, e);
    ShiftStep(x, e + 1);
    ShiftStep(x, e + 2);
    assert Shift(x, 3) == 10.0 * Shift(x, 2) == 100.0 * Shift(x, 1) == 1000.0 * x;
  }

  lemma SmallCount(n: nat)
    requires n < 1000
    ensures DigitCount(n) <= 3
  {
    assert n >= 10 ==> DigitCount(n) == 1 + DigitCount(n / 10);
    assert n >= 100 ==> DigitCount(n / 10) == 1 + DigitCount(n / 10 / 10);
  }

  /** For an eligible gold a match means a relative error of at most 1/2000. */
  lemma RelativeError(got: real, gold: Decimal)
    requires ApproxEligible(gold) && AtLabelPrecision(got, gold)
    ensures 2000.0 * Abs(got - Value(gold)) <= Abs(Value(gold)) && Value(gold) != 0.0
  {
    var c, e := gold.coef as real, gold.exp;
    WindowIff(got, gold);
    var n: nat := if gold.coef < 0 then -gold.coef else gold.coef;
    if n < 1000 {
      SmallCount(StripZeros(n));
      assert false;
    }
    ShiftSum(c, 0.5, e);
    ShiftSum(c, -0.5, e);
    ShiftSum(0.5, -0.5, e);
    ShiftSum(0.5, 0.5, e);
    ShiftZero(e);
    ThousandFold(1.0, e);
    ShiftSum(1000.0, -1000.0, e);
    ShiftOrder(0.0, 1.0, e);
    ShiftOrder(c, 1000.0, e);
    ShiftOrder(-1000.0, c, e);
  }

  // ---- the context's rounding

  lemma {:induction false} AdjustedBounds(x: real)
    requires x > 0.0
    ensures Shift(1.0, Adjusted(x)) <= x < Shift(1.0, Adjusted(x) + 1)
    decreases x < 1.0, if x >= 1.0 then x.Floor else (1.0 / x).Floor
  {
    if x >= 10.0 {
      AdjustedBounds(x / 10.0);
      ShiftStep(1.0, Adjusted(x) - 1);
      ShiftStep(1.0, Adjusted(x));
    } else if x < 1.0 {
      assert 10.0 * x < 1.0 ==> 1.0 / (10.0 * x) == (1.0 / x) / 10.0;
      AdjustedBounds(10.0 * x);
      ShiftStep(1.0, Adjusted(x));
      ShiftStep(1.0, Adjusted(x) + 1);
    } else {
      assert Shift(1.0, 1) == 10.0 * Shift(1.0, 0);
    }
  }

  lemma {:induction false} ShiftGrows(a: int, b: int)
    requires a <= b
    ensures 0.0 < Shift(1.0, a) <= Shift(1.0, b)
    decreases b - a
  {
    ShiftZero(a);
    ShiftOrder(0.0, 1.0, a);
    if a < b {
      ShiftGrows(a, b - 1);
      ShiftStep(1.0, b - 1);
    }
  }

  /** The context's rounding is off by at most half a unit in the last place. */
  lemma CtxHalfUlp(x: real)
    requires x != 0.0
    ensures 2.0 * Abs(Ctx(x) - x) <= Shift(1.0, LastPlace(x))
  {
    var k := LastPlace(x);
    var y := Shift(x, -k);
    var d := RoundHalfEven(y) as real - y;
    ShiftShift(x, -k, k);
    ShiftSum(d, y, k);
    ShiftOrder(d, 0.5, k);
    ShiftOrder(-0.5, d, k);
    ShiftSum(0.5, 0.5, k);
    ShiftSum(0.5, -0.5, k);
    ShiftZero(k);
  }

  /** A rounded result is off by less than one part in 2000, so it keeps its sign. */
  lemma CtxNear(x: real)
    ensures 2000.0 * Abs(Ctx(x) - x) <= Abs(x)
  {
    if x != 0.0 {
      CtxHalfUlp(x);
      var k := LastPlace(x);
      AdjustedBounds(Abs(x));
      ThousandFold(1.0, k);
      ShiftGrows(k + 3, Adjusted(Abs(x)));
    }
  }

  // ---- cadence

  /** A map explains a gold exactly, or at label precision when the gold is eligible. */
  predicate Explains(m: Unary, v: real, gold: Decimal) {
    || UnaryValue(m, v) == Value(gold)
    || (ApproxEligible(gold) && AtLabelPrecision(UnaryValue(m, v), gold))
  }

  lemma RateNear(m: Unary, v: real)
    requires m.Cadence?
    ensures var w := Ctx(v / 100.0) / m.perYear as real; 2000.0 * Abs(UnaryValue(m, v) - w) <= Abs(w)
  {
    CtxNear(Ctx(v / 100.0) / m.perYear as real);
  }

  lemma FrequenciesApart(w: real, f: Frequency, g: Frequency)
    requires f < g
    ensures Abs(w / f as real) >= 2.0 * Abs(w / g as real)
  {
    var p, q := w / f as real, w / g as real;
    assert p == (if f == 2 then w / 2.0 else if f == 4 then w / 4.0 else if f == 12 then w / 12.0
                 else if f == 26 then w / 26.0 else w / 52.0);
    assert q == (if g == 4 then w / 4.0 else if g == 12 then w / 12.0 else if g == 26 then w / 26.0
                 else if g == 52 then w / 52.0 else w / 365.0);
  }

  lemma TooFarApart(x: real, y: real, p: real, q: real, v: real)
    requires 2000.0 * Abs(x - p) <= Abs(p) && 2000.0 * Abs(y - q) <= Abs(q)
    requires Abs(p) >= 2.0 * Abs(q) && p != 0.0
    requires 2000.0 * Abs(x - v) <= Abs(v)
    ensures 2000.0 * Abs(y - v) > Abs(v)
  {
  }

  lemma NonZero(w: real, f: Frequency)
    requires w != 0.0
    ensures w / f as real != 0.0
  {
  }

  /** Two annual-rate maps with different divisors never both explain one gold from one
      nonzero literal, so the cadence a stated rate was divided by is never ambiguous. */
  lemma CadenceUnambiguous(m: Unary, n: Unary, v: real, gold: Decimal)
    requires m.Cadence? && n.Cadence? && m.perYear < n.perYear && v != 0.0
    ensures !(Explains(m, v, gold) && Explains(n, v, gold))
  {
    hide Ctx, Value, Abs;
    if Explains(m, v, gold) && Explains(n, v, gold) {
      var w := Ctx(v / 100.0);
      CtxNear(v / 100.0);
      NonZero(w, m.perYear);
      FrequenciesApart(w, m.perYear, n.perYear);
      RateNear(m, v);
      RateNear(n, v);
      ExplainsNear(m, v, gold);
      ExplainsNear(n, v, gold);
      TooFarApart(UnaryValue(m, v), UnaryValue(n, v), w / m.perYear as real, w / n.perYear as real, Value(gold));
    }
  }

  lemma ExplainsNear(m: Unary, v: real, gold: Decimal)
    requires Explains(m, v, gold)
    ensures 2000.0 * Abs(UnaryValue(m, v) - Value(gold)) <= Abs(Value(gold))
  {
    if UnaryValue(m, v) != Value(gold) {
      RelativeError(UnaryValue(m, v), gold);
    }
  }
}
