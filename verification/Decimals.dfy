/** Decimal arithmetic as the label builder uses it: finite decimals, the 60-digit
    context every operation rounds to, and comparison at a label's own precision. */
module Decimals {

  /** `getcontext().prec` of the label builder. */
  const PREC := 60

  /** `10^PREC`, the first coefficient with more than 60 digits. */
  const TOO_LONG := 1_000_000_000_000_000_000_000_000_000_000_000_000_000_000_000_000_000_000_000_000

  /** A finite decimal `coef * 10^exp`; the exponent records how it was written. */
  datatype Decimal = Decimal(coef: int, exp: int)

  function Abs(x: real): (a: real)
    ensures a >= 0.0 && (a == x || a == -x)
  {
    if x < 0.0 then -x else x
  }

  /** `x * 10^e`, one factor of ten at a time. */
  function Shift(x: real, e: int): real
    decreases if e < 0 then -e else e
  {
    if e == 0 then x else if e > 0 then 10.0 * Shift(x, e - 1) else Shift(x, e + 1) / 10.0
  }

  function Value(d: Decimal): real {
    Shift(d.coef as real, d.exp)
  }

  // ---- shifting

  lemma ShiftStep(x: real, e: int)
    ensures Shift(x, e + 1) == 10.0 * Shift(x, e)
  {
  }

  lemma {:induction false} ShiftShift(x: real, a: int, b: int)
    ensures Shift(Shift(x, a), b) == Shift(x, a + b)
    decreases if b < 0 then -b else b
  {
    if b > 0 {
      ShiftShift(x, a, b - 1);
      ShiftStep(x, a + b - 1);
    } else if b < 0 {
      ShiftShift(x, a, b + 1);
      ShiftStep(x, a + b);
    }
  }

  lemma {:induction false} ShiftOrder(x: real, y: real, e: int)
    ensures x < y <==> Shift(x, e) < Shift(y, e)
    ensures x == y <==> Shift(x, e) == Shift(y, e)
    decreases if e < 0 then -e else e
  {
    if e > 0 {
      ShiftOrder(x, y, e - 1);
    } else if e < 0 {
      ShiftOrder(x, y, e + 1);
    }
  }

  lemma {:induction false} ShiftSum(x: real, y: real, e: int)
    ensures Shift(x + y, e) == Shift(x, e) + Shift(y, e)
    decreases if e < 0 then -e else e
  {
    if e > 0 {
      ShiftSum(x, y, e - 1);
    } else if e < 0 {
      ShiftSum(x, y, e + 1);
    }
  }

  lemma {:induction false} ShiftZero(e: int)
    ensures Shift(0.0, e) == 0.0
    decreases if e < 0 then -e else e
  {
    if e > 0 {
      ShiftZero(e - 1);
    } else if e < 0 {
      ShiftZero(e + 1);
    }
  }

  // ---- rounding

  /** The exponent of the leading digit. */
  function Adjusted(x: real): (e: int)
    requires x > 0.0
    decreases x < 1.0, if x >= 1.0 then x.Floor else (1.0 / x).Floor
  {
    if x >= 10.0 then Adjusted(x / 10.0) + 1
    else if x < 1.0 then
      assert 10.0 * x < 1.0 ==> 1.0 / (10.0 * x) == (1.0 / x) / 10.0;
      Adjusted(10.0 * x) - 1
    else 0
  }

  /** Nearest integer, ties to even: the rounding of the context. */
  function RoundHalfEven(x: real): int {
    var f := x.Floor;
    var d := x - f as real;
    if d < 0.5 || (d == 0.5 && f % 2 == 0) then f else f + 1
  }

  /** Nearest integer, ties away from zero: ROUND_HALF_UP. */
  function RoundHalfUp(x: real): int {
    if x >= 0.0 then (x + 0.5).Floor else -((-x + 0.5).Floor)
  }

  /** The exponent of the last of the 60 significant digits of `x`. */
  function LastPlace(x: real): int
    requires x != 0.0
  {
    Adjusted(Abs(x)) - (PREC - 1)
  }

  /** The result of any context operation: `x` to 60 significant digits. */
  function Ctx(x: real): real {
    if x == 0.0 then 0.0 else Shift(RoundHalfEven(Shift(x, -LastPlace(x))) as real, LastPlace(x))
  }

  // ---- comparison at the label's own precision

  /** A coefficient of at most 60 digits. */
  predicate InContext(q: int) {
    -TOO_LONG < q < TOO_LONG
  }

  /** `got` quantised half-up to the exponent of `gold` equals `gold`. A quantised
      coefficient of more than 60 digits is an invalid operation, hence no match. */
  predicate AtLabelPrecision(got: real, gold: Decimal) {
    var q := RoundHalfUp(Shift(got, -gold.exp));
    InContext(q) && q == gold.coef
  }

  /** Equality of a decoded number and a gold one. */
  predicate NumEq(got: real, gold: Decimal) {
    got == Value(gold) || AtLabelPrecision(got, gold)
  }

  function StripZeros(n: nat): (m: nat)
    ensures m <= n && (n > 0 ==> m > 0)
  {
    if n > 0 && n % 10 == 0 then StripZeros(n / 10) else n
  }

  function DigitCount(n: nat): (k: nat)
  {
    if n < 10 then 1 else 1 + DigitCount(n / 10)
  }

  /** The magnitude of a coefficient after the context's rounding. */
  function RoundedCoef(c: nat): nat {
    if c < TOO_LONG then c
    else
      var r := RoundHalfEven(Shift(c as real, -LastPlace(c as real)));
      if r < 0 then 0 else r
  }

  /** How many digits are left once the trailing zeros are gone. */
  function SigDigits(d: Decimal): nat {
    DigitCount(StripZeros(RoundedCoef(if d.coef < 0 then -d.coef else d.coef)))
  }

  /** A gold that may have been rounded from a longer exact value. */
  predicate ApproxEligible(d: Decimal) {
    d.exp < 0 && SigDigits(d) >= 4
  }
}
