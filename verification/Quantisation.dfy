/** Simulated 8-bit quantisation of a key/value stream at five granularities, over the
    reals: the error each scheme can make, and that every scheme sees every value once. */
module Quantisation {

  // ---- arithmetic kept apart from the loops

  function Sq(x: real): (y: real)
    ensures y >= 0.0
  {
    x * x
  }

  function Abs(x: real): (y: real)
    ensures y >= 0.0
  {
    if x < 0.0 then -x else x
  }

  function Max(x: real, y: real): real {
    if x < y then y else x
  }

  function Min(x: real, y: real): real {
    if y < x then y else x
  }

  /** Nearest integer, ties away from zero. */
  function Round(x: real): int {
    if x >= 0.0 then (x + 0.5).Floor else -((-x + 0.5).Floor)
  }

  /** `n * x`, one addition at a time. */
  function Times(n: nat, x: real): real {
    if n == 0 then 0.0 else Times(n - 1, x) + x
  }

  lemma {:induction false} TimesIsProduct(n: nat, x: real)
    ensures Times(n, x) == n as real * x
    decreases n
  {
    if n > 0 {
      TimesIsProduct(n - 1, x);
      assert n as real * x == (n - 1) as real * x + x;
    }
  }

  lemma {:induction false} TimesSum(n: nat, x: real, y: real)
    ensures Times(n, x + y) == Times(n, x) + Times(n, y)
    decreases n
  {
    if n > 0 {
      TimesSum(n - 1, x, y);
    }
  }

  lemma {:induction false} TimesMonotone(m: nat, n: nat, x: real, y: real)
    requires m <= n && 0.0 <= x <= y
    ensures 0.0 <= Times(m, x) <= Times(n, y)
    decreases n
  {
    if m < n {
      TimesMonotone(m, n - 1, x, y);
    } else if n > 0 {
      TimesMonotone(m - 1, n - 1, x, y);
    }
  }

  lemma ScaleOrder(a: real, b: real, s: real)
    requires s > 0.0
    ensures a < b <==> a * s < b * s
    ensures a <= b <==> a * s <= b * s
  {
    if a < b {
      assert (b - a) * s > 0.0;
    } else {
      assert (a - b) * s >= 0.0;
    }
  }

  lemma SqOfAbs(a: real)
    ensures Sq(a) == Abs(a) * Abs(a)
  {
  }

  lemma SqOrder(a: real, b: real)
    requires Abs(a) <= Abs(b)
    ensures Sq(a) <= Sq(b)
  {
    hide Sq;
    SqOfAbs(a);
    SqOfAbs(b);
    SquaresOrder(Abs(a), Abs(b));
  }

  lemma SquaresOrder(x: real, y: real)
    requires 0.0 <= x <= y
    ensures x * x <= y * y
  {
    if x > 0.0 {
      ScaleOrder(x, y, x);
      ScaleOrder(x, y, y);
    }
  }

  lemma SqScale(k: real, a: real)
    ensures Sq(k * a) == k * k * Sq(a)
  {
    assert (k * a) * (k * a) == k * k * (a * a);
  }

  // ---- the quantisers

  function Clamp(q: int, lo: int, hi: int): int {
    var up := if q < hi then q else hi;
    if up < lo then lo else up
  }

  /** Symmetric: a multiple of the step, at most 127 steps from zero. */
  function QuantSym(x: real, s: real): real {
    if s == 0.0 then 0.0 else Clamp(Round(x / s), -127, 127) as real * s
  }

  /** Affine: the minimum plus at most 255 steps. */
  function QuantAffine(x: real, mn: real, mx: real): real {
    var s := (mx - mn) / 255.0;
    if s == 0.0 then mn else mn + Clamp(Round((x - mn) / s), 0, 255) as real * s
  }

  lemma RoundNear(y: real, lo: int, hi: int)
    requires lo as real <= y <= hi as real
    ensures lo <= Round(y) <= hi && -0.5 <= Round(y) as real - y <= 0.5
  {
  }

  lemma OnGrid(x: real, s: real, q: real)
    requires s > 0.0 && -0.5 <= q - x / s <= 0.5
    ensures Abs(q * s - x) <= s / 2.0
  {
    var d := q - x / s;
    ScaleOrder(d, 0.5, s);
    ScaleOrder(-0.5, d, s);
    GridStep(x, s, q);
  }

  lemma GridStep(x: real, s: real, q: real)
    requires s > 0.0
    ensures (q - x / s) * s == q * s - x
  {
  }

  lemma Quotient(x: real, s: real, lo: real, hi: real)
    requires s > 0.0 && lo * s <= x <= hi * s
    ensures lo <= x / s <= hi
  {
    ScaleOrder(lo, x / s, s);
    ScaleOrder(x / s, hi, s);
  }

  /** A value within its block's range is off by at most half a step. */
  lemma SymHalfStep(x: real, am: real)
    requires Abs(x) <= am
    ensures Abs(x - QuantSym(x, am / 127.0)) <= am / 254.0
  {
    var s := am / 127.0;
    if s != 0.0 {
      Quotient(x, s, -127.0, 127.0);
      RoundNear(x / s, -127, 127);
      OnGrid(x, s, Round(x / s) as real);
    }
  }

  lemma AffineHalfStep(x: real, mn: real, mx: real)
    requires mn <= x <= mx
    ensures Abs(x - QuantAffine(x, mn, mx)) <= (mx - mn) / 510.0
  {
    var s := (mx - mn) / 255.0;
    if s != 0.0 {
      Quotient(x - mn, s, 0.0, 255.0);
      RoundNear((x - mn) / s, 0, 255);
      OnGrid(x - mn, s, Round((x - mn) / s) as real);
    }
  }

  // ---- quantised values lie on the grid

  /** Rounding picks a nearest integer, away from zero on a tie. */
  lemma RoundNearest(y: real, j: int)
    ensures Abs(y - Round(y) as real) <= Abs(y - j as real)
    ensures j != Round(y) && Abs(y - Round(y) as real) == Abs(y - j as real) ==>
      Abs(j as real) < Abs(Round(y) as real)
  {
  }

  lemma ClampNearest(y: real, lo: int, hi: int, j: int)
    requires lo <= j <= hi
    ensures lo <= Clamp(Round(y), lo, hi) <= hi
    ensures Abs(y - Clamp(Round(y), lo, hi) as real) <= Abs(y - j as real)
  {
    RoundNearest(y, j);
  }

  /** `q` steps. */
  function Steps(q: int, s: real): real {
    q as real * s
  }

  lemma StepsAway(x: real, s: real, q: int)
    requires s > 0.0
    ensures Abs(x - Steps(q, s)) == Abs(x / s - q as real) * s
  {
    var d := x / s - q as real;
    GridStep(x, s, q as real);
    Opposite(d, s, x, q as real);
    ScaleOrder(d, 0.0, s);
  }

  lemma Opposite(d: real, s: real, x: real, q: real)
    requires s > 0.0 && d == x / s - q
    ensures d * s == x - q * s
  {
    assert (x / s) * s == x;
  }

  lemma Nearer(x: real, s: real, q: int, j: int)
    requires s > 0.0 && Abs(x / s - q as real) <= Abs(x / s - j as real)
    ensures Abs(x - Steps(q, s)) <= Abs(x - Steps(j, s))
  {
    hide Abs, Steps;
    StepsAway(x, s, q);
    StepsAway(x, s, j);
    ScaleOrder(Abs(x / s - q as real), Abs(x / s - j as real), s);
  }

  lemma SymIs(x: real, s: real)
    requires s > 0.0
    ensures QuantSym(x, s) == Steps(Clamp(Round(x / s), -127, 127), s)
  {
    hide Clamp, Round;
  }

  lemma AffineIs(x: real, mn: real, mx: real)
    requires mn < mx
    ensures var s := (mx - mn) / 255.0;
      s > 0.0 && QuantAffine(x, mn, mx) == mn + Steps(Clamp(Round((x - mn) / s), 0, 255), s)
  {
    hide Clamp, Round;
  }

  /** Symmetric quantisation answers a multiple of the step, at most 127 steps from zero, and
      no other such multiple is nearer. */
  lemma SymGrid(x: real, s: real, j: int) returns (q: int)
    requires s > 0.0 && -127 <= j <= 127
    ensures -127 <= q <= 127 && QuantSym(x, s) == Steps(q, s)
    ensures Abs(x - QuantSym(x, s)) <= Abs(x - Steps(j, s))
  {
    hide Clamp, Round, Abs, QuantSym, Steps;
    q := Clamp(Round(x / s), -127, 127);
    SymIs(x, s);
    ClampNearest(x / s, -127, 127, j);
    Nearer(x, s, q, j);
  }

  /** Affine quantisation answers the minimum plus 0 to 255 steps, the nearest of them. */
  lemma AffineGrid(x: real, mn: real, mx: real, j: int) returns (q: int)
    requires mn < mx && 0 <= j <= 255
    ensures var s := (mx - mn) / 255.0;
      && 0 <= q <= 255 && QuantAffine(x, mn, mx) == mn + Steps(q, s)
      && Abs(x - QuantAffine(x, mn, mx)) <= Abs(x - (mn + Steps(j, s)))
  {
    hide Clamp, Round, Abs, QuantAffine, Steps;
    var s := (mx - mn) / 255.0;
    AffineIs(x, mn, mx);
    q := Clamp(Round((x - mn) / s), 0, 255);
    ClampNearest((x - mn) / s, 0, 255, j);
    Nearer(x - mn, s, q, j);
    Moved(x, mn, Steps(q, s));
    Moved(x, mn, Steps(j, s));
  }

  lemma Moved(x: real, mn: real, y: real)
    ensures x - mn - y == x - (mn + y)
  {
  }

  /** A block without spread is left as it is. */
  lemma NoSpread(x: real, mn: real)
    ensures QuantSym(x, 0.0) == 0.0 && QuantAffine(x, mn, mn) == mn
  {
  }

  /** 254 times the error is at most the block's largest magnitude. */
  lemma SymSquared(x: real, am: real)
    requires Abs(x) <= am
    ensures 64516.0 * Sq(x - QuantSym(x, am / 127.0)) <= Sq(am)
  {
    var d := x - QuantSym(x, am / 127.0);
    SymHalfStep(x, am);
    SqOrder(254.0 * d, am);
    SqScale(254.0, d);
  }

  /** 510 times the error is at most the block's range. */
  lemma AffineSquared(x: real, mn: real, mx: real)
    requires mn <= x <= mx
    ensures 260100.0 * Sq(x - QuantAffine(x, mn, mx)) <= Sq(mx - mn)
  {
    var d := x - QuantAffine(x, mn, mx);
    AffineHalfStep(x, mn, mx);
    SqOrder(510.0 * d, mx - mn);
    SqScale(510.0, d);
  }

  lemma RangeSquared(mn: real, mx: real)
    ensures Sq(mx - mn) <= 2.0 * (Sq(mn) + Sq(mx))
  {
    var sum := mx + mn;
    assert sum * sum == mx * mx + 2.0 * (mx * mn) + mn * mn;
    assert (mx - mn) * (mx - mn) == mx * mx - 2.0 * (mx * mn) + mn * mn;
    assert Sq(sum) >= 0.0;
  }

  // ---- what a block contributes

  function SumSq(xs: seq<real>): (y: real)
    ensures y >= 0.0
  {
    if xs == [] then 0.0 else SumSq(xs[..|xs| - 1]) + Sq(xs[|xs| - 1])
  }

  function SymErr(xs: seq<real>, s: real): real {
    if xs == [] then 0.0 else SymErr(xs[..|xs| - 1], s) + Sq(xs[|xs| - 1] - QuantSym(xs[|xs| - 1], s))
  }

  function AffineErr(xs: seq<real>, mn: real, mx: real): real {
    if xs == [] then 0.0 else AffineErr(xs[..|xs| - 1], mn, mx) + Sq(xs[|xs| - 1] - QuantAffine(xs[|xs| - 1], mn, mx))
  }

  function AbsMax(xs: seq<real>): (y: real)
    ensures y >= 0.0
  {
    if xs == [] then 0.0 else Max(AbsMax(xs[..|xs| - 1]), Abs(xs[|xs| - 1]))
  }

  function Least(xs: seq<real>): real
    requires xs != []
  {
    if |xs| == 1 then xs[0] else Min(Least(xs[..|xs| - 1]), xs[|xs| - 1])
  }

  function Greatest(xs: seq<real>): real
    requires xs != []
  {
    if |xs| == 1 then xs[0] else Max(Greatest(xs[..|xs| - 1]), xs[|xs| - 1])
  }

  lemma {:induction false} SumSqOf(xs: seq<real>, i: nat)
    requires i < |xs|
    ensures Sq(xs[i]) <= SumSq(xs)
    decreases |xs|
  {
    hide Sq;
    if i < |xs| - 1 {
      SumSqOf(xs[..|xs| - 1], i);
    }
  }

  lemma {:induction false} SumSqOfTwo(xs: seq<real>, i: nat, j: nat)
    requires i < |xs| && j < |xs| && i != j
    ensures Sq(xs[i]) + Sq(xs[j]) <= SumSq(xs)
    decreases |xs|
  {
    hide Sq;
    var n := |xs| - 1;
    if i < n && j < n {
      SumSqOfTwo(xs[..n], i, j);
    } else {
      SumSqOf(xs[..n], if i == n then j else i);
    }
  }

  lemma {:induction false} AbsMaxBounds(xs: seq<real>)
    ensures forall i :: 0 <= i < |xs| ==> Abs(xs[i]) <= AbsMax(xs)
    ensures Sq(AbsMax(xs)) <= SumSq(xs)
    decreases |xs|
  {
    hide Sq;
    if xs == [] {
      SqOrder(0.0, 0.0);
      ZeroSq();
    } else {
      AbsMaxBounds(xs[..|xs| - 1]);
      SqOrder(Abs(xs[|xs| - 1]), xs[|xs| - 1]);
    }
  }

  lemma ZeroSq()
    ensures Sq(0.0) == 0.0
  {
  }

  lemma {:induction false} Extremes(xs: seq<real>) returns (i: nat, j: nat)
    requires xs != []
    ensures i < |xs| && j < |xs| && xs[i] == Least(xs) && xs[j] == Greatest(xs)
    ensures forall k :: 0 <= k < |xs| ==> Least(xs) <= xs[k] <= Greatest(xs)
    decreases |xs|
  {
    if |xs| == 1 {
      return 0, 0;
    }
    i, j := Extremes(xs[..|xs| - 1]);
    if xs[|xs| - 1] < xs[i] { i := |xs| - 1; }
    if xs[|xs| - 1] > xs[j] { j := |xs| - 1; }
  }

  /** Symmetric error of a block: each of its values errs by at most the largest one over 254. */
  lemma {:induction false} SymErrBound(xs: seq<real>, am: real)
    requires forall i :: 0 <= i < |xs| ==> Abs(xs[i]) <= am
    ensures 64516.0 * SymErr(xs, am / 127.0) <= Times(|xs|, Sq(am))
    decreases |xs|
  {
    hide Sq, QuantSym;
    if xs != [] {
      SymErrBound(xs[..|xs| - 1], am);
      SymSquared(xs[|xs| - 1], am);
    }
  }

  lemma {:induction false} AffineErrBound(xs: seq<real>, mn: real, mx: real)
    requires forall i :: 0 <= i < |xs| ==> mn <= xs[i] <= mx
    ensures 260100.0 * AffineErr(xs, mn, mx) <= Times(|xs|, Sq(mx - mn))
    decreases |xs|
  {
    hide Sq, QuantAffine;
    if xs != [] {
      AffineErrBound(xs[..|xs| - 1], mn, mx);
      AffineSquared(xs[|xs| - 1], mn, mx);
    }
  }

  /** A block of at most `n` values: `254^2` times its symmetric error is at most `n` times
      its energy. */
  lemma {:induction false} SymBlock(xs: seq<real>, n: nat)
    requires |xs| <= n
    ensures 64516.0 * SymErr(xs, AbsMax(xs) / 127.0) <= Times(n, SumSq(xs))
  {
    hide Sq, SymErr, SumSq;
    AbsMaxBounds(xs);
    SymErrBound(xs, AbsMax(xs));
    TimesMonotone(|xs|, n, Sq(AbsMax(xs)), SumSq(xs));
  }

  /** A block of at most `n` values: twice `255^2` times its affine error is at most `n`
      times its energy. */
  lemma {:induction false} AffineBlock(xs: seq<real>, n: nat)
    requires xs != [] && |xs| <= n
    ensures 130050.0 * AffineErr(xs, Least(xs), Greatest(xs)) <= Times(n, SumSq(xs))
  {
    hide Sq, AffineErr, SumSq, Least, Greatest;
    var i, j := Extremes(xs);
    var range := Sq(Greatest(xs) - Least(xs));
    AffineErrBound(xs, Least(xs), Greatest(xs));
    if i == j {
      ZeroSq();
    } else {
      RangeSquared(Least(xs), Greatest(xs));
      SumSqOfTwo(xs, i, j);
    }
    TimesMonotone(|xs|, n, range / 2.0, SumSq(xs));
    TimesSum(|xs|, range / 2.0, range / 2.0);
  }
}
