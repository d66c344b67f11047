/** The comparator's one-ulp tolerance: a quotient rounded to 60 significant digits
    against the same quotient truncated to 38 decimal places. */
module Parity {
  import opened Decimals
  import opened Maps
  import opened Options
  import opened Precision

  /** Decimal places of the fixed-point side. */
  const PLACES := 38

  /** One unit in the last place of the fixed-point side. */
  ghost const ONE_ULP: real := Shift(1.0, -PLACES)

  /** `q` cut toward zero after 38 decimal places. */
  function Truncated(q: real): real {
    if q < 0.0 then -Shift(Shift(-q, PLACES).Floor as real, -PLACES)
    else Shift(Shift(q, PLACES).Floor as real, -PLACES)
  }

  lemma {:induction false} ShiftInteger(t: int, n: nat)
    ensures Shift(t as real, n) == Shift(t as real, n).Floor as real
  {
    if n > 0 {
      ShiftInteger(t, n - 1);
      assert Shift(t as real, n) == (10 * Shift(t as real, n - 1).Floor) as real;
    }
  }

  lemma RoundBetween(x: real, lo: int, hi: int)
    requires lo as real <= x <= hi as real
    ensures lo <= RoundHalfEven(x) <= hi
  {
  }

  lemma RoundOdd(y: real)
    ensures RoundHalfEven(-y) == -RoundHalfEven(y)
  {
  }

  lemma LastPlaceEven(x: real)
    requires x != 0.0
    ensures LastPlace(-x) == LastPlace(x)
  {
    hide Shift;
    assert Abs(-x) == Abs(x);
  }

  lemma ShiftOdd(x: real, e: int)
    ensures Shift(-x, e) == -Shift(x, e)
  {
    hide Shift;
    ShiftSum(x, -x, e);
    ShiftZero(e);
  }

  lemma CtxOdd(x: real)
    ensures Ctx(-x) == -Ctx(x)
  {
    hide Shift, RoundHalfEven, LastPlace;
    if x != 0.0 {
      var k := LastPlace(x);
      var y := Shift(x, -k);
      LastPlaceEven(x);
      ShiftOdd(x, -k);
      RoundOdd(y);
      ShiftOdd(RoundHalfEven(y) as real, k);
    }
  }

  /** A multiple of the 38th place on a finer grid. */
  lemma OnFinerGrid(t: int, k: int) returns (u: int)
    requires k <= -PLACES
    ensures u as real == Shift(t as real, -PLACES - k) && Shift(u as real, k) == Shift(t as real, -PLACES)
  {
    ShiftInteger(t, -PLACES - k);
    ShiftShift(t as real, -PLACES - k, k);
    u := Shift(t as real, -PLACES - k).Floor;
  }

  lemma FinerOrder(q: real, t: int, k: int)
    requires k <= -PLACES
    ensures Shift(q, PLACES) <= t as real ==> Shift(q, -k) <= Shift(t as real, -PLACES - k)
    ensures t as real <= Shift(q, PLACES) ==> Shift(t as real, -PLACES - k) <= Shift(q, -k)
  {
    ShiftShift(q, PLACES, -PLACES - k);
    ShiftOrder(Shift(q, PLACES), t as real, -PLACES - k);
  }

  /** Rounding to 60 digits does not leave two multiples of the 38th place, when that place
      is no finer than the 60th digit. */
  lemma BetweenMultiples(q: real, lo: int, hi: int)
    requires q > 0.0 && LastPlace(q) <= -PLACES && lo as real <= Shift(q, PLACES) <= hi as real
    ensures Shift(lo as real, -PLACES) <= Ctx(q) <= Shift(hi as real, -PLACES)
  {
    hide Shift, LastPlace, RoundHalfEven;
    var k := LastPlace(q);
    FinerOrder(q, lo, k);
    FinerOrder(q, hi, k);
    var a := OnFinerGrid(lo, k);
    var b := OnFinerGrid(hi, k);
    RoundBetween(Shift(q, -k), a, b);
    ShiftOrder(RoundHalfEven(Shift(q, -k)) as real, a as real, k);
    ShiftOrder(RoundHalfEven(Shift(q, -k)) as real, b as real, k);
  }

  lemma SmallQuotient(q: real)
    requires 0.0 < q < Shift(1.0, 22)
    ensures LastPlace(q) <= -PLACES
  {
    AdjustedBounds(q);
    if Adjusted(q) >= 22 {
      ShiftGrows(22, Adjusted(q));
    }
  }

  /** Every quotient below 10^22 in magnitude: the two computations differ by at most one ulp. */
  lemma OneUlp(q: real)
    requires Abs(q) < Shift(1.0, 22)
    ensures Abs(Ctx(q) - Truncated(q)) <= ONE_ULP
  {
    if q < 0.0 {
      OneUlpUpward(-q);
      CtxOdd(q);
    } else {
      OneUlpUpward(q);
    }
  }

  lemma OneUlpUpward(q: real)
    requires 0.0 <= q < Shift(1.0, 22)
    ensures Abs(Ctx(q) - Truncated(q)) <= ONE_ULP
  {
    ShiftGrows(-PLACES, -PLACES);
    if q == 0.0 {
      ShiftZero(PLACES);
      ShiftZero(-PLACES);
    } else {
      SmallQuotient(q);
      BetweenMultiples(q, Shift(q, PLACES).Floor, Shift(q, PLACES).Floor + 1);
      ShiftSum(Shift(q, PLACES).Floor as real, 1.0, -PLACES);
    }
  }

  /** From 10^22 on the bound fails in every decade. */
  lemma OneUlpFails(e: nat) returns (q: real)
    requires e >= 22
    ensures Shift(1.0, e) <= q < Shift(1.0, e + 1)
    ensures Abs(Ctx(q) - Truncated(q)) > ONE_ULP
  {
    q := Shift(1.0, e) + Shift(4.0, -PLACES);
    ShiftGrows(-PLACES, -PLACES + 1);
    ShiftGrows(-PLACES + 1, e);
    ShiftOrder(4.0, 10.0, -PLACES);
    ShiftShift(1.0, 1, -PLACES);
    assert Shift(1.0, 1) == 10.0 * Shift(1.0, 0);
    ShiftStep(1.0, e);
    ShiftOrder(0.0, 4.0, -PLACES);
    ShiftZero(-PLACES);
    FailsAt(e, q);
  }

  ghost predicate WithinUlp(q: real) {
    Abs(Ctx(q) - Truncated(q)) <= ONE_ULP
  }

  /** A decade keeps within one ulp throughout if and only if it lies below 10^22. */
  lemma OneUlpIff(e: int)
    ensures (forall q :: Shift(1.0, e) <= Abs(q) < Shift(1.0, e + 1) ==> WithinUlp(q)) <==> e < 22
  {
    hide Shift, Ctx, Truncated;
    if e < 22 {
      forall q | Shift(1.0, e) <= Abs(q) < Shift(1.0, e + 1) ensures WithinUlp(q) {
        ShiftGrows(e + 1, 22);
        OneUlp(q);
      }
    } else {
      var q := OneUlpFails(e);
      ShiftOrder(0.0, 1.0, e);
      ShiftZero(e);
      assert Abs(q) == q && !WithinUlp(q);
    }
  }

  lemma FailsAt(e: nat, q: real)
    requires e >= 22 && q == Shift(1.0, e) + Shift(4.0, -PLACES) && Shift(1.0, e) <= q < Shift(1.0, e + 1)
    ensures Abs(Ctx(q) - Truncated(q)) > ONE_ULP
  {
    hide Shift, Ctx, Truncated;
    UlpPositive();
    ShiftOrder(0.0, 1.0, e);
    ShiftZero(e);
    KeepsTail(e, q);
    LosesTail(e, q);
    ShiftSum(2.0, 2.0, -PLACES);
    ShiftSum(1.0, 1.0, -PLACES);
  }

  /** The 38-place side keeps the last four ulps. */
  lemma KeepsTail(e: nat, q: real)
    requires q == Shift(1.0, e) + Shift(4.0, -PLACES) && q >= 0.0
    ensures Truncated(q) == q
  {
    hide Shift;
    ShiftSum(Shift(1.0, e), Shift(4.0, -PLACES), PLACES);
    ShiftShift(1.0, e, PLACES);
    ShiftShift(4.0, -PLACES, PLACES);
    ShiftByZero(4.0);
    ShiftInteger(1, e + PLACES);
    assert Shift(q, PLACES) == (Shift(1.0, e + PLACES).Floor + 4) as real;
    ShiftShift(q, PLACES, -PLACES);
    ShiftByZero(q);
  }

  lemma ShiftByZero(x: real)
    ensures Shift(x, 0) == x
  {
  }

  lemma InDecade(e: nat, q: real)
    requires 0.0 < q && Shift(1.0, e) <= q < Shift(1.0, e + 1)
    ensures Adjusted(q) == e
  {
    hide Shift, Adjusted;
    AdjustedBounds(q);
    if Adjusted(q) > e { ShiftGrows(e + 1, Adjusted(q)); }
    if Adjusted(q) < e { ShiftGrows(Adjusted(q) + 1, e); }
  }

  /** The 60-digit side loses them. */
  lemma LosesTail(e: nat, q: real)
    requires e >= 22 && q == Shift(1.0, e) + Shift(4.0, -PLACES) && 0.0 < Shift(1.0, e) <= q < Shift(1.0, e + 1)
    ensures Ctx(q) == Shift(1.0, e)
  {
    hide Shift, Adjusted;
    InDecade(e, q);
    var k := e - 59;
    ShiftSum(Shift(1.0, e), Shift(4.0, -PLACES), -k);
    ShiftShift(1.0, e, -k);
    ShiftShift(4.0, -PLACES, -k);
    ShiftInteger(1, 59);
    ShiftOrder(0.0, 4.0, -PLACES - k);
    ShiftZero(-PLACES - k);
    SmallTail(-PLACES - k);
    assert RoundHalfEven(Shift(q, -k)) == Shift(1.0, 59).Floor;
    ShiftShift(1.0, 59, k);
  }

  lemma SmallTail(d: int)
    requires d <= -1
    ensures Shift(4.0, d) < 0.5
  {
    ShiftSum(2.0, 2.0, d);
    ShiftSum(1.0, 1.0, d);
    ShiftGrows(d, -1);
    assert Shift(1.0, -1) == Shift(1.0, 0) / 10.0;
  }

  // ---- the comparator

  /** A reconstructed value; a string carries its number when it is a decimal literal. */
  datatype Datum = Null | Flag(b: bool) | Text(chars: string, number: Option<real>) | Items(els: seq<Datum>) | Other

  ghost predicate Same(a: Datum, b: Datum) {
    match (a, b)
    case (Null, Null) => true
    case (Flag(x), Flag(y)) => x == y
    case (Items(xs), Items(ys)) => |xs| == |ys| && forall i :: 0 <= i < |xs| ==> Same(xs[i], ys[i])
    case (Text(_, Some(x)), Text(_, Some(y))) => Abs(x - y) <= ONE_ULP
    case (Text(s, None), Text(t, None)) => s == t
    case _ => false
  }

  function NumericLeaves(a: Datum): nat {
    match a
    case Text(_, Some(_)) => 1
    case Items(xs) => SumLeaves(xs)
    case _ => 0
  }

  function SumLeaves(xs: seq<Datum>): nat {
    if xs == [] then 0 else SumLeaves(xs[..|xs| - 1]) + NumericLeaves(xs[|xs| - 1])
  }

  /** The decimal leaves at which the two say the very same number. */
  function EqualLeaves(a: Datum, b: Datum): nat {
    match (a, b)
    case (Text(_, Some(x)), Text(_, Some(y))) => if x == y then 1 else 0
    case (Items(xs), Items(ys)) => if |xs| == |ys| then SumEqual(xs, ys) else 0
    case _ => 0
  }

  function SumEqual(xs: seq<Datum>, ys: seq<Datum>): nat
    requires |xs| == |ys|
  {
    if xs == [] then 0
    else SumEqual(xs[..|xs| - 1], ys[..|ys| - 1]) + EqualLeaves(xs[|xs| - 1], ys[|ys| - 1])
  }

  /** How much of an agreement was exact and how much needed the tolerance. */
  class Stats {
    var exact: nat
    var withinOneUlp: nat

    constructor ()
      ensures exact == withinOneUlp == 0
    {
      exact, withinOneUlp := 0, 0;
    }

    /** `ulp` is one unit in the last place; the comparison meets `Same`, and when it
        succeeds it has counted every decimal leaf exactly once, as exact where the two agree. */
    method ValueEq(a: Datum, b: Datum, ulp: real) returns (ok: bool)
      requires ulp == ONE_ULP
      modifies this
      ensures ok == Same(a, b)
      ensures exact >= old(exact) && withinOneUlp >= old(withinOneUlp)
      ensures ok ==> exact + withinOneUlp == old(exact + withinOneUlp) + NumericLeaves(a)
      ensures ok ==> exact == old(exact) + EqualLeaves(a, b)
      decreases a
    {
      hide SumLeaves, SumEqual;
      UlpPositive();
      if a.Null? || b.Null? {
        return a.Null? && b.Null?;
      }
      if a.Flag? || b.Flag? {
        return a == b;
      }
      if a.Items? || b.Items? {
        if !(a.Items? && b.Items?) || |a.els| != |b.els| {
          return false;
        }
        NothingSummed(a.els, b.els);
        for i := 0 to |a.els|
          invariant exact >= old(exact) && withinOneUlp >= old(withinOneUlp)
          invariant forall j :: 0 <= j < i ==> Same(a.els[j], b.els[j])
          invariant exact + withinOneUlp == old(exact + withinOneUlp) + SumLeaves(a.els[..i])
          invariant exact == old(exact) + SumEqual(a.els[..i], b.els[..i])
        {
          var same := ValueEq(a.els[i], b.els[i], ulp);
          if !same {
            return false;
          }
          SummedNext(a.els, b.els, i);
        }
        assert a.els[..|a.els|] == a.els && b.els[..|b.els|] == b.els;
        return true;
      }
      if a.Text? && b.Text? {
        if a.number.Some? && b.number.Some? {
          if a.number == b.number {
            exact := exact + 1;
            return true;
          }
          if Abs(a.number.value - b.number.value) <= ulp {
            withinOneUlp := withinOneUlp + 1;
            return true;
          }
          return false;
        }
        return a.number == b.number && a.chars == b.chars;
      }
      return false;
    }
  }

  lemma NothingSummed(xs: seq<Datum>, ys: seq<Datum>)
    ensures SumLeaves(xs[..0]) == 0 && SumEqual(xs[..0], ys[..0]) == 0
  {
  }

  lemma SummedNext(xs: seq<Datum>, ys: seq<Datum>, i: nat)
    requires i < |xs| == |ys|
    ensures SumLeaves(xs[..i + 1]) == SumLeaves(xs[..i]) + NumericLeaves(xs[i])
    ensures SumEqual(xs[..i + 1], ys[..i + 1]) == SumEqual(xs[..i], ys[..i]) + EqualLeaves(xs[i], ys[i])
  {
    assert xs[..i + 1][..i] == xs[..i] && ys[..i + 1][..i] == ys[..i];
  }

  lemma UlpPositive()
    ensures ONE_ULP > 0.0
  {
    ShiftGrows(-PLACES, -PLACES);
  }

  // ---- a correct value is never rejected

  /** Decoded parameters whose numbers are quotients of stated literals. */
  datatype Quotients = Number(q: real) | Array(els: seq<Quotients>)

  ghost predicate Below(t: Quotients, bound: real) {
    match t
    case Number(q) => Abs(q) < bound
    case Array(els) => forall i :: 0 <= i < |els| ==> Below(els[i], bound)
  }

  /** One side's rendering of the same quotients. */
  ghost function Rendered(t: Quotients, compute: real -> real, shown: real -> string): Datum {
    match t
    case Number(q) => Text(shown(compute(q)), Some(compute(q)))
    case Array(els) => Items(seq(|els|, i requires 0 <= i < |els| => Rendered(els[i], compute, shown)))
  }

  /** Whatever the nesting and however each side prints its decimals, 60-digit rounding
      and 38-place truncation of the same quotients always compare equal. */
  lemma {:induction false} NeverRejects(t: Quotients, printA: real -> string, printB: real -> string)
    requires Below(t, Shift(1.0, 22))
    ensures Same(Rendered(t, Ctx, printA), Rendered(t, Truncated, printB))
  {
    match t
    case Number(q) => OneUlp(q);
    case Array(els) =>
      forall i | 0 <= i < |els|
        ensures Same(Rendered(els[i], Ctx, printA), Rendered(els[i], Truncated, printB))
      {
        NeverRejects(els[i], printA, printB);
      }
  }

  // ---- a rate that is divided twice

  lemma {:induction false} ShiftQuotient(x: real, f: nat, e: int)
    requires f > 0
    ensures Shift(x / f as real, e) == Shift(x, e) / f as real
    decreases if e < 0 then -e else e
  {
    if e > 0 {
      ShiftQuotient(x, f, e - 1);
      QuotientTimes(Shift(x, e - 1), f);
    } else if e < 0 {
      ShiftQuotient(x, f, e + 1);
      QuotientOver(Shift(x, e + 1), f);
    }
  }

  lemma QuotientTimes(x: real, f: nat)
    requires f > 0
    ensures 10.0 * (x / f as real) == 10.0 * x / f as real
  {
  }

  lemma QuotientOver(x: real, f: nat)
    requires f > 0
    ensures x / f as real / 10.0 == x / 10.0 / f as real
  {
  }

  /** Between two whole numbers, quotients by a whole number pass no other whole number. */
  lemma FloorStep(n: int, f: nat)
    requires f > 0
    ensures var m := (n as real / f as real).Floor;
      m as real <= n as real / f as real && (n + 1) as real / f as real <= (m + 1) as real
  {
    var m := (n as real / f as real).Floor;
    Between(n, f, m);
  }

  lemma Between(n: int, f: nat, m: int)
    requires f > 0 && m as real <= n as real / f as real < (m + 1) as real
    ensures (n + 1) as real / f as real <= (m + 1) as real
  {
    var x := n as real / f as real;
    assert x * f as real == n as real;
    ProductBelow(x, (m + 1) as real, f as real);
    assert ((m + 1) * f) as real == (m + 1) as real * f as real;
    assert n + 1 <= (m + 1) * f;
    QuotientBelow((n + 1) as real, (m + 1) as real, f as real);
  }

  lemma ProductBelow(x: real, y: real, f: real)
    requires x < y && f > 0.0
    ensures x * f < y * f
  {
  }

  lemma QuotientBelow(x: real, y: real, f: real)
    requires f > 0.0 && x <= y * f
    ensures x / f <= y
  {
  }

  lemma QuotientOrder(x: real, y: real, f: nat)
    requires f > 0 && x <= y
    ensures x / f as real <= y / f as real
  {
  }

  lemma TruncatedOdd(q: real)
    ensures Truncated(-q) == -Truncated(q)
  {
    ShiftZero(PLACES);
    ShiftZero(-PLACES);
  }

  /** Truncating in between does not change a truncated quotient. */
  lemma TruncatesOnce(x: real, f: nat)
    requires f > 0
    ensures Truncated(Truncated(x) / f as real) == Truncated(x / f as real)
  {
    hide Truncated;
    if x >= 0.0 {
      TruncatesOnceUpward(x, f);
    } else {
      TruncatesOnceUpward(-x, f);
      TruncatedOdd(x);
      TruncatedOdd(Truncated(x) / f as real);
      TruncatedOdd(x / f as real);
      assert -Truncated(x) / f as real == -(Truncated(x) / f as real) && -x / f as real == -(x / f as real);
    }
  }

  lemma TruncatesOnceUpward(x: real, f: nat)
    requires f > 0 && x >= 0.0
    ensures Truncated(Truncated(x) / f as real) == Truncated(x / f as real)
  {
    hide Shift, Truncated;
    TruncatedQuotient(x, f);
    QuotientOrder(0.0, x, f);
    TruncatedUpward(x / f as real);
    ShiftQuotient(x, f, PLACES);
    FloorOfQuotient(Shift(x, PLACES), f);
  }

  lemma FloorOfQuotient(y: real, f: nat)
    requires f > 0
    ensures (y.Floor as real / f as real).Floor == (y / f as real).Floor
  {
    var n := y.Floor;
    FloorStep(n, f);
    QuotientOrder(n as real, y, f);
    StrictQuotient(y, (n + 1) as real, f);
    SameFloor((n as real / f as real).Floor, y / f as real);
  }

  lemma SameFloor(m: int, x: real)
    requires m as real <= x < (m + 1) as real
    ensures x.Floor == m
  {
  }

  lemma StrictQuotient(x: real, y: real, f: nat)
    requires f > 0 && x < y
    ensures x / f as real < y / f as real
  {
  }

  lemma TruncatedUpward(q: real)
    requires q >= 0.0
    ensures Truncated(q) == Shift(Shift(q, PLACES).Floor as real, -PLACES)
    ensures Shift(q, PLACES) >= 0.0 && Truncated(q) >= 0.0
    ensures Shift(Truncated(q), PLACES) == Shift(q, PLACES).Floor as real
  {
    hide Shift;
    ShiftZero(PLACES);
    ShiftZero(-PLACES);
    ShiftOrder(0.0, q, PLACES);
    ShiftOrder(0.0, Shift(q, PLACES).Floor as real, -PLACES);
    ShiftShift(Shift(q, PLACES).Floor as real, -PLACES, PLACES);
    ShiftByZero(Shift(q, PLACES).Floor as real);
  }

  lemma TruncatedQuotient(x: real, f: nat)
    requires f > 0 && x >= 0.0
    ensures Truncated(Truncated(x) / f as real) ==
      Shift((Shift(x, PLACES).Floor as real / f as real).Floor as real, -PLACES)
  {
    hide Shift, Truncated;
    TruncatedUpward(x);
    QuotientOrder(0.0, Truncated(x), f);
    TruncatedUpward(Truncated(x) / f as real);
    ShiftQuotient(Truncated(x), f, PLACES);
  }

  /** A rounded quotient rounded again and a truncated quotient truncated again are at most
      one ulp apart. */
  lemma TwiceUpward(q: real, f: nat)
    requires 0.0 < q < Shift(1.0, 22) && f >= 2
    ensures Abs(Ctx(Ctx(q) / f as real) - Truncated(Truncated(q) / f as real)) <= ONE_ULP
  {
    hide Shift, Truncated, Ctx, LastPlace;
    var n := Shift(q, PLACES).Floor;
    var m := (n as real / f as real).Floor;
    TruncatedQuotient(q, f);
    TruncatedUpward(q);
    SmallQuotient(q);
    BetweenMultiples(q, n, n + 1);
    CtxInPlaces(q, n);
    var z := Ctx(q) / f as real;
    ShiftQuotient(Ctx(q), f, PLACES);
    QuotientOrder(n as real, Shift(Ctx(q), PLACES), f);
    QuotientOrder(Shift(Ctx(q), PLACES), (n + 1) as real, f);
    FloorStep(n, f);
    ShiftSum(m as real, 1.0, -PLACES);
    UlpPositive();
    RateBelow(q, f);
    if z == 0.0 {
      ZeroRate(q, n, m, f);
    } else {
      SmallQuotient(z);
      BetweenMultiples(z, m, m + 1);
    }
  }

  lemma CtxInPlaces(q: real, n: int)
    requires Shift(n as real, -PLACES) <= Ctx(q) <= Shift((n + 1) as real, -PLACES)
    ensures n as real <= Shift(Ctx(q), PLACES) <= (n + 1) as real
  {
    hide Shift, Ctx;
    ShiftOrder(Shift(n as real, -PLACES), Ctx(q), PLACES);
    ShiftOrder(Ctx(q), Shift((n + 1) as real, -PLACES), PLACES);
    ShiftShift(n as real, -PLACES, PLACES);
    ShiftShift((n + 1) as real, -PLACES, PLACES);
    ShiftByZero(n as real);
    ShiftByZero((n + 1) as real);
  }

  /** A rate stays below 10^22 when it is rounded and divided. */
  lemma RateBelow(q: real, f: nat)
    requires 0.0 < q < Shift(1.0, 22) && f >= 2
    ensures 0.0 <= Ctx(q) / f as real < Shift(1.0, 22)
  {
    hide Shift, Ctx, LastPlace;
    SmallQuotient(q);
    ShiftInteger(1, 60);
    ShiftShift(1.0, 22, PLACES);
    ShiftOrder(q, Shift(1.0, 22), PLACES);
    ShiftZero(PLACES);
    ShiftOrder(0.0, q, PLACES);
    BetweenMultiples(q, 0, Shift(1.0, 60).Floor);
    ShiftShift(1.0, 60, -PLACES);
    ShiftZero(-PLACES);
    QuotientOrder(0.0, Ctx(q), f);
    PartBelow(Ctx(q), Shift(1.0, 22), f);
  }

  lemma PartBelow(x: real, y: real, f: nat)
    requires x <= y && y > 0.0 && f >= 2
    ensures x / f as real < y
  {
    ProductBelow(1.0, f as real, y);
    QuotientOrder(x, y, f);
    StrictBelow(y, y, f as real);
  }

  lemma StrictBelow(x: real, y: real, f: real)
    requires f > 0.0 && x < y * f
    ensures x / f < y
  {
  }

  /** Nothing is left of a rate that rounds to zero. */
  lemma ZeroRate(q: real, n: int, m: int, f: nat)
    requires f > 0 && n >= 0 && n as real <= Shift(Ctx(q), PLACES) && Ctx(q) / f as real == 0.0
    requires m == (n as real / f as real).Floor
    ensures m == 0 && Shift(m as real, -PLACES) == 0.0 && Ctx(0.0) == 0.0
  {
    hide Shift;
    assert Ctx(q) == 0.0;
    ShiftZero(PLACES);
    ShiftZero(-PLACES);
  }

  /** An annual rate over a payment frequency is divided twice, and both sides round both
      times; the comparator still accepts it. */
  lemma CadenceAccepted(v: real, f: Frequency)
    requires Abs(v / 100.0) < Shift(1.0, 22)
    ensures Abs(UnaryValue(Cadence(f), v) - Truncated(Truncated(v / 100.0) / f as real)) <= ONE_ULP
  {
    hide Shift, Truncated, Ctx;
    var q := v / 100.0;
    if q > 0.0 {
      TwiceUpward(q, f);
    } else if q < 0.0 {
      TwiceUpward(-q, f);
      CtxOdd(q);
      TruncatedOdd(q);
      assert -Ctx(q) / f as real == -(Ctx(q) / f as real) && -Truncated(q) / f as real == -(Truncated(q) / f as real);
      CtxOdd(Ctx(q) / f as real);
      TruncatedOdd(Truncated(q) / f as real);
    } else {
      UlpPositive();
      NothingLeft(f);
    }
  }

  lemma NothingLeft(f: Frequency)
    ensures Ctx(Ctx(0.0) / f as real) == 0.0 && Truncated(Truncated(0.0) / f as real) == 0.0
  {
    ShiftZero(PLACES);
    ShiftZero(-PLACES);
  }
}
