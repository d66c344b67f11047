/** Numbers as the perturbation probe prints them, and that the lexer reads each back as one
    literal covering all of it. */
module Relex {
  import opened Decimals
  import opened Digits
  import opened Lexer
  import opened Maps
  import opened Options

  /** The three digits of a comma group. */
  function ThreeDigits(n: nat): (s: string)
    requires n < 1000
    ensures |s| == 3
  {
    ['0' + (n / 100) as char, '0' + (n / 10 % 10) as char, '0' + (n % 10) as char]
  }

  /** Digits with a comma before every group of three. */
  function Grouped(n: nat): (s: string)
    ensures s != ""
    decreases n
  {
    if n < 1000 then DecimalText(n) else Grouped(n / 1000) + "," + ThreeDigits(n % 1000)
  }

  predicate AllDigits(s: string) {
    forall i :: 0 <= i < |s| ==> Digit(s[i])
  }

  /** The printed span: whole part, fraction digits if any, percent sign if any. */
  function Printed(n: nat, grouped: bool, fraction: string, percent: bool): string {
    (if grouped then Grouped(n) else DecimalText(n)) +
    (if fraction == "" then "" else "." + fraction) + (if percent then "%" else "")
  }

  function Power10(k: nat): (p: nat)
    ensures p > 0
  {
    if k == 0 then 1 else 10 * Power10(k - 1)
  }

  /** Text that continues no whole part. */
  predicate Tail(rest: string) {
    rest != "" ==> !Digit(rest[0]) && rest[0] != ','
  }

  /** Text that continues no number. */
  predicate Stop(rest: string) {
    Tail(rest) && (rest != "" ==> rest[0] != '.')
  }

  // ---- shape of the whole part

  lemma ThreeAreDigits(n: nat)
    requires n < 1000
    ensures AllDigits(ThreeDigits(n))
  {
    DigitValue(n / 100);
    DigitValue(n / 10 % 10);
    DigitValue(n % 10);
  }

  /** The part before the first comma. */
  function Lead(n: nat): (m: nat)
    ensures m < 1000
    decreases n
  {
    if n < 1000 then n else Lead(n / 1000)
  }

  lemma LeadText(m: nat)
    requires m < 1000
    ensures 1 <= |DecimalText(m)| <= 3
  {
    if m >= 10 {
      assert DecimalText(m) == DecimalText(m / 10) + ['0' + (m % 10) as char];
    }
  }

  /** Grouped text is its lead and then groups to the end. */
  lemma {:induction false} GroupedShape(n: nat, rest: string)
    requires Tail(rest)
    ensures var s := Grouped(n) + rest; var d := |DecimalText(Lead(n))|;
      d <= |Grouped(n)| && s[..d] == DecimalText(Lead(n)) && GroupsEnd(s, d) == |Grouped(n)|
      && (n >= 1000 ==> |Grouped(n)| > d)
      && (n >= 1000 ==> s[d] == ',')
    decreases n
  {
    GroupedPrefix(n, rest);
    GroupsReach(n, rest);
  }

  lemma {:induction false} GroupedPrefix(n: nat, rest: string)
    ensures var s := Grouped(n) + rest; var d := |DecimalText(Lead(n))|;
      d <= |Grouped(n)| && s[..d] == DecimalText(Lead(n)) && (n >= 1000 ==> |Grouped(n)| > d && s[d] == ',')
      && (n < 1000 ==> |Grouped(n)| == d)
    decreases n
  {
    hide DecimalText, ThreeDigits;
    if n >= 1000 {
      var more := "," + ThreeDigits(n % 1000) + rest;
      GroupedPrefix(n / 1000, more);
      assert Grouped(n) + rest == Grouped(n / 1000) + more;
      var d := |DecimalText(Lead(n))|;
      if n / 1000 < 1000 {
        assert (Grouped(n / 1000) + more)[d] == more[0];
      }
    }
  }

  /** From the lead's end the groups reach the end of the grouped text, for any text after
      it that is no further group. */
  lemma {:induction false} GroupsReach(n: nat, rest: string)
    requires Tail(rest)
    ensures var s := Grouped(n) + rest; var d := |DecimalText(Lead(n))|;
      d <= |Grouped(n)| && GroupsEnd(s, d) == |Grouped(n)|
    decreases n
  {
    hide DecimalText;
    GroupedPrefix(n, rest);
    var s, d := Grouped(n) + rest, |DecimalText(Lead(n))|;
    if rest != "" {
      assert s[|Grouped(n)|] == rest[0];
    }
    if n >= 1000 {
      GroupsThrough(n / 1000, n % 1000, rest);
      assert s == Grouped(n / 1000) + "," + ThreeDigits(n % 1000) + rest;
    }
  }

  /** Groups run through a grouped prefix into one more group and stop after it. */
  lemma {:induction false} GroupsThrough(m: nat, g: nat, rest: string)
    requires g < 1000
    ensures var s := Grouped(m) + "," + ThreeDigits(g) + rest; var d := |DecimalText(Lead(m))|;
      d <= |Grouped(m)| && GroupsEnd(s, d) == GroupsEnd(s, |Grouped(m)| + 4)
    decreases m
  {
    hide DecimalText, ThreeDigits, GroupsEnd, Grouped;
    GroupedPrefix(m, "");
    var k := |Grouped(m)|;
    OneGroup(Grouped(m), g, rest);
    GroupedStep(m);
    if m >= 1000 {
      var more := "," + ThreeDigits(g) + rest;
      GroupsThrough(m / 1000, m % 1000, more);
      Regrouped(Grouped(m / 1000), ThreeDigits(m % 1000), more);
      Regrouped(Grouped(m), ThreeDigits(g), rest);
      Shorter(Grouped(m / 1000), ThreeDigits(m % 1000));
      assert Grouped(m) + more == Grouped(m / 1000) + "," + ThreeDigits(m % 1000) + more;
    } else {
      assert Lead(m) == m;
    }
  }

  lemma GroupedStep(m: nat)
    ensures Grouped(m) == if m < 1000 then DecimalText(m) else Grouped(m / 1000) + "," + ThreeDigits(m % 1000)
  {
    hide DecimalText, ThreeDigits;
  }

  lemma Regrouped(a: string, three: string, rest: string)
    ensures a + "," + three + rest == a + ("," + three + rest)
  {
  }

  lemma Shorter(a: string, three: string)
    requires |three| == 3
    ensures |a + "," + three| == |a| + 4
  {
  }

  /** A comma and three digits after any text are one group. */
  lemma OneGroup(a: string, g: nat, rest: string)
    requires g < 1000
    ensures var s := a + "," + ThreeDigits(g) + rest; GroupsEnd(s, |a|) == GroupsEnd(s, |a| + 4)
  {
    hide ThreeDigits;
    ThreeAreDigits(g);
    var s, k, three := a + "," + ThreeDigits(g) + rest, |a|, ThreeDigits(g);
    assert s[k] == ',' && s[k + 1] == three[0] && s[k + 2] == three[1] && s[k + 3] == three[2];
  }

  // ---- the digits and their value

  lemma {:induction false} OnlyDigitsConcat(a: string, b: string)
    ensures OnlyDigits(a + b) == OnlyDigits(a) + OnlyDigits(b)
    decreases |b|
  {
    if b == "" {
      assert a + b == a;
    } else {
      assert (a + b)[..|a + b| - 1] == a + b[..|b| - 1];
      OnlyDigitsConcat(a, b[..|b| - 1]);
    }
  }

  lemma {:induction false} OnlyDigitsSame(s: string)
    requires AllDigits(s)
    ensures OnlyDigits(s) == s
    decreases |s|
  {
    if s != "" {
      OnlyDigitsSame(s[..|s| - 1]);
      assert s == s[..|s| - 1] + [s[|s| - 1]];
    }
  }

  lemma ValueSnoc(s: string, c: char)
    requires AllDigits(s) && Digit(c)
    ensures AllDigits(s + [c]) && ValueOf(s + [c]) == 10 * ValueOf(s) + (c - '0') as nat
  {
    assert (s + [c])[..|s|] == s;
  }

  lemma {:induction false} ValueConcat(a: string, b: string)
    requires AllDigits(a) && AllDigits(b)
    ensures AllDigits(a + b) && ValueOf(a + b) == ValueOf(a) * Power10(|b|) + ValueOf(b)
    decreases |b|
  {
    if b == "" {
      assert a + b == a;
    } else {
      hide ValueOf;
      var (init, c) := (b[..|b| - 1], b[|b| - 1]);
      assert a + b == (a + init) + [c] && b == init + [c];
      ValueConcat(a, init);
      ValueSnoc(a + init, c);
      ValueSnoc(init, c);
      Tenfold(ValueOf(a), Power10(|init|));
    }
  }

  lemma Tenfold(v: nat, p: nat)
    ensures 10 * (v * p) == v * (10 * p)
  {
  }

  lemma ThreeValue(g: nat)
    requires g < 1000
    ensures AllDigits(ThreeDigits(g)) && ValueOf(ThreeDigits(g)) == g
  {
    hide Digit, ValueOf;
    var x, y, z := g / 100, g / 10 % 10, g % 10;
    DigitValue(x);
    DigitValue(y);
    DigitValue(z);
    var t := ThreeDigits(g);
    assert t == ['0' + x as char, '0' + y as char, '0' + z as char];
    ValueOfThree(t[0], t[1], t[2]);
  }

  lemma ValueOfThree(a: char, b: char, c: char)
    requires Digit(a) && Digit(b) && Digit(c)
    ensures AllDigits([a, b, c])
    ensures ValueOf([a, b, c]) == 100 * (a - '0') as nat + 10 * (b - '0') as nat + (c - '0') as nat
  {
    assert ValueOf("") == 0;
    hide ValueOf, Digit;
    ValueSnoc("", a);
    ValueSnoc([a], b);
    ValueSnoc([a, b], c);
    assert "" + [a] == [a] && [a] + [b] == [a, b] && [a, b] + [c] == [a, b, c];
  }

  lemma Power10Three()
    ensures Power10(3) == 1000
  {
    assert Power10(3) == 10 * Power10(2) == 100 * Power10(1) == 1000 * Power10(0);
  }

  lemma {:induction false} GroupedValue(n: nat)
    ensures AllDigits(OnlyDigits(Grouped(n))) && ValueOf(OnlyDigits(Grouped(n))) == n
    decreases n
  {
    hide ThreeDigits, DecimalText, OnlyDigits;
    OnlyDigitsAreDigits(Grouped(n));
    if n < 1000 {
      DecimalReadsBack(n);
      OnlyDigitsSame(DecimalText(n));
    } else {
      var (a, t) := (Grouped(n / 1000), ThreeDigits(n % 1000));
      GroupedValue(n / 1000);
      ThreeValue(n % 1000);
      OnlyDigitsConcat(a + ",", t);
      OnlyDigitsConcat(a, ",");
      CommaIsNoDigit();
      OnlyDigitsSame(t);
      assert OnlyDigits(a) + "" == OnlyDigits(a);
      ValueConcat(OnlyDigits(a), t);
      Power10Three();
    }
  }

  lemma CommaIsNoDigit()
    ensures OnlyDigits(",") == "" && OnlyDigits(".") == ""
  {
    assert ","[..0] == "" && "."[..0] == "";
  }

  function Whole(n: nat, grouped: bool): (s: string)
    ensures s != ""
  {
    if grouped then Grouped(n) else DecimalText(n)
  }

  function Fraction(digits: string): string {
    if digits == "" then "" else "." + digits
  }

  lemma {:induction false} GroupedNoPoint(n: nat)
    ensures (forall i :: 0 <= i < |Grouped(n)| ==> Grouped(n)[i] != '.') && Digit(Grouped(n)[0])
    decreases n
  {
    if n < 1000 {
      DecimalDigits(n);
    } else {
      GroupedNoPoint(n / 1000);
      ThreeAreDigits(n % 1000);
    }
  }

  lemma {:induction false} PointFound(s: string, i: nat, p: nat)
    requires i <= p <= |s| && (forall k :: i <= k < p ==> s[k] != '.') && (p < |s| ==> s[p] == '.')
    ensures PointAt(s, i) == p
    decreases p - i
  {
    if i < p {
      PointFound(s, i + 1, p);
    }
  }

  lemma WholeFacts(n: nat, grouped: bool)
    ensures Digit(Whole(n, grouped)[0]) && forall i :: 0 <= i < |Whole(n, grouped)| ==> Whole(n, grouped)[i] != '.'
    ensures AllDigits(OnlyDigits(Whole(n, grouped))) && ValueOf(OnlyDigits(Whole(n, grouped))) == n
  {
    if grouped {
      GroupedNoPoint(n);
      GroupedValue(n);
    } else {
      DecimalReadsBack(n);
      OnlyDigitsSame(DecimalText(n));
    }
  }

  /** The number read from the printed digits: the whole part and the fraction in place. */
  lemma NumberRead(n: nat, grouped: bool, fraction: string)
    requires AllDigits(fraction)
    ensures NumberOf(Whole(n, grouped) + Fraction(fraction)) ==
      Decimal(n * Power10(|fraction|) + ValueOf(fraction), -|fraction|)
  {
    hide OnlyDigits, Whole, ValueOf, Power10, NumberOf, PointAt;
    var w := Whole(n, grouped);
    WholeFacts(n, grouped);
    FractionDigits(w, fraction);
    ValueConcat(OnlyDigits(w), fraction);
    FractionPoint(w, fraction);
    NumberAt(w + Fraction(fraction), |w|);
  }

  lemma FractionDigits(w: string, fraction: string)
    requires AllDigits(fraction)
    ensures OnlyDigits(w + Fraction(fraction)) == OnlyDigits(w) + fraction
  {
    hide OnlyDigits;
    OnlyDigitsConcat(w, Fraction(fraction));
    OnlyDigitsSame(fraction);
    if fraction != "" {
      OnlyDigitsConcat(".", fraction);
      CommaIsNoDigit();
      assert "" + fraction == fraction;
    }
  }

  lemma FractionPoint(w: string, fraction: string)
    requires forall i :: 0 <= i < |w| ==> w[i] != '.'
    ensures PointAt(w + Fraction(fraction), 0) == |w|
  {
    hide PointAt;
    PointFound(w + Fraction(fraction), 0, |w|);
  }

  lemma NumberAt(s: string, p: nat)
    requires PointAt(s, 0) == p
    ensures AllDigits(OnlyDigits(s))
    ensures NumberOf(s) == Decimal(ValueOf(OnlyDigits(s)), if p < |s| then -(|s| - p - 1) else 0)
  {
    hide OnlyDigits, ValueOf, PointAt;
    OnlyDigitsAreDigits(s);
  }

  // ---- the match

  lemma PlainWhole(n: nat, rest: string)
    requires Tail(rest)
    ensures WholeEnd(DecimalText(n) + rest, 0) == |DecimalText(n)|
  {
    hide DecimalText;
    var d := DecimalText(n);
    DecimalDigits(n);
    DigitsRun(d, rest, 0);
    if rest != "" {
      assert (d + rest)[|d|] == rest[0];
    }
  }

  lemma GroupedWhole(n: nat, rest: string)
    requires Tail(rest)
    ensures WholeEnd(Grouped(n) + rest, 0) == |Grouped(n)|
  {
    if n < 1000 {
      PlainWhole(n, rest);
    } else {
      hide DecimalText, Grouped;
      var s := Grouped(n) + rest;
      var lead := DecimalText(Lead(n));
      GroupedShape(n, rest);
      LeadText(Lead(n));
      DecimalDigits(Lead(n));
      DigitsRun(lead, s[|lead|..], 0);
      assert s == lead + s[|lead|..];
    }
  }

  lemma NumberMatched(n: nat, grouped: bool, fraction: string, rest: string)
    requires AllDigits(fraction) && Stop(rest)
    ensures var s := Whole(n, grouped) + Fraction(fraction) + rest;
      NumberEnd(s, 0) == |Whole(n, grouped)| + |Fraction(fraction)|
  {
    hide DecimalText, Grouped, WholeEnd, FractionEnd;
    var w := Whole(n, grouped);
    var after := Fraction(fraction) + rest;
    assert w + Fraction(fraction) + rest == w + after;
    if grouped {
      GroupedWhole(n, after);
    } else {
      PlainWhole(n, after);
    }
    FractionMatched(w, fraction, rest);
  }

  lemma FractionMatched(w: string, fraction: string, rest: string)
    requires AllDigits(fraction) && Stop(rest)
    ensures FractionEnd(w + Fraction(fraction) + rest, |w|) == |w| + |Fraction(fraction)|
  {
    hide DigitsEnd;
    var s := w + Fraction(fraction) + rest;
    if fraction != "" {
      assert w + Fraction(fraction) == w + "." + fraction;
      assert s[|w|] == '.';
      DigitsAfter(w + ".", fraction, rest);
    } else if rest != "" {
      assert s[|w|] == rest[0];
    }
  }

  lemma DigitsAfter(front: string, digits: string, rest: string)
    requires AllDigits(digits) && Tail(rest)
    ensures DigitsEnd(front + digits + rest, |front|) == |front| + |digits|
  {
    DigitsFrom(front, digits, rest, 0);
  }

  lemma {:induction false} DigitsFrom(front: string, digits: string, rest: string, i: nat)
    requires AllDigits(digits) && Tail(rest) && i <= |digits|
    ensures DigitsEnd(front + digits + rest, |front| + i) == |front| + |digits|
    decreases |digits| - i
  {
    var s := front + digits + rest;
    if i < |digits| {
      assert s[|front| + i] == digits[i];
      DigitsFrom(front, digits, rest, i + 1);
    } else if rest != "" {
      assert s[|front| + i] == rest[0];
    }
  }

  lemma NothingAfter(s: string)
    ensures SkipSpace(s, |s|) == |s| && SkipGap(s, |s|) == |s| && PercentEnd(s, |s|) == |s| && SuffixPower(s, |s|) == 0
    ensures ScalePower(s, |s|) == 0 && UnitAfter(s, |s|) == None
  {
    hide FirstWord, PercentEnd, SuffixPower;
    NoSignAfter(s);
    NoWord(s, SCALES);
    NoWord(s, UNITS);
  }

  lemma NoSignAfter(s: string)
    ensures PercentEnd(s, |s|) == |s| && SuffixPower(s, |s|) == 0
  {
  }

  lemma {:induction false} NoWord(s: string, words: seq<string>)
    ensures FirstWord(s, |s|, words) == 0
    decreases |words|
  {
    if words != [] {
      NoWord(s, words[1..]);
    }
  }

  /** The match at the start of a digit-led text whose number ends at `e`, at the text's end
      or before a last percent sign. */
  lemma NumberAlone(s: string, e: nat, n: Decimal)
    requires s != "" && Digit(s[0]) && NumberEnd(s, 0) == e > 0 && NumberOf(s[0..e]) == n
    requires e == |s| || (e + 1 == |s| && s[e] == '%')
    ensures MatchAt(s, 0) == Match(Found(n, if e < |s| then PercentTag else BareTag, 0, |s|), |s|)
  {
    hide NumberEnd, NumberOf, ScalePower, UnitAfter;
    NothingAfter(s);
  }

  /** Every printed span lexes to exactly one literal that covers all of it, with the printed
      value, tagged percent exactly when the sign is there. */
  lemma PrintedRelexes(n: nat, grouped: bool, fraction: string, percent: bool)
    requires AllDigits(fraction)
    ensures var s := Printed(n, grouped, fraction, percent);
      LexFrom(s, 0) == [Found(Decimal(n * Power10(|fraction|) + ValueOf(fraction), -|fraction|),
        if percent then PercentTag else BareTag, 0, |s|)]
  {
    hide Whole, ValueOf, Power10, NumberEnd, NumberOf, MatchAt, Printed, Digit;
    var rest := if percent then "%" else "";
    var num := Whole(n, grouped) + Fraction(fraction);
    var s := num + rest;
    PrintedParts(n, grouped, fraction, percent);
    SignStops();
    NumberMatched(n, grouped, fraction, rest);
    NumberRead(n, grouped, fraction);
    WholeFacts(n, grouped);
    assert s[0..|num|] == num && s[0] == Whole(n, grouped)[0];
    assert percent ==> s[|num|] == '%';
    NumberAlone(s, |num|, NumberOf(num));
    assert LexFrom(s, |s|) == [];
    assert [MatchAt(s, 0).found] + [] == [MatchAt(s, 0).found];
  }

  lemma SignStops()
    ensures Stop("") && Stop("%")
  {
  }

  lemma PrintedParts(n: nat, grouped: bool, fraction: string, percent: bool)
    ensures Printed(n, grouped, fraction, percent) ==
      Whole(n, grouped) + Fraction(fraction) + (if percent then "%" else "")
  {
  }
}
