/** What the lexer accepts, said as a grammar: the longest number at a place, which marks follow
    it, and that the literals take in every digit of the text, in order. */
module LexGrammar {
  import opened Decimals
  import opened Digits
  import opened Lexer
  import opened Maps
  import opened Relex

  // ---- characters

  /** White space is the six characters of ASCII; a letter's lower case is in the same place of the
      alphabet, and every other character is its own. */
  lemma CharClasses(c: char)
    ensures Space(c) <==> c == ' ' || c as int in {9, 10, 11, 12, 13}
    ensures Letter(c) <==> 65 <= c as int <= 90 || 97 <= c as int <= 122
    ensures Digit(c) <==> 48 <= c as int <= 57
    ensures WordChar(c) <==> Letter(c) || Digit(c) || c as int == 95
    ensures Lower(c) as int == (if 65 <= c as int <= 90 then c as int + 32 else c as int)
  {
  }

  // ---- numbers

  /** One to three digits, then groups of a comma and three digits, at least one. */
  predicate Groups(t: string, lead: nat) {
    && 1 <= lead <= 3 && |t| >= lead + 4 && (|t| - lead) % 4 == 0
    && forall k :: 0 <= k < |t| ==> if k >= lead && (k - lead) % 4 == 0 then t[k] == ',' else Digit(t[k])
  }

  ghost predicate GroupedText(t: string) {
    exists lead :: Groups(t, lead)
  }

  predicate Point(t: string) {
    |t| >= 2 && t[0] == '.' && AllDigits(t[1..])
  }

  /** The run of digits at `i` is as long as it can be. */
  lemma {:induction false} RunIs(s: string, i: nat)
    requires i <= |s|
    ensures var e := DigitsEnd(s, i);
      e <= |s| && (forall k :: i <= k < e ==> Digit(s[k])) && (e < |s| ==> !Digit(s[e]))
    decreases |s| - i
  {
    if i < |s| && Digit(s[i]) {
      RunIs(s, i + 1);
    }
  }

  /** A comma or a digit, counted from the end of the leading digits. */
  predicate InGroups(s: string, d: nat, k: nat)
    requires d <= k < |s|
  {
    if (k - d) % 4 == 0 then s[k] == ',' else Digit(s[k])
  }

  lemma {:induction false} GroupsIs(s: string, d: nat, i: nat)
    requires d <= i <= |s| && (i - d) % 4 == 0
    ensures var e := GroupsEnd(s, i);
      && i <= e <= |s| && (e - d) % 4 == 0 && (forall k :: i <= k < e ==> InGroups(s, d, k))
      && (e + 4 <= |s| ==> exists k :: e <= k < e + 4 && !InGroups(s, d, k))
    decreases |s| - i
  {
    if GroupAt(s, i) {
      GroupsIs(s, d, i + 4);
    } else if i + 4 <= |s| {
      assert !InGroups(s, d, i) || !InGroups(s, d, i + 1) || !InGroups(s, d, i + 2) || !InGroups(s, d, i + 3);
    }
  }

  /** The leading digits of a grouped text are all the digits at its start. */
  lemma LeadIs(s: string, i: nat, e: nat, lead: nat)
    requires i <= e <= |s| && Groups(s[i..e], lead)
    ensures DigitsEnd(s, i) == i + lead
  {
    hide DigitsEnd;
    RunIs(s, i);
    var t, d := s[i..e], DigitsEnd(s, i);
    assert t[lead] == s[i + lead] == ',';
    assert forall k :: 0 <= k < lead ==> Digit(t[k]) && t[k] == s[i + k];
    CommaIsNoDigit();
    assert forall k :: i <= k < i + lead ==> s[k] == t[k - i];
  }

  /** The whole part is the longest grouped text at `i`; where there is none, all the digits there. */
  lemma WholeIs(s: string, i: nat)
    requires i <= |s|
    ensures var w := WholeEnd(s, i);
      if exists e :: i <= e <= |s| && GroupedText(s[i..e]) then
        GroupedText(s[i..w]) && forall e :: i <= e <= |s| && GroupedText(s[i..e]) ==> e <= w
      else AllDigits(s[i..w]) && (w < |s| ==> !Digit(s[w]))
  {
    hide DigitsEnd, GroupsEnd, Groups;
    var d, w := DigitsEnd(s, i), WholeEnd(s, i);
    RunIs(s, i);
    GroupsIs(s, d, d);
    forall e | i <= e <= |s| && GroupedText(s[i..e]) ensures e <= w && GroupsEnd(s, d) > d && i < d <= i + 3 {
      var lead :| Groups(s[i..e], lead);
      LeadIs(s, i, e, lead);
      LongestGroups(s, i, e, lead);
    }
    if i < d <= i + 3 && GroupsEnd(s, d) > d {
      GroupsRead(s, i, d, GroupsEnd(s, d));
      assert GroupedText(s[i..w]);
    }
  }

  lemma LongestGroups(s: string, i: nat, e: nat, lead: nat)
    requires i <= e <= |s| && Groups(s[i..e], lead) && DigitsEnd(s, i) == i + lead
    ensures var d := i + lead; e <= GroupsEnd(s, d) && GroupsEnd(s, d) > d && i < d <= i + 3
  {
    hide DigitsEnd, GroupsEnd;
    var t, d := s[i..e], i + lead;
    GroupsIs(s, d, d);
    forall k | d <= k < e ensures InGroups(s, d, k) {
      assert t[k - i] == s[k];
    }
  }

  lemma GroupsRead(s: string, i: nat, d: nat, e: nat)
    requires i < d <= i + 3 && d < e <= |s| && (e - d) % 4 == 0
    requires (forall k :: i <= k < d ==> Digit(s[k])) && forall k :: d <= k < e ==> InGroups(s, d, k)
    ensures Groups(s[i..e], d - i)
  {
    var t, lead := s[i..e], d - i;
    forall k | 0 <= k < |t| ensures if k >= lead && (k - lead) % 4 == 0 then t[k] == ',' else Digit(t[k]) {
      assert t[k] == s[i + k];
      if k >= lead {
        assert InGroups(s, d, i + k);
      }
    }
  }

  /** The fraction is the longest point and digits at `i`, if there is one. */
  lemma FractionIs(s: string, i: nat)
    requires i <= |s|
    ensures var e := FractionEnd(s, i);
      if exists j :: i <= j <= |s| && Point(s[i..j]) then
        Point(s[i..e]) && forall j :: i <= j <= |s| && Point(s[i..j]) ==> j <= e
      else e == i
  {
    hide DigitsEnd;
    if i < |s| {
      RunIs(s, i + 1);
    }
    var e := FractionEnd(s, i);
    forall j | i <= j <= |s| && Point(s[i..j]) ensures e > i && j <= e {
      var t := s[i..j];
      assert forall k :: 0 <= k < |t[1..]| ==> t[1..][k] == s[i + 1 + k];
      assert Digit(s[i + 1]);
      assert forall k :: i + 1 <= k < j ==> s[k] == t[1..][k - i - 1];
    }
    if e > i {
      assert s[i..e][1..] == s[i + 1..e];
    }
  }

  /** The number at `i`: a whole part with the fraction after it, or a fraction alone, which must
      not follow a digit or a point. */
  lemma NumberIs(s: string, i: nat)
    requires i <= |s|
    ensures var w := WholeEnd(s, i);
      NumberEnd(s, i) == if w > i then FractionEnd(s, w)
        else if i == 0 || !(Digit(s[i - 1]) || s[i - 1] == '.') then FractionEnd(s, i) else i
  {
  }

  // ---- what follows a number

  /** Exactly a k or m that does not begin a word is a suffix. */
  lemma SuffixIs(s: string, i: nat)
    ensures SuffixPower(s, i) > 0 <==> i < |s| && s[i] in "kKmM" && (i + 1 < |s| ==> !Letter(s[i + 1]))
    ensures SuffixPower(s, i) in {0, 3, 6}
  {
  }

  /** The word `w` stands at `i`, in either case, and ends there. */
  predicate Stands(s: string, i: nat, w: string) {
    i + |w| <= |s| && (forall k :: 0 <= k < |w| ==> Lower(s[i + k]) == w[k]) &&
      (i + |w| < |s| ==> !WordChar(s[i + |w|]))
  }

  /** A percent sign, or percent, per cent with one white space, or pct as a whole word. */
  predicate PercentHere(s: string, i: nat) {
    || (i < |s| && s[i] == '%')
    || Stands(s, i, "percent") || Stands(s, i, "pct")
    || (i + 3 < |s| && Lower(s[i]) == 'p' && Lower(s[i + 1]) == 'e' && Lower(s[i + 2]) == 'r' && Space(s[i + 3]) &&
        Stands(s, i + 4, "cent"))
  }

  lemma PercentIs(s: string, i: nat)
    requires i <= |s|
    ensures PercentEnd(s, i) > i <==> PercentHere(s, i)
  {
    hide Lower, Space, WordChar, Stands;
    PerRead(s, i);
    CentRead(s, i);
    PctRead(s, i);
  }

  lemma PerRead(s: string, i: nat)
    ensures PrefixAt(s, i, "per") <==>
      i + 3 <= |s| && Lower(s[i]) == 'p' && Lower(s[i + 1]) == 'e' && Lower(s[i + 2]) == 'r'
  {
    hide Lower;
    assert "per"[0] == 'p' && "per"[1] == 'e' && "per"[2] == 'r';
    if PrefixAt(s, i, "per") {
      assert Lower(s[i + 0]) == "per"[0] && Lower(s[i + 1]) == "per"[1] && Lower(s[i + 2]) == "per"[2];
    }
    if i + 3 <= |s| && Lower(s[i]) == 'p' && Lower(s[i + 1]) == 'e' && Lower(s[i + 2]) == 'r' {
      forall k | 0 <= k < 3 ensures Lower(s[i + k]) == "per"[k] {
        assert k == 0 || k == 1 || k == 2;
      }
    }
  }

  lemma CentRead(s: string, i: nat)
    ensures Stands(s, i, "percent") <==> PrefixAt(s, i, "per") && WordAt(s, i + 3, "cent")
    ensures Stands(s, i, "percent") ==> i + 3 < |s| && !Space(s[i + 3])
    ensures Stands(s, i + 4, "cent") <==> WordAt(s, i + 4, "cent")
  {
    hide WordChar;
    if PrefixAt(s, i, "per") && WordAt(s, i + 3, "cent") {
      forall k | 0 <= k < 7 ensures Lower(s[i + k]) == "percent"[k] {
        assert k >= 3 ==> Lower(s[i + 3 + (k - 3)]) == "cent"[k - 3];
      }
    }
    if Stands(s, i, "percent") {
      assert "percent"[3] == 'c' && Lower(s[i + 3]) == 'c';
      forall k | 0 <= k < 3 ensures Lower(s[i + k]) == "per"[k] {
        assert "percent"[k] == "per"[k];
      }
      forall k | 0 <= k < 4 ensures Lower(s[i + 3 + k]) == "cent"[k] {
        assert Lower(s[i + (3 + k)]) == "percent"[3 + k];
      }
    }
  }

  lemma PctRead(s: string, i: nat)
    ensures Stands(s, i, "pct") <==> WordAt(s, i, "pct")
    ensures Stands(s, i, "pct") ==> !PrefixAt(s, i, "per")
  {
    hide Lower, WordChar;
    PerRead(s, i);
    if Stands(s, i, "pct") {
      assert Lower(s[i + 1]) == "pct"[1];
    }
  }

  // ---- a leading point

  /** A number written without its whole part, alone or with a percent sign: its digits after the point. */
  lemma LeadingPoint(fraction: string, percent: bool)
    requires AllDigits(fraction) && fraction != ""
    ensures var s := "." + fraction + if percent then "%" else "";
      LexFrom(s, 0) ==
        [Found(Decimal(ValueOf(fraction), -|fraction|), if percent then PercentTag else BareTag, 0, |s|)]
  {
    hide NumberEnd, NumberOf, MatchAt, ValueOf;
    var s, rest := "." + fraction + (if percent then "%" else ""), if percent then "%" else "";
    PointEnds(fraction, rest);
    PointRead(fraction);
    assert s[0..1 + |fraction|] == "." + fraction;
    PointAlone(s, 1 + |fraction|, Decimal(ValueOf(fraction), -|fraction|));
    assert LexFrom(s, |s|) == [];
    assert [MatchAt(s, 0).found] + [] == [MatchAt(s, 0).found];
  }

  lemma PointEnds(fraction: string, rest: string)
    requires AllDigits(fraction) && fraction != "" && (rest == "" || rest == "%")
    ensures NumberEnd("." + fraction + rest, 0) == 1 + |fraction|
  {
    hide DigitsEnd;
    var s := "." + fraction + rest;
    SignStops();
    DigitsAfter(".", fraction, rest);
    RunIs(s, 0);
    assert s[0] == '.' && DigitsEnd(s, 0) == 0;
  }

  lemma PointRead(fraction: string)
    requires AllDigits(fraction)
    ensures NumberOf("." + fraction) == Decimal(ValueOf(fraction), -|fraction|)
  {
    hide OnlyDigits, ValueOf, PointAt, NumberOf;
    var s := "." + fraction;
    OnlyDigitsConcat(".", fraction);
    OnlyDigitsSame(fraction);
    NoDigitPoint();
    assert "" + fraction == fraction;
    PointFound(s, 0, 0);
    NumberAt(s, 0);
  }

  lemma NoDigitPoint()
    ensures OnlyDigits(".") == ""
  {
    assert "."[..0] == "";
  }

  lemma PointAlone(s: string, e: nat, n: Decimal)
    requires s != "" && s[0] == '.' && NumberEnd(s, 0) == e > 0 && NumberOf(s[0..e]) == n
    requires e == |s| || (e + 1 == |s| && s[e] == '%')
    ensures MatchAt(s, 0) == Match(Found(n, if e < |s| then PercentTag else BareTag, 0, |s|), |s|)
  {
    hide NumberEnd, NumberOf, ScalePower, UnitAfter;
    NothingAfter(s);
  }

  // ---- every digit

  lemma DigitStarts(s: string, i: nat)
    requires i < |s| && Digit(s[i])
    ensures NumberEnd(s, i) > i
  {
    hide GroupsEnd, FractionEnd;
    assert DigitsEnd(s, i) >= i + 1;
  }

  lemma {:induction false} NoDigitSkipped(s: string, i: nat, k: nat)
    requires i <= |s| && i <= k < SkipSpace(s, i)
    ensures !Digit(s[k])
    decreases |s| - i
  {
    if i < k {
      NoDigitSkipped(s, i + 1, k);
    }
  }

  lemma NoDigitPercent(s: string, i: nat, k: nat)
    requires i <= |s| && i <= k < PercentEnd(s, i)
    ensures !Digit(s[k])
  {
    hide WordChar;
    if s[i] != '%' {
      if PrefixAt(s, i, "per") {
        var j := if i + 3 < |s| && Space(s[i + 3]) then i + 4 else i + 3;
        if k < i + 3 {
          assert Lower(s[i + (k - i)]) == "per"[k - i];
        } else if k >= j {
          assert Lower(s[j + (k - j)]) == "cent"[k - j];
        }
      } else {
        assert Lower(s[i + (k - i)]) == "pct"[k - i];
      }
    }
  }

  /** A match leaves no digit outside its literal. */
  lemma MatchTakesDigits(s: string, i: nat, k: nat)
    requires i <= k < |s| && Digit(s[k])
    requires MatchAt(s, i).Match? ==> k < MatchAt(s, i).next
    ensures MatchAt(s, i).Match? ==> MatchAt(s, i).found.start <= k < MatchAt(s, i).found.end
    ensures MatchAt(s, i).NoMatch? ==> k > i
  {
    hide NumberEnd, SkipSpace, PercentEnd, SuffixPower, ScalePower, UnitAfter, NumberOf;
    var from := if s[i] == '$' then i + 1 else i;
    var start := SkipSpace(s, from);
    if k >= from && k < start {
      NoDigitSkipped(s, from, k);
    }
    if k == i {
      DigitSkips(s, i);
      DigitStarts(s, i);
    }
    var e := NumberEnd(s, start);
    if e > start && k >= e {
      SuffixIs(s, e);
      var f := if SuffixPower(s, e) > 0 then e + 1 else e;
      var after := SkipSpace(s, f);
      if f <= k < after {
        NoDigitSkipped(s, f, k);
      } else if k >= after {
        NoDigitPercent(s, after, k);
      }
    }
  }

  lemma DigitSkips(s: string, i: nat)
    requires i < |s| && Digit(s[i])
    ensures SkipSpace(s, i) == i && s[i] != '$'
  {
  }

  /** Every digit of a text belongs to one of its literals. */
  lemma {:induction false} EveryDigit(s: string, i: nat, k: nat)
    requires i <= k < |s| && Digit(s[k])
    ensures exists f <- LexFrom(s, i) :: f.start <= k < f.end
    decreases |s| - i
  {
    hide MatchAt, Digit;
    match MatchAt(s, i)
    case NoMatch =>
      MatchTakesDigits(s, i, k);
      EveryDigit(s, i + 1, k);
    case Match(f, next) =>
      if k < next {
        MatchTakesDigits(s, i, k);
        assert f in LexFrom(s, i);
      } else {
        EveryDigit(s, next, k);
        var g :| g in LexFrom(s, next) && g.start <= k < g.end;
        assert g in LexFrom(s, i);
      }
  }

  lemma MatchInside(s: string, i: nat)
    requires i <= |s| && MatchAt(s, i).Match?
    ensures var m := MatchAt(s, i);
      && i <= m.found.start < m.found.end <= m.next <= |s|
      && (Digit(s[m.found.start]) || s[m.found.start] == '.')
  {
    hide SkipSpace, PercentEnd, SuffixPower, ScalePower, UnitAfter, NumberOf, NumberEnd;
    var start := SkipSpace(s, if i < |s| && s[i] == '$' then i + 1 else i);
    NumberLeads(s, start);
    SuffixIs(s, NumberEnd(s, start));
  }

  lemma NumberLeads(s: string, i: nat)
    requires i <= |s| && NumberEnd(s, i) > i
    ensures i < |s| && (Digit(s[i]) || s[i] == '.')
  {
    hide GroupsEnd;
  }

  /** Literals one after the other from `i` on, each beginning with a digit or a point. */
  predicate Ordered(s: string, i: nat, fs: seq<Found>) {
    && (forall k :: 0 <= k < |fs| ==> i <= fs[k].start < fs[k].end <= |s|)
    && (forall k :: 0 <= k < |fs| ==> Digit(s[fs[k].start]) || s[fs[k].start] == '.')
    && forall j, k :: 0 <= j < k < |fs| ==> fs[j].end <= fs[k].start
  }

  lemma OrderedCons(s: string, i: nat, f: Found, rest: seq<Found>)
    requires i <= f.start < f.end <= |s| && (Digit(s[f.start]) || s[f.start] == '.')
    requires Ordered(s, f.end, rest)
    ensures Ordered(s, i, [f] + rest)
  {
    hide Digit;
    var fs := [f] + rest;
    assert forall k :: 0 < k < |fs| ==> fs[k] == rest[k - 1];
  }

  lemma OrderedFrom(s: string, i: nat, j: nat, fs: seq<Found>)
    requires Ordered(s, j, fs) && i <= j
    ensures Ordered(s, i, fs)
  {
  }

  /** The literals of a text stand one after the other, each beginning with a digit or a point. */
  lemma {:induction false} InOrder(s: string, i: nat)
    requires i <= |s|
    ensures Ordered(s, i, LexFrom(s, i))
    decreases |s| - i
  {
    hide MatchAt, Ordered;
    if i == |s| {
      NoneOrdered(s, i);
    } else {
      match MatchAt(s, i)
      case NoMatch =>
        InOrder(s, i + 1);
        OrderedFrom(s, i, i + 1, LexFrom(s, i + 1));
      case Match(f, next) =>
        MatchInside(s, i);
        InOrder(s, next);
        OrderedFrom(s, f.end, next, LexFrom(s, next));
        OrderedCons(s, i, f, LexFrom(s, next));
    }
  }

  lemma NoneOrdered(s: string, i: nat)
    ensures Ordered(s, i, [])
  {
  }
}
