/** What may stand around a printed number: a dollar sign before it, a suffix, a spelled scale, a
    unit or a percent word after it, and what each does to the literal. */
module LexUnits {
  import opened Decimals
  import opened Digits
  import opened Lexer
  import opened Maps
  import opened Options
  import opened Relex

  // ---- scanning a text that follows another

  lemma {:induction false} SkipSpaceBehind(a: string, t: string, i: nat)
    requires i <= |t|
    ensures SkipSpace(a + t, |a| + i) == |a| + SkipSpace(t, i)
    decreases |t| - i
  {
    if i < |t| {
      assert (a + t)[|a| + i] == t[i];
      SkipSpaceBehind(a, t, i + 1);
    }
  }

  lemma {:induction false} SkipGapBehind(a: string, t: string, i: nat)
    requires i <= |t|
    ensures SkipGap(a + t, |a| + i) == |a| + SkipGap(t, i)
    decreases |t| - i
  {
    if i < |t| {
      assert (a + t)[|a| + i] == t[i];
      SkipGapBehind(a, t, i + 1);
    }
  }

  lemma CharBehind(a: string, t: string, i: nat)
    requires i < |t|
    ensures (a + t)[|a| + i] == t[i]
  {
  }

  lemma PrefixBehind(a: string, t: string, i: nat, w: string)
    ensures PrefixAt(a + t, |a| + i, w) <==> PrefixAt(t, i, w)
  {
    if i + |w| <= |t| {
      forall k | 0 <= k < |w| ensures Lower((a + t)[|a| + i + k]) == w[k] <==> Lower(t[i + k]) == w[k] {
        CharBehind(a, t, i + k);
      }
    }
    assert PrefixAt(a + t, |a| + i, w) ==> forall k :: 0 <= k < |w| ==> Lower((a + t)[|a| + i + k]) == w[k];
  }

  lemma WordBehind(a: string, t: string, i: nat, w: string)
    ensures WordAt(a + t, |a| + i, w) <==> WordAt(t, i, w)
  {
    hide PrefixAt, WordChar;
    PrefixBehind(a, t, i, w);
    if i + |w| < |t| {
      CharBehind(a, t, i + |w|);
    }
  }

  lemma {:induction false} FirstWordBehind(a: string, t: string, i: nat, words: seq<string>)
    ensures FirstWord(a + t, |a| + i, words) == FirstWord(t, i, words)
    decreases |words|
  {
    hide WordAt;
    if words != [] {
      WordBehind(a, t, i, words[0]);
      FirstWordBehind(a, t, i, words[1..]);
    }
  }

  lemma SuffixBehind(a: string, t: string)
    ensures SuffixPower(a + t, |a|) == SuffixPower(t, 0)
  {
    if t != "" {
      CharBehind(a, t, 0);
      if |t| > 1 {
        CharBehind(a, t, 1);
      }
    }
  }

  lemma PercentBehind(a: string, t: string, i: nat)
    requires i <= |t|
    ensures PercentEnd(a + t, |a| + i) == |a| + PercentEnd(t, i)
  {
    hide PrefixAt, WordAt;
    if i < |t| {
      CharBehind(a, t, i);
    }
    if i + 3 < |t| {
      CharBehind(a, t, i + 3);
    }
    PrefixBehind(a, t, i, "per");
    WordBehind(a, t, i + 3, "cent");
    WordBehind(a, t, i + 4, "cent");
    WordBehind(a, t, i, "pct");
    assert |a| + i + 3 == |a| + (i + 3) && |a| + i + 4 == |a| + (i + 4);
    PerFits(t, i);
  }

  lemma PerFits(t: string, i: nat)
    ensures PrefixAt(t, i, "per") ==> i + 3 <= |t|
    ensures WordAt(t, i, "pct") ==> i + 3 <= |t|
  {
  }

  lemma ScaleBehind(a: string, t: string, i: nat)
    requires i <= |t|
    ensures ScalePower(a + t, |a| + i) == ScalePower(t, i)
  {
    hide FirstWord, WordAt, SkipGap;
    SkipGapBehind(a, t, i);
    var at := SkipGap(t, i);
    FirstWordBehind(a, t, at, SCALES);
    WordBehind(a, t, at, "thousand");
  }

  lemma UnitBehind(a: string, t: string, i: nat)
    requires i <= |t|
    ensures UnitAfter(a + t, |a| + i) == UnitAfter(t, i)
  {
    hide FirstWord, SkipGap;
    SkipGapBehind(a, t, i);
    var at := SkipGap(t, i);
    FirstWordBehind(a, t, at, UNITS);
    if at < |t| {
      CharBehind(a, t, at);
    }
    WordFits(t, at, UNITS);
  }

  lemma {:induction false} WordFits(t: string, i: nat, words: seq<string>)
    ensures FirstWord(t, i, words) > 0 ==> i < |t|
    decreases |words|
  {
    if words != [] {
      WordFits(t, i, words[1..]);
    }
  }

  // ---- a number after a text

  lemma {:induction false} DigitsBehind(a: string, t: string, i: nat)
    requires i <= |t|
    ensures DigitsEnd(a + t, |a| + i) == |a| + DigitsEnd(t, i)
    decreases |t| - i
  {
    if i < |t| {
      CharBehind(a, t, i);
      DigitsBehind(a, t, i + 1);
    }
  }

  lemma {:induction false} GroupsBehind(a: string, t: string, i: nat)
    requires i <= |t|
    ensures GroupsEnd(a + t, |a| + i) == |a| + GroupsEnd(t, i)
    decreases |t| - i
  {
    if i + 4 <= |t| {
      CharBehind(a, t, i);
      CharBehind(a, t, i + 1);
      CharBehind(a, t, i + 2);
      CharBehind(a, t, i + 3);
      GroupsBehind(a, t, i + 4);
    }
  }

  lemma FractionBehind(a: string, t: string, i: nat)
    requires i <= |t|
    ensures FractionEnd(a + t, |a| + i) == |a| + FractionEnd(t, i)
  {
    hide DigitsEnd;
    if i < |t| {
      CharBehind(a, t, i);
      DigitsBehind(a, t, i + 1);
    }
  }

  /** A number with a whole part does not depend on what stands before it. */
  lemma NumberBehind(a: string, t: string)
    requires WholeEnd(t, 0) > 0
    ensures NumberEnd(a + t, |a|) == |a| + NumberEnd(t, 0)
  {
    hide DigitsEnd, GroupsEnd, FractionEnd;
    DigitsBehind(a, t, 0);
    GroupsBehind(a, t, DigitsEnd(t, 0));
    FractionBehind(a, t, WholeEnd(t, 0));
  }

  // ---- the literal of a printed number

  /** Nothing, or a dollar sign and white space. */
  predicate Sign(lead: string) {
    lead == "" || (lead[0] == '$' && forall k :: 0 < k < |lead| ==> Space(lead[k]))
  }

  function Number(n: nat, grouped: bool, fraction: string): string {
    Whole(n, grouped) + Fraction(fraction)
  }

  /** The number that is printed. */
  ghost function Stated(n: nat, fraction: string): Decimal
    requires AllDigits(fraction)
  {
    Decimal(n * Power10(|fraction|) + ValueOf(fraction), -|fraction|)
  }

  /** What follows the digits, said of the text after them: the powers of ten it multiplies by, the tag
      it decides, and how much of it belongs to the literal and to the match. */
  datatype After = After(power: nat, tag: Option<Tag>, covered: nat, matched: nat)

  function AfterOf(rest: string): After {
    var power := SuffixPower(rest, 0);
    var f := if power > 0 then 1 else 0;
    var after := SkipSpace(rest, f);
    var next := PercentEnd(rest, after);
    var percent := next > after;
    var scale := if power > 0 || percent then 0 else ScalePower(rest, next);
    var tag := if percent then Some(PercentTag) else if scale > 0 then Some(MoneyTag) else UnitAfter(rest, next);
    After(power + scale, tag, if percent then next else f, next)
  }

  lemma {:induction false} SkipSpaces(lead: string, t: string, i: nat)
    requires i <= |lead| && (forall k :: i <= k < |lead| ==> Space(lead[k])) && (t != "" ==> !Space(t[0]))
    ensures SkipSpace(lead + t, i) == |lead|
    decreases |lead| - i
  {
    if i < |lead| {
      assert (lead + t)[i] == lead[i];
      SkipSpaces(lead, t, i + 1);
    } else if t != "" {
      assert (lead + t)[i] == t[0];
    }
  }

  lemma NumberStands(lead: string, n: nat, grouped: bool, fraction: string, rest: string)
    requires Sign(lead) && AllDigits(fraction) && Stop(rest)
    ensures var s := lead + Number(n, grouped, fraction) + rest;
      && s != "" && (s[0] == '$' <==> lead != "") && SkipSpace(s, if lead != "" then 1 else 0) == |lead|
      && NumberEnd(s, |lead|) == |lead| + |Number(n, grouped, fraction)| > |lead|
  {
    hide Whole, NumberEnd, WholeEnd, SkipSpace, Stop;
    var num := Number(n, grouped, fraction);
    var t := num + rest;
    assert lead + num + rest == lead + t;
    WholeFacts(n, grouped);
    assert t[0] == Whole(n, grouped)[0];
    DigitPlain(t[0]);
    SkipSpaces(lead, t, if lead != "" then 1 else 0);
    NumberMatched(n, grouped, fraction, rest);
    WholeLeads(n, grouped, fraction, rest);
    NumberBehind(lead, t);
  }

  lemma DigitPlain(c: char)
    requires Digit(c)
    ensures !Space(c) && c != '$'
  {
  }

  lemma WholeLeads(n: nat, grouped: bool, fraction: string, rest: string)
    requires AllDigits(fraction) && Stop(rest)
    ensures WholeEnd(Number(n, grouped, fraction) + rest, 0) > 0
  {
    hide Grouped, DecimalText, WholeEnd;
    var after := Fraction(fraction) + rest;
    assert Number(n, grouped, fraction) + rest == Whole(n, grouped) + after;
    TailAfter(fraction, rest);
    if grouped {
      GroupedWhole(n, after);
    } else {
      PlainWhole(n, after);
    }
  }

  lemma TailAfter(fraction: string, rest: string)
    requires Stop(rest)
    ensures Tail(Fraction(fraction) + rest)
  {
    if fraction != "" {
      assert (Fraction(fraction) + rest)[0] == '.';
    } else {
      assert Fraction(fraction) + rest == rest;
    }
  }

  /** The first literal: the printed number times the powers of ten after it, with the tag what
      follows decides, else the dollar sign's. */
  lemma FirstLiteral(lead: string, n: nat, grouped: bool, fraction: string, rest: string)
    requires Sign(lead) && AllDigits(fraction) && Stop(rest)
    ensures var num, a, d := Number(n, grouped, fraction), AfterOf(rest), Stated(n, fraction);
      var e := |lead| + |num|;
      MatchAt(lead + num + rest, 0) == Match(Found(Decimal(d.coef, d.exp + a.power),
        if a.tag.Some? then a.tag.value else if lead != "" then MoneyTag else BareTag, |lead|, e + a.covered),
        e + a.matched)
  {
    hide NumberEnd, NumberOf, SuffixPower, SkipSpace, PercentEnd, ScalePower, UnitAfter, Number, Stop, Sign;
    var num := Number(n, grouped, fraction);
    var a := lead + num;
    var s := a + rest;
    NumberStands(lead, n, grouped, fraction, rest);
    assert s[|lead|..|a|] == num;
    NumberPrinted(n, grouped, fraction);
    SuffixBehind(a, rest);
    var f := if SuffixPower(rest, 0) > 0 then 1 else 0;
    SuffixFits(rest);
    SkipSpaceBehind(a, rest, f);
    var after := SkipSpace(rest, f);
    PercentBehind(a, rest, after);
    var next := PercentEnd(rest, after);
    ScaleBehind(a, rest, next);
    UnitBehind(a, rest, next);
  }

  lemma NumberPrinted(n: nat, grouped: bool, fraction: string)
    requires AllDigits(fraction)
    ensures NumberOf(Number(n, grouped, fraction)) == Stated(n, fraction)
  {
    hide NumberOf, Whole;
    NumberRead(n, grouped, fraction);
  }

  lemma SuffixFits(rest: string)
    ensures SuffixPower(rest, 0) > 0 ==> rest != ""
  {
  }

  // ---- words

  /** `t` is the word `w`, in either case. */
  predicate Spells(t: string, w: string) {
    |t| == |w| && forall k :: 0 <= k < |w| ==> Lower(t[k]) == w[k]
  }

  /** White space and hyphens. */
  predicate Gap(g: string) {
    forall k :: 0 <= k < |g| ==> Space(g[k]) || g[k] == '-'
  }

  /** Text that does not continue a word. */
  predicate Apart(more: string) {
    more != "" ==> !WordChar(more[0])
  }

  /** Lower-case letters only. */
  predicate Word(w: string) {
    w != "" && forall k :: 0 <= k < |w| ==> 'a' <= w[k] <= 'z'
  }

  lemma WordStands(t: string, w: string, more: string)
    requires Spells(t, w) && Word(w) && Apart(more)
    ensures WordAt(t + more, 0, w)
  {
    assert forall k :: 0 <= k < |w| ==> (t + more)[k] == t[k];
    if more != "" {
      assert (t + more)[|t|] == more[0];
    }
  }

  /** Only one word stands at a place. */
  lemma OneWord(s: string, i: nat, v: string, w: string)
    requires WordAt(s, i, v) && WordAt(s, i, w) && Word(v) && Word(w)
    ensures v == w
  {
    if |v| < |w| {
      assert Lower(s[i + |v|]) == w[|v|];
      LetterWord(s[i + |v|]);
    } else if |w| < |v| {
      assert Lower(s[i + |w|]) == v[|w|];
      LetterWord(s[i + |w|]);
    } else {
      assert forall k :: 0 <= k < |v| ==> v[k] == w[k];
    }
  }

  lemma LetterWord(c: char)
    ensures 'a' <= Lower(c) <= 'z' ==> WordChar(c)
  {
  }

  lemma {:induction false} WordFound(s: string, i: nat, w: string, words: seq<string>)
    requires WordAt(s, i, w) && Word(w) && forall v <- words :: Word(v)
    ensures FirstWord(s, i, words) == if w in words then |w| else 0
    decreases |words|
  {
    hide WordAt, Word;
    if words != [] {
      if WordAt(s, i, words[0]) {
        OneWord(s, i, w, words[0]);
        WordLong(w);
      } else {
        WordFound(s, i, w, words[1..]);
      }
    }
  }

  lemma WordLong(w: string)
    requires Word(w)
    ensures |w| > 0
  {
  }

  lemma ListsOfWords()
    ensures (forall v <- SCALES :: Word(v)) && (forall v <- UNITS :: Word(v))
  {
  }

  lemma {:induction false} GapSkipped(g: string, t: string, i: nat)
    requires Gap(g) && i <= |g| && (t != "" ==> !Space(t[0]) && t[0] != '-')
    ensures SkipGap(g + t, i) == |g|
    decreases |g| - i
  {
    if i < |g| {
      assert (g + t)[i] == g[i];
      GapSkipped(g, t, i + 1);
    } else if t != "" {
      assert (g + t)[i] == t[0];
    }
  }

  lemma {:induction false} SpaceWithin(g: string, t: string, i: nat)
    requires i <= |g| && (t != "" ==> !Space(t[0]))
    ensures i <= SkipSpace(g + t, i) <= |g|
    decreases |g| - i
  {
    if i < |g| {
      assert (g + t)[i] == g[i];
      if Space(g[i]) {
        SpaceWithin(g, t, i + 1);
      }
    } else if t != "" {
      assert (g + t)[i] == t[0];
    }
  }

  // ---- a word after the number

  /** A gap and a word that is neither a suffix nor a percent word. */
  ghost predicate WordAfter(rest: string, g: string, t: string, w: string, more: string) {
    rest == g + t + more && Gap(g) && Spells(t, w) && Word(w) && |w| >= 2 && Apart(more) && w[0] != 'p'
  }

  /** It decides by itself: no suffix, no percent sign; the scale and the unit are the word's. */
  lemma WordDecides(rest: string, g: string, t: string, w: string, more: string)
    requires WordAfter(rest, g, t, w, more)
    ensures SuffixPower(rest, 0) == 0 && PercentEnd(rest, SkipSpace(rest, 0)) == SkipSpace(rest, 0)
    ensures var i := SkipSpace(rest, 0);
      && ScalePower(rest, i) == (if w !in SCALES then 0 else if w == "thousand" then 3 else 6)
      && UnitAfter(rest, i) == (if w in UNITS then Some(ByFirstLetter(w[0])) else None)
    ensures Stop(rest)
  {
    hide SkipSpace, SkipGap, FirstWord, WordAt, Stop;
    var tail := t + more;
    assert rest == g + tail;
    assert tail[0] == t[0] && tail[1] == t[1];
    LetterOf(t, w, 0);
    LetterOf(t, w, 1);
    NoSuffix(rest, g, t, w, more);
    SpaceWithin(g, tail, 0);
    var i := SkipSpace(rest, 0);
    GapSkipped(g, tail, i);
    assert SkipGap(rest, i) == |g|;
    WordStands(t, w, more);
    WordBehind(g, tail, 0, w);
    assert WordAt(rest, |g|, w);
    NoPercent(rest, g, tail, i);
    ListsOfWords();
    WordFound(rest, |g|, w, SCALES);
    WordFound(rest, |g|, w, UNITS);
    Thousand(rest, |g|, w);
    assert Lower(rest[|g|]) == w[0];
    WordLong(w);
    Stops(rest, g, tail);
  }

  lemma Stops(rest: string, g: string, tail: string)
    requires rest == g + tail && Gap(g) && tail != "" && Letter(tail[0])
    ensures Stop(rest)
  {
    assert rest[0] == if g != "" then g[0] else tail[0];
  }

  lemma Thousand(s: string, i: nat, w: string)
    requires WordAt(s, i, w) && Word(w)
    ensures WordAt(s, i, "thousand") <==> w == "thousand"
  {
    hide WordAt;
    if WordAt(s, i, "thousand") {
      OneWord(s, i, w, "thousand");
    }
  }

  lemma LetterOf(t: string, w: string, k: nat)
    requires Spells(t, w) && Word(w) && k < |w|
    ensures Letter(t[k]) && !Space(t[k]) && t[k] != '-' && t[k] != '%' && Lower(t[k]) == w[k]
  {
  }

  lemma NoSuffix(rest: string, g: string, t: string, w: string, more: string)
    requires WordAfter(rest, g, t, w, more)
    ensures SuffixPower(rest, 0) == 0
  {
    LetterOf(t, w, 1);
    if g == "" {
      assert rest[1] == t[1];
    } else {
      assert rest[0] == g[0];
    }
  }

  lemma NoPercent(rest: string, g: string, tail: string, i: nat)
    requires rest == g + tail && Gap(g) && i <= |g| && tail != "" && Letter(tail[0]) && Lower(tail[0]) != 'p'
    ensures PercentEnd(rest, i) == i
  {
    hide Space;
    assert rest[i] == if i < |g| then g[i] else tail[0];
    NoSign(rest[i]);
    PrefixFirst(rest, i, "per");
    PrefixFirst(rest, i, "pct");
  }

  lemma PrefixFirst(s: string, i: nat, w: string)
    ensures PrefixAt(s, i, w) ==> i < |s| && w != "" && Lower(s[i]) == w[0]
  {
    if PrefixAt(s, i, w) {
      assert Lower(s[i + 0]) == w[0];
    }
  }

  lemma NoSign(c: char)
    ensures Letter(c) ==> c != '%'
    ensures Space(c) || c == '-' ==> c != '%' && Lower(c) == c != 'p'
  {
  }

  /** The unit a word's first letter stands for. */
  function ByFirstLetter(c: char): Tag {
    if c == 'y' then YearsTag else if c == 'm' then MonthsTag else if c == 'd' then DaysTag
    else if c == 'w' then WeeksTag else QuartersTag
  }

  // ---- the rest of the text

  predicate NoDigits(s: string) {
    forall i :: 0 <= i < |s| ==> !Digit(s[i])
  }

  lemma NoNumber(s: string, i: nat)
    requires i <= |s| && forall k :: i <= k < |s| ==> !Digit(s[k])
    ensures NumberEnd(s, i) == i
  {
    assert DigitsEnd(s, i) == i;
    assert i < |s| ==> DigitsEnd(s, i + 1) == i + 1;
  }

  /** A text has no literal from `i` on when it has no digit there. */
  lemma {:induction false} NoLiterals(s: string, i: nat)
    requires i <= |s| && forall k :: i <= k < |s| ==> !Digit(s[k])
    ensures LexFrom(s, i) == []
    decreases |s| - i
  {
    hide NumberEnd, NumberOf, SkipSpace;
    if i < |s| {
      NoNumber(s, SkipSpace(s, if s[i] == '$' then i + 1 else i));
      NoLiterals(s, i + 1);
    }
  }

  /** A printed number and a text without digits: one literal. */
  lemma OneLiteral(lead: string, n: nat, grouped: bool, fraction: string, rest: string)
    requires Sign(lead) && AllDigits(fraction) && Stop(rest) && NoDigits(rest)
    ensures var s, num, a, d := lead + Number(n, grouped, fraction) + rest, Number(n, grouped, fraction), AfterOf(rest),
        Stated(n, fraction);
      var e := |lead| + |num|;
      LexFrom(s, 0) == [Found(Decimal(d.coef, d.exp + a.power),
        if a.tag.Some? then a.tag.value else if lead != "" then MoneyTag else BareTag, |lead|, e + a.covered)]
  {
    hide Number, Sign, Stop, MatchAt, AfterOf, Stated;
    var num := Number(n, grouped, fraction);
    var front := lead + num;
    var s := front + rest;
    FirstLiteral(lead, n, grouped, fraction, rest);
    var m := MatchAt(s, 0);
    MatchedInside(rest);
    assert forall k :: |front| <= k < |s| ==> s[k] == rest[k - |front|];
    NoLiterals(s, m.next);
    assert [m.found] + [] == [m.found];
  }

  lemma MatchedInside(rest: string)
    ensures AfterOf(rest).matched <= |rest|
  {
    hide PercentEnd, SkipSpace, ScalePower, UnitAfter;
    SuffixFits(rest);
  }

  // ---- what each of them does

  lemma Thousandfold(d: Decimal)
    ensures Value(Decimal(d.coef, d.exp + 3)) == 1000.0 * Value(d)
    ensures Value(Decimal(d.coef, d.exp + 6)) == 1000000.0 * Value(d)
  {
    hide Shift;
    var x := d.coef as real;
    ShiftStep(x, d.exp);
    ShiftStep(x, d.exp + 1);
    ShiftStep(x, d.exp + 2);
    ShiftStep(x, d.exp + 3);
    ShiftStep(x, d.exp + 4);
    ShiftStep(x, d.exp + 5);
  }

  /** A k or m attached to the number, in either case and not beginning a word, multiplies it by a
      thousand or a million. */
  lemma SuffixMultiplies(lead: string, n: nat, grouped: bool, fraction: string, c: char, more: string)
    returns (f: Found)
    requires Sign(lead) && AllDigits(fraction) && c in "kKmM" && NoDigits(more)
    requires more != "" ==> !Letter(more[0])
    ensures LexFrom(lead + Number(n, grouped, fraction) + ([c] + more), 0) == [f] && f.start == |lead|
    ensures Value(f.value) == (if c == 'k' || c == 'K' then 1000.0 else 1000000.0) * Value(Stated(n, fraction))
    ensures more == "" ==>
      f.tag == (if lead != "" then MoneyTag else BareTag) && f.end == |lead| + |Number(n, grouped, fraction)| + 1
  {
    hide LexFrom, Number, Sign, AfterOf, Stated, Value;
    var rest := [c] + more;
    SuffixDecides(c, more);
    OneLiteral(lead, n, grouped, fraction, rest);
    Thousandfold(Stated(n, fraction));
    f := LexFrom(lead + Number(n, grouped, fraction) + rest, 0)[0];
  }

  lemma SuffixDecides(c: char, more: string)
    requires c in "kKmM" && (more != "" ==> !Letter(more[0])) && NoDigits(more)
    ensures var rest := [c] + more;
      && AfterOf(rest).power == (if c == 'k' || c == 'K' then 3 else 6) && Stop(rest) && NoDigits(rest)
      && (more == "" ==> AfterOf(rest).tag == None && AfterOf(rest).covered == 1)
  {
    hide PercentEnd, ScalePower, UnitAfter, SkipSpace;
    var rest := [c] + more;
    assert rest[0] == c;
    assert more != "" ==> rest[1] == more[0];
    if more == "" {
      NothingAfter(rest);
    }
  }

  /** A spelled scale after white space or hyphens multiplies the number and makes it money; the
      word is not part of the literal. */
  lemma ScaleMultiplies(lead: string, n: nat, grouped: bool, fraction: string, g: string, t: string, w: string,
      more: string)
    returns (f: Found)
    requires Sign(lead) && AllDigits(fraction) && Gap(g) && Apart(more) && NoDigits(more)
    requires Spells(t, w) && w in ["thousand", "million", "millions", "mm"]
    ensures LexFrom(lead + Number(n, grouped, fraction) + (g + t + more), 0) == [f]
    ensures Value(f.value) == (if w == "thousand" then 1000.0 else 1000000.0) * Value(Stated(n, fraction))
    ensures f.tag == MoneyTag && f.start == |lead| && f.end == |lead| + |Number(n, grouped, fraction)|
  {
    hide LexFrom, Number, Sign, AfterOf, Stated, Value, Spells, Gap, Apart, NoDigits;
    var rest := g + t + more;
    ScaleWord(w);
    WordAlone(rest, g, t, w, more);
    OneLiteral(lead, n, grouped, fraction, rest);
    Thousandfold(Stated(n, fraction));
    f := LexFrom(lead + Number(n, grouped, fraction) + rest, 0)[0];
  }

  lemma ScaleWord(w: string)
    requires w in ["thousand", "million", "millions", "mm"]
    ensures Word(w) && |w| >= 2 && w[0] != 'p' && w in SCALES
  {
  }

  /** What a word after the number decides. */
  lemma WordAlone(rest: string, g: string, t: string, w: string, more: string)
    requires WordAfter(rest, g, t, w, more) && NoDigits(more)
    ensures var a := AfterOf(rest);
      && Stop(rest) && NoDigits(rest) && a.covered == 0
      && a.power == (if w !in SCALES then 0 else if w == "thousand" then 3 else 6)
      && a.tag == (if w in SCALES then Some(MoneyTag) else if w in UNITS then Some(ByFirstLetter(w[0])) else None)
  {
    hide SuffixPower, PercentEnd, ScalePower, UnitAfter, SkipSpace, Stop, ByFirstLetter;
    WordDecides(rest, g, t, w, more);
    forall i | 0 <= i < |rest| ensures !Digit(rest[i]) {
      assert rest[i] == if i < |g| then g[i] else if i < |g| + |t| then t[i - |g|] else more[i - |g| - |t|];
      if |g| <= i < |g| + |t| {
        LetterOf(t, w, i - |g|);
      }
    }
  }

  /** The unit each word names. */
  ghost predicate Names(w: string, unit: Tag) {
    match unit
    case YearsTag => w in ["year", "years", "yr", "yrs"]
    case MonthsTag => w in ["month", "months", "mo", "mos"]
    case DaysTag => w in ["day", "days"]
    case WeeksTag => w in ["week", "weeks"]
    case QuartersTag => w in ["quarter", "quarters"]
    case _ => false
  }

  /** A unit word tags the number and leaves its value. */
  lemma UnitTags(lead: string, n: nat, grouped: bool, fraction: string, g: string, t: string, w: string, unit: Tag,
      more: string)
    requires Sign(lead) && AllDigits(fraction) && Gap(g) && Apart(more) && NoDigits(more)
    requires Spells(t, w) && Names(w, unit)
    ensures LexFrom(lead + Number(n, grouped, fraction) + (g + t + more), 0) ==
      [Found(Stated(n, fraction), unit, |lead|, |lead| + |Number(n, grouped, fraction)|)]
  {
    hide LexFrom, Number, Sign, AfterOf, Spells, Gap, Apart, NoDigits, Names, Stated, Stop, Word, ByFirstLetter;
    var rest := g + t + more;
    UnitWord(w, unit);
    WordAlone(rest, g, t, w, more);
    OneLiteral(lead, n, grouped, fraction, rest);
  }

  lemma UnitWord(w: string, unit: Tag)
    requires Names(w, unit)
    ensures Word(w) && |w| >= 2 && w[0] != 'p' && w !in SCALES && w in UNITS && ByFirstLetter(w[0]) == unit
  {
  }

  /** Text after the number that decides nothing: the end, or a sign that is no letter, space, hyphen
      or percent sign. */
  predicate Quiet(rest: string) {
    rest != "" ==> !Letter(rest[0]) && !Space(rest[0]) && rest[0] != '-' && rest[0] != '%'
  }

  /** With nothing after it a number is as it is printed: money behind a dollar sign, else bare. */
  lemma SignDecides(lead: string, n: nat, grouped: bool, fraction: string, rest: string)
    requires Sign(lead) && AllDigits(fraction) && Stop(rest) && Quiet(rest) && NoDigits(rest)
    ensures LexFrom(lead + Number(n, grouped, fraction) + rest, 0) ==
      [Found(Stated(n, fraction), if lead != "" then MoneyTag else BareTag, |lead|,
        |lead| + |Number(n, grouped, fraction)|)]
  {
    hide LexFrom, Number, Sign, AfterOf, Stop;
    QuietDecides(rest);
    OneLiteral(lead, n, grouped, fraction, rest);
  }

  lemma QuietDecides(rest: string)
    requires Quiet(rest)
    ensures AfterOf(rest) == After(0, None, 0, 0)
  {
    hide FirstWord;
    QuietSuffix(rest);
    ListsOfWords();
    NoWordAt(rest, SCALES);
    NoWordAt(rest, UNITS);
  }

  lemma QuietSuffix(rest: string)
    requires Quiet(rest)
    ensures SuffixPower(rest, 0) == 0 && SkipSpace(rest, 0) == 0 && SkipGap(rest, 0) == 0 && PercentEnd(rest, 0) == 0
  {
    if rest != "" {
      NotLetter(rest[0]);
      PrefixFirst(rest, 0, "per");
      PrefixFirst(rest, 0, "pct");
    }
  }

  lemma NotLetter(c: char)
    requires !Letter(c)
    ensures Lower(c) == c && !('a' <= c <= 'z')
  {
  }

  lemma {:induction false} NoWordAt(rest: string, words: seq<string>)
    requires Quiet(rest) && forall v <- words :: Word(v)
    ensures FirstWord(rest, 0, words) == 0
    decreases |words|
  {
    if words != [] {
      var w := words[0];
      assert Word(w);
      if rest != "" {
        NotLetter(rest[0]);
        PrefixFirst(rest, 0, w);
      }
      NoWordAt(rest, words[1..]);
    }
  }

  // ---- percent

  /** A percent sign, or one of its words in either case: percent, per cent, pct. */
  ghost predicate PercentWord(p: string) {
    || p == "%"
    || Spells(p, "percent") || Spells(p, "pct")
    || (|p| == 8 && Spells(p[..3], "per") && Space(p[3]) && Spells(p[4..], "cent"))
  }

  predicate Spaces(g: string) {
    forall k :: 0 <= k < |g| ==> Space(g[k])
  }

  lemma PercentRead(p: string, more: string)
    requires PercentWord(p) && (p == "%" || Apart(more))
    ensures PercentEnd(p + more, 0) == |p| && p != "" && !Space(p[0]) && !Digit(p[0]) && p[0] != ',' && p[0] != '.'
    ensures SuffixPower(p + more, 0) == 0
  {
    var s := p + more;
    assert s[0] == p[0];
    if p != "%" {
      if Spells(p, "pct") {
        WordStands(p, "pct", more);
        PrefixOf(p, more, "pct", 3);
      } else if Spells(p, "percent") {
        PrefixOf(p, more, "percent", 3);
        CentAt(s, p[..3], p[3..], more);
      } else {
        PrefixOf(p[..3], p[3..] + more, "per", 3);
        assert s == p[..3] + (p[3..] + more);
        assert s[3] == p[3];
        CentAt(s, p[..4], p[4..], more);
      }
    }
  }

  lemma PrefixOf(p: string, more: string, w: string, n: nat)
    requires Spells(p, w) && 3 <= |w|
    ensures var s := p + more; Lower(s[0]) == w[0] && Lower(s[1]) == w[1] && Lower(s[2]) == w[2]
    ensures PrefixAt(p + more, 0, "per") <==> w[..3] == "per"
    ensures w[0] == 'p' ==> Letter(p[0])
    ensures |w| > 3 && 'a' <= w[3] <= 'z' ==> !Space((p + more)[3])
  {
    var s := p + more;
    assert s[0] == p[0] && s[1] == p[1] && s[2] == p[2];
    assert w[..3] == [w[0], w[1], w[2]];
    assert "per" == ['p', 'e', 'r'];
    assert PrefixAt(s, 0, "per") <==> Lower(s[0]) == 'p' && Lower(s[1]) == 'e' && Lower(s[2]) == 'r' by {
      assert "per"[0] == 'p' && "per"[1] == 'e' && "per"[2] == 'r';
    }
    if |w| > 3 {
      assert s[3] == p[3];
    }
  }

  lemma CentAt(s: string, a: string, t: string, more: string)
    requires s == a + t + more && Spells(t, "cent") && Apart(more)
    ensures WordAt(s, |a|, "cent")
  {
    WordStands(t, "cent", more);
    assert s == a + (t + more);
    WordBehind(a, t + more, 0, "cent");
  }

  /** A percent sign or word after white space tags the number and leaves its value; it belongs to
      the literal. */
  lemma PercentTags(lead: string, n: nat, grouped: bool, fraction: string, g: string, p: string, more: string)
    requires Sign(lead) && AllDigits(fraction) && Spaces(g) && PercentWord(p) && (p == "%" || Apart(more))
    requires NoDigits(more)
    ensures LexFrom(lead + Number(n, grouped, fraction) + (g + p + more), 0) ==
      [Found(Stated(n, fraction), PercentTag, |lead|, |lead| + |Number(n, grouped, fraction)| + |g| + |p|)]
  {
    hide LexFrom, Number, Sign, AfterOf, PercentWord, NoDigits, Stop, Spaces, Stated, Apart;
    var rest := g + p + more;
    PercentDecides(g, p, more);
    OneLiteral(lead, n, grouped, fraction, rest);
  }

  lemma PercentDecides(g: string, p: string, more: string)
    requires Spaces(g) && PercentWord(p) && (p == "%" || Apart(more)) && NoDigits(more)
    ensures var rest := g + p + more;
      AfterOf(rest) == After(0, Some(PercentTag), |g| + |p|, |g| + |p|) && Stop(rest) && NoDigits(rest)
  {
    hide PercentEnd, SkipSpace, PercentWord, UnitAfter, ScalePower;
    var rest, tail := g + p + more, p + more;
    assert rest == g + tail;
    PercentRead(p, more);
    assert tail[0] == p[0];
    SkipSpaces(g, tail, 0);
    PercentBehind(g, tail, 0);
    if g == "" {
      assert rest == tail;
    } else {
      assert rest[0] == g[0];
      SpaceNoSuffix(rest);
    }
    PercentNoDigits(p);
    forall i | 0 <= i < |rest| ensures !Digit(rest[i]) {
      assert rest[i] == if i < |g| then g[i] else if i < |g| + |p| then p[i - |g|] else more[i - |g| - |p|];
    }
  }

  lemma SpaceNoSuffix(rest: string)
    requires rest != "" && Space(rest[0])
    ensures SuffixPower(rest, 0) == 0 && Stop(rest)
  {
  }

  lemma PercentNoDigits(p: string)
    requires PercentWord(p)
    ensures NoDigits(p)
  {
    forall i | 0 <= i < |p| ensures !Digit(p[i]) {
      if Spells(p, "percent") {
        LetterOf(p, "percent", i);
      } else if Spells(p, "pct") {
        LetterOf(p, "pct", i);
      } else if p != "%" {
        if i < 3 {
          LetterOf(p[..3], "per", i);
        } else if i > 3 {
          LetterOf(p[4..], "cent", i - 4);
        }
      }
    }
  }
}
