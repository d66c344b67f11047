/** The number lexer: which stretches of an utterance are numeric literals, their value and
    their unit. */
module Lexer {
  import opened Decimals
  import opened Digits
  import opened Maps
  import opened Options

  // ---- characters and words

  predicate Space(c: char) {
    c == ' ' || '\t' <= c <= '\r'
  }

  predicate Letter(c: char) {
    'a' <= c <= 'z' || 'A' <= c <= 'Z'
  }

  predicate WordChar(c: char) {
    Letter(c) || Digit(c) || c == '_'
  }

  function Lower(c: char): char {
    if 'A' <= c <= 'Z' then 'a' + (c - 'A') else c
  }

  function SkipSpace(s: string, i: nat): (e: nat)
    requires i <= |s|
    ensures i <= e <= |s|
    decreases |s| - i
  {
    if i < |s| && Space(s[i]) then SkipSpace(s, i + 1) else i
  }

  /** White space and hyphens. */
  function SkipGap(s: string, i: nat): (e: nat)
    requires i <= |s|
    ensures i <= e <= |s|
    decreases |s| - i
  {
    if i < |s| && (Space(s[i]) || s[i] == '-') then SkipGap(s, i + 1) else i
  }

  /** `w` stands at `i`, in either case. */
  predicate PrefixAt(s: string, i: nat, w: string) {
    w != "" && i + |w| <= |s| && forall k :: 0 <= k < |w| ==> Lower(s[i + k]) == w[k]
  }

  /** The whole word `w` stands at `i`. */
  predicate WordAt(s: string, i: nat, w: string) {
    PrefixAt(s, i, w) && (i + |w| < |s| ==> !WordChar(s[i + |w|]))
  }

  /** The length of the first of the words that stands at `i`, or 0. */
  function FirstWord(s: string, i: nat, words: seq<string>): (n: nat)
    ensures i <= |s| ==> i + n <= |s|
    decreases |words|
  {
    if words == [] then 0 else if WordAt(s, i, words[0]) then |words[0]| else FirstWord(s, i, words[1..])
  }

  // ---- numbers

  /** The end of a fraction at `i`: a point and at least one digit. */
  function FractionEnd(s: string, i: nat): (e: nat)
    requires i <= |s|
    ensures i <= e <= |s|
  {
    if i < |s| && s[i] == '.' && DigitsEnd(s, i + 1) > i + 1 then DigitsEnd(s, i + 1) else i
  }

  predicate GroupAt(s: string, i: nat) {
    i + 4 <= |s| && s[i] == ',' && Digit(s[i + 1]) && Digit(s[i + 2]) && Digit(s[i + 3])
  }

  /** The end of the comma groups of three digits at `i`. */
  function GroupsEnd(s: string, i: nat): (e: nat)
    requires i <= |s|
    ensures i <= e <= |s|
    decreases |s| - i
  {
    if GroupAt(s, i) then GroupsEnd(s, i + 4) else i
  }

  /** The end of the whole part at `i`: at most three digits and groups, or a run of digits. */
  function WholeEnd(s: string, i: nat): (e: nat)
    requires i <= |s|
    ensures i <= e <= |s|
  {
    var d := DigitsEnd(s, i);
    if i < d <= i + 3 && GroupsEnd(s, d) > d then GroupsEnd(s, d) else d
  }

  /** The end of the number at `i`, or `i`. Without a whole part the point must not follow a
      digit or another point. */
  function NumberEnd(s: string, i: nat): (e: nat)
    requires i <= |s|
    ensures i <= e <= |s|
  {
    var w := WholeEnd(s, i);
    if w > i then FractionEnd(s, w)
    else if i > 0 && (Digit(s[i - 1]) || s[i - 1] == '.') then i
    else FractionEnd(s, i)
  }

  function PointAt(s: string, i: nat): (p: nat)
    requires i <= |s|
    ensures i <= p <= |s|
    decreases |s| - i
  {
    if i < |s| && s[i] != '.' then PointAt(s, i + 1) else i
  }

  function OnlyDigits(s: string): string
    decreases |s|
  {
    if s == "" then "" else OnlyDigits(s[..|s| - 1]) + (if Digit(s[|s| - 1]) then [s[|s| - 1]] else "")
  }

  lemma {:induction false} OnlyDigitsAreDigits(s: string)
    ensures forall i :: 0 <= i < |OnlyDigits(s)| ==> Digit(OnlyDigits(s)[i])
    decreases |s|
  {
    if s != "" {
      OnlyDigitsAreDigits(s[..|s| - 1]);
    }
  }

  /** The number a matched text stands for: its digits, with the point's place kept. */
  function NumberOf(s: string): Decimal {
    OnlyDigitsAreDigits(s);
    var p := PointAt(s, 0);
    Decimal(ValueOf(OnlyDigits(s)), if p < |s| then -(|s| - p - 1) else 0)
  }

  // ---- what follows a number

  /** An attached k or m that does not begin a word: the power of ten it stands for. */
  function SuffixPower(s: string, i: nat): nat {
    if i < |s| && Lower(s[i]) in "km" && !(i + 1 < |s| && Letter(s[i + 1])) then
      if Lower(s[i]) == 'k' then 3 else 6
    else 0
  }

  /** The end of a percent sign or word at `i`, or `i`. */
  function PercentEnd(s: string, i: nat): (e: nat)
    requires i <= |s|
    ensures i <= e <= |s|
  {
    if i < |s| && s[i] == '%' then i + 1
    else if PrefixAt(s, i, "per") then
      var j := if i + 3 < |s| && Space(s[i + 3]) then i + 4 else i + 3;
      if WordAt(s, j, "cent") then j + 4 else i
    else if WordAt(s, i, "pct") then i + 3
    else i
  }

  const SCALES := ["millions", "million", "mm", "thousand"]
  const UNITS := ["years", "year", "yrs", "yr", "months", "month", "mos", "mo", "days", "day", "weeks", "week",
    "quarters", "quarter"]

  /** The power of ten of a spelled scale after `i`. */
  function ScalePower(s: string, i: nat): nat
    requires i <= |s|
  {
    var at := SkipGap(s, i);
    var n := FirstWord(s, at, SCALES);
    if n == 0 then 0 else if WordAt(s, at, "thousand") then 3 else 6
  }

  function UnitAfter(s: string, i: nat): Option<Tag>
    requires i <= |s|
  {
    var at := SkipGap(s, i);
    var n := FirstWord(s, at, UNITS);
    if n == 0 then None
    else
      var c := Lower(s[at]);
      Some(if c == 'y' then YearsTag else if c == 'm' then MonthsTag else if c == 'd' then DaysTag
        else if c == 'w' then WeeksTag else QuartersTag)
  }

  // ---- literals

  /** A literal: its value, its tag and the characters it covers. */
  datatype Found = Found(value: Decimal, tag: Tag, start: nat, end: nat)

  /** The literal matched from `i`, and where the match ends. */
  datatype Match = NoMatch | Match(found: Found, next: nat)

  function MatchAt(s: string, i: nat): (m: Match)
    requires i <= |s|
    ensures m.Match? ==> i < m.next <= |s|
  {
    var dollar := i < |s| && s[i] == '$';
    var start := SkipSpace(s, if dollar then i + 1 else i);
    var e := NumberEnd(s, start);
    if e == start then NoMatch
    else
      var power := SuffixPower(s, e);
      var f := if power > 0 then e + 1 else e;
      var after := SkipSpace(s, f);
      var next := PercentEnd(s, after);
      var percent := next > after;
      var scale := if power > 0 || percent then 0 else ScalePower(s, next);
      var unit := UnitAfter(s, next);
      var n := NumberOf(s[start..e]);
      var tag :=
        if percent then PercentTag
        else if scale > 0 then MoneyTag
        else if unit.Some? then unit.value
        else if dollar then MoneyTag
        else BareTag;
      Match(Found(Decimal(n.coef, n.exp + power + scale), tag, start, if percent then next else f), next)
  }

  function LexFrom(s: string, i: nat): seq<Found>
    requires i <= |s|
    decreases |s| - i
  {
    if i == |s| then []
    else match MatchAt(s, i)
      case NoMatch => LexFrom(s, i + 1)
      case Match(f, next) => [f] + LexFrom(s, next)
  }

  method Lex(s: string) returns (out: seq<Found>)
    ensures out == LexFrom(s, 0)
  {
    hide MatchAt;
    out := [];
    var i := 0;
    while i < |s|
      invariant i <= |s| && out + LexFrom(s, i) == LexFrom(s, 0)
    {
      match MatchAt(s, i) {
        case NoMatch => i := i + 1;
        case Match(f, next) =>
          assert out + ([f] + LexFrom(s, next)) == (out + [f]) + LexFrom(s, next);
          out, i := out + [f], next;
      }
    }
    assert out + [] == out;
  }
}
