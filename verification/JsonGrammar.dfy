/** What the parser of values accepts as escapes, code units and numbers, in the words of RFC 8259. */
module JsonGrammar {
  import opened Digits
  import opened Json
  import opened Options

  // ---- strings (section 7)

  /** The eight two-character escapes. */
  lemma EscapesAre(c: char, d: char)
    ensures Escaped(c) == Some(d) <==>
      || (c == d && c in "\"\\/") || (c == 'b' && d as int == 8) || (c == 't' && d as int == 9)
      || (c == 'n' && d as int == 10) || (c == 'f' && d as int == 12) || (c == 'r' && d as int == 13)
  {
  }

  /** The hexadecimal digits, in either case. */
  lemma HexIs(c: char)
    ensures HexValue(c) ==
      if 48 <= c as int <= 57 then c as int - 48 else if 97 <= c as int <= 102 then c as int - 87
      else if 65 <= c as int <= 70 then c as int - 55 else -1
  {
  }

  lemma UnitValue(s: string)
    requires |s| == 4
    ensures CodeUnit(s).Some? <==> forall k :: 0 <= k < 4 ==> HexValue(s[k]) >= 0
    ensures var (a, b, c, d) := (HexValue(s[0]), HexValue(s[1]), HexValue(s[2]), HexValue(s[3]));
      CodeUnit(s).Some? ==> CodeUnit(s).value == 4096 * a + 256 * b + 16 * c + d
  {
    hide HexValue;
  }

  /** A code unit becomes one byte below 128, two below 2048, else three; the bytes after the first
      carry six bits each. */
  lemma UnitBytes(u: nat)
    requires u < 0x1_0000
    ensures var b := Utf8(u);
      && |b| == (if u < 128 then 1 else if u < 2048 then 2 else 3)
      && (|b| == 1 ==> b[0] as int == u)
      && (|b| > 1 ==> forall k :: 0 < k < |b| ==> 128 <= b[k] as int < 192)
      && (|b| == 2 ==> 192 <= b[0] as int < 224 && u == 64 * (b[0] as int - 192) + (b[1] as int - 128))
      && (|b| == 3 ==>
        224 <= b[0] as int < 240 && u == 4096 * (b[0] as int - 224) + 64 * (b[1] as int - 128) + (b[2] as int - 128))
  {
  }

  // ---- numbers (section 6)

  predicate AllDigits(t: string) {
    forall i :: 0 <= i < |t| ==> Digit(t[i])
  }

  /** Zero, or digits that do not start with one. */
  predicate Whole(t: string) {
    t == "0" || (t != "" && t[0] != '0' && AllDigits(t))
  }

  predicate Fraction(t: string) {
    t == "" || (|t| >= 2 && t[0] == '.' && AllDigits(t[1..]))
  }

  predicate Exponent(t: string) {
    t == "" || (|t| >= 2 && t[0] in "eE" && AllDigits(t[1..]))
      || (|t| >= 3 && t[0] in "eE" && t[1] in "+-" && AllDigits(t[2..]))
  }

  /** The text goes on with none of the marks or digits that would belong to the number. */
  predicate Over(w: string, f: string, x: string, rest: string) {
    && (f == "" && x == "" ==> !Starts(rest, '.'))
    && (x == "" ==> !Starts(rest, 'e') && !Starts(rest, 'E'))
    && (rest != "" && Digit(rest[0]) ==> w == "0" && f == "" && x == "")
  }

  function Minus(negative: bool): string {
    if negative then "-" else ""
  }

  lemma {:induction false} RunIs(s: string, i: nat)
    requires i <= |s|
    ensures var e := DigitsEnd(s, i);
      e <= |s| && (forall k :: i <= k < e ==> Digit(s[k])) && (e < |s| ==> !Digit(s[e]))
    decreases |s| - i
  {
    if i < |s| && Digit(s[i]) {
      RunIs(s, i + 1);
    }
  }

  lemma RunTo(s: string, i: nat, e: nat)
    requires i <= e <= |s| && (forall k :: i <= k < e ==> Digit(s[k])) && (e < |s| ==> !Digit(s[e]))
    ensures DigitsEnd(s, i) == e
  {
    RunIs(s, i);
  }

  lemma WholeReads(negative: bool, w: string, rest: string)
    requires Whole(w) && (rest != "" && Digit(rest[0]) ==> w == "0")
    ensures WholeEnd(Minus(negative) + w + rest) == |Minus(negative)| + |w|
  {
    hide DigitsEnd;
    var s, i := Minus(negative) + w + rest, |Minus(negative)|;
    assert forall k :: 0 <= k < |w| ==> s[i + k] == w[k];
    assert s[i] == w[0] && Digit(w[0]);
    if w != "0" {
      assert i + |w| < |s| ==> s[i + |w|] == rest[0];
      assert forall k :: i <= k < i + |w| ==> s[k] == w[k - i];
      RunTo(s, i, i + |w|);
    }
  }

  lemma FractionReads(a: string, f: string, rest: string)
    requires Fraction(f) && (f == "" ==> !Starts(rest, '.')) && (rest != "" && Digit(rest[0]) ==> f == "")
    ensures FractionEnd(a + f + rest, |a|) == |a| + |f|
  {
    hide DigitsEnd;
    var s, i := a + f + rest, |a|;
    if f != "" {
      assert s[i] == f[0];
      assert forall k :: i + 1 <= k < i + |f| ==> s[k] == f[1..][k - i - 1];
      assert i + |f| < |s| ==> s[i + |f|] == rest[0];
      RunTo(s, i + 1, i + |f|);
    } else if rest != "" {
      assert s[i] == rest[0];
    }
  }

  lemma ExponentReads(a: string, x: string, rest: string)
    requires Exponent(x) && (x == "" ==> !Starts(rest, 'e') && !Starts(rest, 'E'))
    requires rest != "" && Digit(rest[0]) ==> x == ""
    ensures ExponentEnd(a + x + rest, |a|) == |a| + |x|
  {
    hide DigitsEnd;
    var s, i := a + x + rest, |a|;
    if x != "" {
      assert s[i] == x[0] && s[i + 1] == x[1];
      assert i + |x| < |s| ==> s[i + |x|] == rest[0];
      if x[1] in "+-" {
        SignNoDigit(x[1]);
        assert !AllDigits(x[1..]) by {
          assert x[1..][0] == x[1];
        }
        assert forall k :: i + 2 <= k < i + |x| ==> s[k] == x[2..][k - i - 2];
        RunTo(s, i + 2, i + |x|);
      } else {
        assert forall k :: i + 1 <= k < i + |x| ==> s[k] == x[1..][k - i - 1];
        RunTo(s, i + 1, i + |x|);
      }
    } else if rest != "" {
      assert s[i] == rest[0];
    }
  }

  lemma SignNoDigit(c: char)
    requires c in "+-"
    ensures !Digit(c)
  {
  }

  /** Every number of the grammar is read to its end. */
  lemma NumberReads(negative: bool, w: string, f: string, x: string, rest: string)
    requires Whole(w) && Fraction(f) && Exponent(x) && Over(w, f, x, rest)
    ensures NumberEnd(Minus(negative) + w + f + x + rest) == |Minus(negative) + w + f + x|
  {
    hide WholeEnd, FractionEnd, ExponentEnd, Whole;
    var m := Minus(negative);
    var s := m + w + f + x + rest;
    assert s == m + w + (f + x + rest);
    Marks(f, x, rest);
    assert WholeEnd(s) == |m| + |w| > 0 by {
      WholeLong(w);
      WholeReads(negative, w, f + x + rest);
    }
    assert s == (m + w) + f + (x + rest);
    Marks("", x, rest);
    assert "" + x + rest == x + rest;
    FractionReads(m + w, f, x + rest);
    assert s == (m + w + f) + x + rest;
    ExponentReads(m + w + f, x, rest);
  }

  lemma WholeLong(w: string)
    requires Whole(w)
    ensures w != ""
  {
  }

  /** What follows the whole part starts with a digit only if nothing of the number does. */
  lemma Marks(f: string, x: string, rest: string)
    requires Fraction(f) && Exponent(x)
    ensures var t := f + x + rest;
      && (t != "" && Digit(t[0]) ==> f == "" && x == "" && t == rest)
      && (f == "" && Starts(t, '.') ==> x == "" && Starts(rest, '.'))
  {
    if f != "" {
      assert (f + x + rest)[0] == f[0];
    } else if x != "" {
      assert (f + x + rest)[0] == x[0];
    } else {
      assert f + x + rest == rest;
    }
  }

  /** A number that is read is one of the grammar, and nothing of it is left over. */
  lemma NumberRead(s: string) returns (negative: bool, w: string, f: string, x: string, rest: string)
    requires NumberEnd(s) > 0
    ensures s == Minus(negative) + w + f + x + rest && |Minus(negative) + w + f + x| == NumberEnd(s)
    ensures Whole(w) && Fraction(f) && Exponent(x) && Over(w, f, x, rest)
  {
    hide DigitsEnd, WholeEnd, FractionEnd, ExponentEnd, Whole, Fraction, Exponent;
    var i := if Starts(s, '-') then 1 else 0;
    var a := WholeEnd(s);
    var b := FractionEnd(s, a);
    var c := ExponentEnd(s, b);
    WholeSlice(s);
    FractionSlice(s, a);
    ExponentSlice(s, b);
    negative, w, f, x, rest := i == 1, s[i..a], s[a..b], s[b..c], s[c..];
    assert c < |s| ==> rest[0] == s[c];
    Slices(s, i, a, b, c);
  }

  lemma Slices(s: string, i: nat, a: nat, b: nat, c: nat)
    requires i <= a <= b <= c <= |s|
    ensures s == s[..i] + s[i..a] + s[a..b] + s[b..c] + s[c..]
  {
  }

  lemma WholeSlice(s: string)
    requires WholeEnd(s) > 0
    ensures var i, a := if Starts(s, '-') then 1 else 0, WholeEnd(s);
      i < a <= |s| && Whole(s[i..a]) && (a < |s| && Digit(s[a]) ==> s[i..a] == "0")
  {
    hide DigitsEnd;
    var i, a := if Starts(s, '-') then 1 else 0, WholeEnd(s);
    RunIs(s, i);
    if s[i] != '0' {
      assert forall k :: 0 <= k < |s[i..a]| ==> s[i..a][k] == s[i + k];
    }
  }

  lemma FractionSlice(s: string, a: nat)
    requires a <= |s| && FractionEnd(s, a) > 0
    ensures var b := FractionEnd(s, a);
      a <= b <= |s| && Fraction(s[a..b]) && (b > a && b < |s| ==> !Digit(s[b])) && (a == b < |s| ==> s[a] != '.')
  {
    hide DigitsEnd;
    var b := FractionEnd(s, a);
    if a < |s| && s[a] == '.' {
      RunIs(s, a + 1);
      assert forall k :: 0 <= k < |s[a..b][1..]| ==> s[a..b][1..][k] == s[a + 1 + k];
    }
  }

  lemma ExponentSlice(s: string, b: nat)
    requires b <= |s| && ExponentEnd(s, b) > 0
    ensures var c := ExponentEnd(s, b);
      b <= c <= |s| && Exponent(s[b..c]) && (c > b && c < |s| ==> !Digit(s[c])) && (b == c < |s| ==> s[b] !in "eE")
  {
    hide DigitsEnd;
    var c := ExponentEnd(s, b);
    if b < |s| && s[b] in "eE" {
      var j := if b + 1 < |s| && s[b + 1] in "+-" then b + 2 else b + 1;
      RunIs(s, j);
      var x := s[b..c];
      assert x[0] == s[b] && x[1] == s[b + 1];
      var digits := x[j - b..];
      assert forall k :: 0 <= k < |digits| ==> digits[k] == s[j + k];
    }
  }
}
