/** The line grammar of the design marker: what a heading, a fence, a list entry, inline code and
    a status prefix are, said of the text and not of the scan. */
module MarkdownLines {
  import opened Markdown

  /** The six white space characters and the ten digits of ASCII. */
  lemma CharsAre(c: char)
    ensures IsSpace(c) <==> c == ' ' || c as int in {9, 10, 11, 12, 13}
    ensures IsDigit(c) <==> 48 <= c as int <= 57
  {
  }

  predicate AllSpaces(t: string) {
    forall k :: 0 <= k < |t| ==> IsSpace(t[k])
  }

  lemma {:induction false} RunIs(s: string, i: nat, p: char -> bool)
    requires i <= |s|
    ensures var e := RunEnd(s, i, p);
      (forall k :: i <= k < e ==> p(s[k])) && (e < |s| ==> !p(s[e]))
    decreases |s| - i
  {
    if i < |s| && p(s[i]) {
      RunIs(s, i + 1, p);
    }
  }

  /** A run ends where a stretch of such characters is followed by another. */
  lemma RunTo(s: string, i: nat, e: nat, p: char -> bool)
    requires i <= e <= |s| && (forall k :: i <= k < e ==> p(s[k])) && (e < |s| ==> !p(s[e]))
    ensures RunEnd(s, i, p) == e
  {
    RunIs(s, i, p);
  }

  // ---- headings and fences

  /** `n` hashes and white space. */
  predicate HeadingOf(s: string, n: nat) {
    1 <= n <= 6 && n < |s| && (forall k :: 0 <= k < n ==> s[k] == '#') && IsSpace(s[n])
  }

  /** A line is a heading of level `n` exactly when it starts with `n` hashes, one to six, and white
      space. */
  lemma HeadingIs(s: string, n: nat)
    ensures HeadingOf(s, n) <==> Level(s) == n > 0
    ensures Heading(s) <==> exists m: nat :: HeadingOf(s, m)
  {
    var hash := c => c == '#';
    RunIs(s, 0, hash);
    forall m | HeadingOf(s, m) ensures Level(s) == m {
      RunTo(s, 0, m, hash);
    }
    if Level(s) > 0 {
      assert HeadingOf(s, Level(s));
    }
  }

  /** A top-level list entry starts with a hyphen and a space; an entry ends at the next one or at a heading. */
  lemma EntryIs(s: string)
    ensures Item(s) <==> |s| >= 2 && s[0] == '-' && s[1] == ' '
    ensures Boundary(s) <==> (|s| >= 2 && s[0] == '-' && s[1] == ' ') || exists m: nat :: HeadingOf(s, m)
  {
    hide HeadingOf, Heading;
    HeadingIs(s, 0);
  }

  /** White space and three marks open or close a fence of their kind. */
  lemma FenceIs(s: string)
    ensures FenceOf(s) == Backticks <==> exists i :: 0 <= i <= |s| && AllSpaces(s[..i]) && "```" <= s[i..]
    ensures FenceOf(s) == Tildes <==> exists i :: 0 <= i <= |s| && AllSpaces(s[..i]) && "~~~" <= s[i..]
  {
    var e := RunEnd(s, 0, IsSpace);
    RunIs(s, 0, IsSpace);
    assert AllSpaces(s[..e]);
    forall i | 0 <= i < |s| && AllSpaces(s[..i]) && !IsSpace(s[i]) ensures i == e {
      assert forall k :: 0 <= k < i ==> s[..i][k] == s[k];
      RunTo(s, 0, i, IsSpace);
    }
    forall i | 0 <= i <= |s| && ("```" <= s[i..] || "~~~" <= s[i..]) ensures i < |s| && !IsSpace(s[i]) {
      assert s[i..][0] == s[i];
    }
  }

  // ---- inline code

  predicate NoTicks(t: string) {
    forall k :: 0 <= k < |t| ==> t[k] != '`'
  }

  lemma {:induction false} TextKept(a: string, t: string)
    requires NoTicks(a)
    ensures WithoutCode(a + t) == a + WithoutCode(t)
    decreases |a|
  {
    if a == "" {
      assert a + t == t;
    } else {
      assert (a + t)[0] == a[0] && (a + t)[1..] == a[1..] + t;
      TextKept(a[1..], t);
      assert [a[0]] + (a[1..] + WithoutCode(t)) == a + WithoutCode(t);
    }
  }

  lemma SpanDropped(code: string, t: string)
    requires NoTicks(code)
    ensures WithoutCode("`" + code + "`" + t) == WithoutCode(t)
  {
    var s, e := "`" + code + "`" + t, 1 + |code|;
    assert s[0] == '`' && s[e] == '`' && s[e + 1..] == t;
    assert forall k :: 1 <= k < e ==> s[k] == code[k - 1];
    RunTo(s, 1, e, c => c != '`');
  }

  lemma OpenKept(t: string)
    requires NoTicks(t)
    ensures WithoutCode("`" + t) == "`" + t
  {
    var s := "`" + t;
    assert s[1..] == t && forall k :: 1 <= k < |s| ==> s[k] == t[k - 1];
    RunTo(s, 1, |s|, c => c != '`');
    TextKept(t, "");
    assert t + "" == t;
  }

  /** Inline code is dropped with both of its backticks; a last backtick alone stays. */
  lemma CodeIs(a: string, code: string, t: string)
    requires NoTicks(a) && NoTicks(code)
    ensures WithoutCode(a) == a
    ensures WithoutCode(a + ("`" + code)) == a + ("`" + code)
    ensures WithoutCode(a + ("`" + code + "`" + t)) == a + WithoutCode(t)
  {
    TextKept(a, "");
    assert a + "" == a;
    OpenKept(code);
    TextKept(a, "`" + code);
    SpanDropped(code, t);
    TextKept(a, "`" + code + "`" + t);
  }

  // ---- bullets

  /** A list bullet or number with white space after it, or a quote mark. */
  predicate Bullet(b: string) {
    || (|b| >= 2 && b[0] in "-*+" && AllSpaces(b[1..]))
    || (|b| >= 1 && b[0] == '>' && AllSpaces(b[1..]))
    || exists d :: 1 <= d < |b| - 1 && Numbered(b, d)
  }

  predicate Numbered(b: string, d: nat) {
    d < |b| && (forall k :: 0 <= k < d ==> IsDigit(b[k])) && b[d] in ".)" && AllSpaces(b[d + 1..])
  }

  lemma SpacesTo(s: string, i: nat, e: nat)
    requires i <= e <= |s|
    ensures AllSpaces(s[i..e]) <==> forall k :: i <= k < e ==> IsSpace(s[k])
  {
    assert forall k :: i <= k < e ==> s[i..e][k - i] == s[k];
  }

  /** What a bullet is, place by place. */
  predicate BulletAt(s: string, i: nat, e: nat) {
    && i < e <= |s|
    && if s[i] in "-*+" then e >= i + 2 && SpacesIn(s, i + 1, e)
       else if s[i] == '>' then SpacesIn(s, i + 1, e)
       else exists d :: i < d < e - 1 && NumberedAt(s, i, d, e)
  }

  predicate SpacesIn(s: string, i: nat, e: nat)
    requires e <= |s|
  {
    forall k :: i <= k < e ==> IsSpace(s[k])
  }

  predicate NumberedAt(s: string, i: nat, d: nat, e: nat)
    requires e <= |s|
  {
    i <= d < e && (forall k :: i <= k < d ==> IsDigit(s[k])) && s[d] in ".)" && SpacesIn(s, d + 1, e)
  }

  lemma BulletPlaces(s: string, i: nat, e: nat)
    requires i < e <= |s|
    ensures Bullet(s[i..e]) <==> BulletAt(s, i, e)
  {
    hide AllSpaces;
    var b := s[i..e];
    assert b[0] == s[i] && b[1..] == s[i + 1..e];
    SpacesTo(s, i + 1, e);
    forall d | 1 <= d < |b| ensures Numbered(b, d) <==> NumberedAt(s, i, i + d, e) {
      assert b[d + 1..] == s[i + d + 1..e];
      SpacesTo(s, i + d + 1, e);
      assert forall k :: 0 <= k < d ==> b[k] == s[i + k];
      assert forall k :: i <= k < i + d ==> s[k] == b[k - i];
    }
    if s[i] !in "-*+" && s[i] != '>' {
      if d :| 1 <= d < |b| - 1 && Numbered(b, d) {
        assert NumberedAt(s, i, i + d, e);
      }
      if d :| i < d < e - 1 && NumberedAt(s, i, d, e) {
        assert Numbered(b, d - i);
      }
    } else {
      assert !IsDigit(b[0]);
    }
  }

  lemma NotDigit(c: char)
    requires c in ".)" || IsSpace(c)
    ensures !IsDigit(c)
  {
  }

  lemma BulletRead(s: string, i: nat)
    requires i < |s| && BulletEnd(s, i) > i
    ensures var e := BulletEnd(s, i); BulletAt(s, i, e) && (e < |s| ==> !IsSpace(s[e]))
  {
    hide IsSpace, IsDigit;
    RunIs(s, i + 1, IsSpace);
    RunIs(s, i, IsDigit);
    var d := RunEnd(s, i, IsDigit);
    if s[i] !in "-*+" && s[i] != '>' {
      RunIs(s, d + 1, IsSpace);
      assert NumberedAt(s, i, d, BulletEnd(s, i));
    }
  }

  lemma BulletLongest(s: string, i: nat, f: nat)
    requires BulletAt(s, i, f)
    ensures i < f <= BulletEnd(s, i)
  {
    hide IsSpace, IsDigit;
    RunIs(s, i + 1, IsSpace);
    if s[i] !in "-*+" && s[i] != '>' {
      var c :| i < c < f - 1 && NumberedAt(s, i, c, f);
      NotDigit(s[c]);
      RunTo(s, i, c, IsDigit);
      RunIs(s, c + 1, IsSpace);
    }
  }

  /** The scan takes the longest bullet at `i`, if there is one. */
  lemma BulletEndIs(s: string, i: nat, f: nat)
    requires i <= |s|
    ensures var e := BulletEnd(s, i);
      && (e > i ==> BulletAt(s, i, e) && (e < |s| ==> !IsSpace(s[e])))
      && (BulletAt(s, i, f) ==> i < f <= e)
  {
    hide BulletAt, IsSpace, BulletEnd;
    if BulletEnd(s, i) > i {
      BulletRead(s, i);
    }
    if BulletAt(s, i, f) {
      BulletLongest(s, i, f);
    }
  }

  /** A bullet inside a longer one at the same place is followed by white space. */
  lemma BulletInside(s: string, i: nat, f: nat, e: nat)
    requires BulletAt(s, i, f) && BulletAt(s, i, e) && f < e
    ensures IsSpace(s[f])
  {
    hide IsSpace, IsDigit;
    if s[i] !in "-*+" && s[i] != '>' {
      var c :| i < c < f - 1 && NumberedAt(s, i, c, f);
      var d :| i < d < e - 1 && NumberedAt(s, i, d, e);
      NotDigit(s[c]);
      NotDigit(s[d]);
    }
  }

  lemma BulletStart(s: string, i: nat, e: nat)
    requires BulletAt(s, i, e)
    ensures i < e <= |s| && !IsSpace(s[i])
  {
  }

  /** White space, then bullets one after the other. */
  predicate Cuts(s: string, at: seq<nat>) {
    && at != [] && at[0] <= |s| && SpacesIn(s, 0, at[0])
    && forall k :: 0 < k < |at| ==> BulletAt(s, at[k - 1], at[k])
  }

  /** The content of a line starts at `i`: no white space and no bullet is there. */
  predicate ContentAt(s: string, i: nat) {
    i <= |s| && (i < |s| ==> !IsSpace(s[i])) && forall e :: i < e <= |s| ==> !BulletAt(s, i, e)
  }

  lemma {:induction false} CutsFrom(s: string, at: seq<nat>, k: nat)
    requires Cuts(s, at) && k < |at| && ContentAt(s, at[|at| - 1])
    ensures at[k] <= |s| && (at[k] < |s| ==> !IsSpace(s[at[k]])) && BulletsEnd(s, at[k]) == at[|at| - 1]
    decreases |at| - k
  {
    hide BulletAt, IsSpace, BulletEnd;
    if k + 1 < |at| {
      CutsFrom(s, at, k + 1);
      var i, f := at[k], at[k + 1];
      assert BulletAt(s, at[k + 1 - 1], at[k + 1]);
      BulletStart(s, i, f);
      BulletEndIs(s, i, f);
      if f < BulletEnd(s, i) {
        BulletInside(s, i, f, BulletEnd(s, i));
      }
    } else {
      BulletEndIs(s, at[k], at[k]);
    }
  }

  lemma {:induction false} CutsTo(s: string, i: nat) returns (at: seq<nat>)
    requires i <= |s| && (i < |s| ==> !IsSpace(s[i]))
    ensures at != [] && at[0] == i && at[|at| - 1] == BulletsEnd(s, i) && ContentAt(s, BulletsEnd(s, i))
    ensures forall k :: 0 < k < |at| ==> BulletAt(s, at[k - 1], at[k])
    decreases |s| - i
  {
    hide BulletAt, IsSpace, BulletEnd;
    var e := BulletEnd(s, i);
    BulletEndIs(s, i, i);
    if e > i {
      var rest := CutsTo(s, e);
      at := [i] + rest;
      forall k | 0 < k < |at| ensures BulletAt(s, at[k - 1], at[k]) {
        if k > 1 {
          assert BulletAt(s, rest[k - 2], rest[k - 1]);
        }
      }
    } else {
      at := [i];
      forall f | i < f <= |s| ensures !BulletAt(s, i, f) {
        BulletEndIs(s, i, f);
      }
    }
  }

  /** The content of a line starts at `i`: white space and bullets go before it, and none is there. */
  ghost predicate Content(s: string, i: nat) {
    i <= |s| && ContentAt(s, i) && exists at :: Cuts(s, at) && at[|at| - 1] == i
  }

  /** Dropping the bullets leaves exactly the line's content. */
  lemma ContentIs(s: string)
    ensures exists i: nat :: Content(s, i)
    ensures forall i: nat :: Content(s, i) ==> i <= |s| && WithoutBullets(s) == s[i..]
  {
    hide BulletsEnd, ContentAt, BulletAt;
    var lead := RunEnd(s, 0, IsSpace);
    RunIs(s, 0, IsSpace);
    var at := CutsTo(s, lead);
    assert Cuts(s, at);
    assert Content(s, BulletsEnd(s, lead));
    forall i: nat | Content(s, i) ensures i <= |s| && WithoutBullets(s) == s[i..] {
      var cuts :| Cuts(s, cuts) && cuts[|cuts| - 1] == i;
      CutsFrom(s, cuts, 0);
      RunTo(s, 0, cuts[0], IsSpace);
    }
  }

  // ---- the status prefix

  /** A bold text of one to forty characters up to `e`, a colon at `c`, white space around it up to `d`. */
  predicate StatusAt(s: string, e: nat, c: nat, d: nat) {
    && "**" <= s && 3 <= e <= 42 && e + 2 <= c < d <= |s| && s[e] == '*' && s[e + 1] == '*' && s[c] == ':'
    && (forall k :: 2 <= k < e ==> s[k] != '*') && SpacesIn(s, e + 2, c) && SpacesIn(s, c + 1, d)
    && (d < |s| ==> !IsSpace(s[d]))
  }

  lemma StatusDropped(s: string, e: nat, c: nat, d: nat)
    requires StatusAt(s, e, c, d)
    ensures WithoutStatus(s) == s[d..]
  {
    hide IsSpace;
    RunTo(s, 2, e, x => x != '*');
    ColonStops(s, c);
    RunTo(s, e + 2, c, IsSpace);
    RunTo(s, c + 1, d, IsSpace);
    assert s[e..][0] == s[e] && s[e..][1] == s[e + 1];
  }

  lemma StatusRead(s: string) returns (e: nat, c: nat, d: nat)
    ensures StatusAt(s, e, c, d) || WithoutStatus(s) == s
  {
    hide IsSpace, StatusAt;
    e, c, d := 0, 0, 0;
    if "**" <= s {
      e := RunEnd(s, 2, x => x != '*');
      if 1 <= e - 2 <= 40 && "**" <= s[e..] {
        c := RunEnd(s, e + 2, IsSpace);
        if c < |s| && s[c] == ':' {
          d := RunEnd(s, c + 1, IsSpace);
          StatusFits(s, e, c, d);
        }
      }
    }
  }

  lemma StatusFits(s: string, e: nat, c: nat, d: nat)
    requires "**" <= s && e == RunEnd(s, 2, x => x != '*') && 3 <= e <= 42 && "**" <= s[e..]
    requires c == RunEnd(s, e + 2, IsSpace) < |s| && s[c] == ':' && d == RunEnd(s, c + 1, IsSpace)
    ensures StatusAt(s, e, c, d)
  {
    hide IsSpace, RunEnd;
    RunIs(s, 2, x => x != '*');
    RunIs(s, e + 2, IsSpace);
    RunIs(s, c + 1, IsSpace);
    assert s[e..][0] == s[e] && s[e..][1] == s[e + 1];
  }

  /** A status prefix is dropped; any other text stays. */
  lemma StatusIs(s: string)
    ensures forall e: nat, c: nat, d: nat :: StatusAt(s, e, c, d) ==> d <= |s| && WithoutStatus(s) == s[d..]
    ensures (forall e: nat, c: nat, d: nat :: !StatusAt(s, e, c, d)) ==> WithoutStatus(s) == s
  {
    hide WithoutStatus, StatusAt;
    var x, y, z := StatusRead(s);
    forall e: nat, c: nat, d: nat | StatusAt(s, e, c, d) ensures d <= |s| && WithoutStatus(s) == s[d..] {
      StatusEnds(s, e, c, d);
      StatusDropped(s, e, c, d);
    }
  }

  lemma StatusEnds(s: string, e: nat, c: nat, d: nat)
    requires StatusAt(s, e, c, d)
    ensures d <= |s|
  {
  }

  lemma ColonStops(s: string, c: nat)
    requires c < |s| && s[c] == ':'
    ensures !IsSpace(s[c])
  {
  }

  // ---- the marker

  predicate BoldMark(t: string) {
    |t| >= 22 && t[..22] == "**Design (not built)**"
  }

  /** The content opens with the bold marker, at once or after a status prefix. */
  ghost predicate Opens(t: string) {
    BoldMark(t) || exists e: nat, c: nat, d: nat :: StatusAt(t, e, c, d) && d <= |t| && BoldMark(t[d..])
  }

  lemma OpensIs(t: string)
    ensures Opens(t) <==> BOLD_MARK <= t || BOLD_MARK <= WithoutStatus(t)
  {
    hide StatusAt, WithoutStatus, BoldMark;
    StatusIs(t);
    BoldRead(t);
    BoldRead(WithoutStatus(t));
  }

  predicate WordsAt(s: string, i: nat) {
    i + 18 <= |s| && s[i..i + 18] == "Design (not built)"
  }

  /** A line is marked, inline code left aside, when it is a heading in which the words occur, or a
      line whose content opens with the bold marker. */
  lemma MarksIs(line: string)
    ensures var bare := WithoutCode(line);
      Marks(line) <==>
        if exists n: nat :: HeadingOf(bare, n) then exists i: nat :: WordsAt(bare, i)
        else exists i: nat :: Content(bare, i) && Opens(bare[i..])
  {
    MarkedBare(line, WithoutCode(line));
  }

  lemma MarkedBare(line: string, bare: string)
    requires bare == WithoutCode(line)
    ensures Heading(bare) <==> exists n: nat :: HeadingOf(bare, n)
    ensures Heading(bare) ==> (Marks(line) <==> exists i: nat :: WordsAt(bare, i))
    ensures !Heading(bare) ==> (Marks(line) <==> exists i: nat :: Content(bare, i) && Opens(bare[i..]))
  {
    hide WithoutBullets, WithoutStatus, Heading, HeadingOf, Opens, Content, Contains, WordsAt;
    HeadingIs(bare, 0);
    ContentIs(bare);
    MarkRead(bare);
    OpensIs(WithoutBullets(bare));
  }

  lemma MarkRead(s: string)
    ensures Contains(s, DESIGN_MARK) <==> exists i: nat :: WordsAt(s, i)
  {
    assert |DESIGN_MARK| == 18;
    if i :| 0 <= i <= |s| && DESIGN_MARK <= s[i..] {
      assert s[i..][..18] == DESIGN_MARK == s[i..i + 18];
      assert WordsAt(s, i);
    }
    if i: nat :| WordsAt(s, i) {
      assert s[i..][..18] == s[i..i + 18];
      assert DESIGN_MARK <= s[i..];
    }
  }

  lemma BoldRead(t: string)
    ensures BoldMark(t) <==> BOLD_MARK <= t
  {
    assert BOLD_MARK == "**Design (not built)**" && |BOLD_MARK| == 22;
    if BOLD_MARK <= t {
      assert t[..22] == BOLD_MARK;
    }
  }
}
