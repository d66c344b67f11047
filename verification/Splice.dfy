/** Rewriting number spans in place: replacing them from right to left is replacing them all
    at once, and the rebuilt offsets still delimit the same question. */
module Splice {

  /** `text` takes the place of the characters from `start` to `end`. */
  datatype Edit = Edit(start: nat, end: nat, text: string)

  /** The edits lie between `lo` and `hi`, in order and without overlap. */
  predicate Ordered(es: seq<Edit>, lo: nat, hi: nat)
    decreases |es|
  {
    if es == [] then lo <= hi
    else lo <= es[0].start <= es[0].end <= hi && Ordered(es[1..], es[0].end, hi)
  }

  /** All edits at once: `s` from `from` on, copied with each span replaced. */
  function Subst(s: string, es: seq<Edit>, from: nat): string
    requires from <= |s| && Ordered(es, from, |s|)
    decreases |es|
  {
    if es == [] then s[from..]
    else
      s[from..es[0].start] + es[0].text + Subst(s, es[1..], es[0].end)
  }

  lemma SubstCons(s: string, e: Edit, es: seq<Edit>, from: nat)
    requires from <= e.start <= e.end <= |s| && Ordered(es, e.end, |s|)
    ensures Ordered([e] + es, from, |s|) && Subst(s, [e] + es, from) == s[from..e.start] + e.text + Subst(s, es, e.end)
  {
    assert ([e] + es)[1..] == es;
  }

  /** Text before the first edit is copied as it is. */
  lemma SubstFrom(s: string, es: seq<Edit>, from: nat, mid: nat)
    requires from <= mid <= |s| && Ordered(es, mid, |s|)
    ensures Ordered(es, from, |s|) && Subst(s, es, from) == s[from..mid] + Subst(s, es, mid)
  {
    if es == [] {
      assert s[from..] == s[from..mid] + s[mid..];
    } else {
      var x := es[0].start;
      Slices(s, from, mid, x);
      Regroup(s[from..mid], s[mid..x], es[0].text, Subst(s, es[1..], es[0].end));
    }
  }

  lemma Slices(s: string, a: nat, b: nat, c: nat)
    requires a <= b <= c <= |s|
    ensures s[a..c] == s[a..b] + s[b..c]
  {
  }

  lemma Regroup(a: string, b: string, c: string, d: string)
    ensures (a + b) + c + d == a + (b + c + d)
  {
  }

  // ---- the literals of an example

  datatype Span = Span(start: nat, end: nat)

  /** The edits of the literals from `lo` on that have a new span, moved left by `off`. */
  function Edits(lits: seq<Span>, newSpan: map<nat, string>, lo: nat, hi: nat, off: nat): seq<Edit>
    requires lo <= hi <= |lits| && forall i :: lo <= i < hi ==> off <= lits[i].start <= lits[i].end
    decreases hi - lo
  {
    if lo == hi then []
    else
      (if lo in newSpan then [Edit(lits[lo].start - off, lits[lo].end - off, newSpan[lo])] else []) +
      Edits(lits, newSpan, lo + 1, hi, off)
  }

  lemma {:induction false} EditsOrdered(lits: seq<Span>, newSpan: map<nat, string>, lo: nat, hi: nat, off: nat,
      first: nat, last: nat)
    requires lo <= hi <= |lits| && off <= first <= last && forall i ::
      lo <= i < hi ==> first <= lits[i].start <= lits[i].end <= last
    requires forall i, j :: lo <= i < j < hi ==> lits[i].end <= lits[j].start
    ensures Ordered(Edits(lits, newSpan, lo, hi, off), first - off, last - off)
    decreases hi - lo
  {
    if lo < hi {
      EditsOrdered(lits, newSpan, lo + 1, hi, off, lits[lo].end, last);
      var rest := Edits(lits, newSpan, lo + 1, hi, off);
      if lo in newSpan {
        assert ([Edit(lits[lo].start - off, lits[lo].end - off, newSpan[lo])] + rest)[1..] == rest;
      } else {
        OrderedWider(rest, lits[lo].end - off, first - off, last - off);
        assert [] + rest == rest;
      }
    }
  }

  lemma OrderedWider(es: seq<Edit>, lo: nat, from: nat, hi: nat)
    requires Ordered(es, lo, hi) && from <= lo
    ensures Ordered(es, from, hi)
  {
  }

  /** Replaces, from the last literal to the first, the spans of `base`, which starts at
      offset `off` of the whole text. */
  method Rewrite(base: string, off: nat, lits: seq<Span>, newSpan: map<nat, string>, lo: nat, hi: nat)
    returns (out: string)
    requires lo <= hi <= |lits| && forall i :: lo <= i < hi ==> off <= lits[i].start <= lits[i].end <= off + |base|
    requires forall i, j :: lo <= i < j < hi ==> lits[i].end <= lits[j].start
    ensures Ordered(Edits(lits, newSpan, lo, hi, off), 0, |base|)
    ensures out == Subst(base, Edits(lits, newSpan, lo, hi, off), 0)
  {
    EditsOrdered(lits, newSpan, lo, hi, off, off, off + |base|);
    out := base;
    var i := hi;
    NoEdits(base, lits, newSpan, hi, off);
    while i > lo
      invariant lo <= i <= hi
      invariant Ordered(Edits(lits, newSpan, i, hi, off), 0, |base|)
      invariant out == Subst(base, Edits(lits, newSpan, i, hi, off), 0)
    {
      hide Ordered, Subst;
      i := i - 1;
      EditsOrdered(lits, newSpan, i, hi, off, off, off + |base|);
      RewriteStep(base, off, lits, newSpan, i, hi);
      if i in newSpan {
        out := out[..lits[i].start - off] + newSpan[i] + out[lits[i].end - off..];
      }
    }
  }

  lemma NoEdits(base: string, lits: seq<Span>, newSpan: map<nat, string>, hi: nat, off: nat)
    requires hi <= |lits|
    ensures Edits(lits, newSpan, hi, hi, off) == [] && Ordered([], 0, |base|) && Subst(base, [], 0) == base
  {
  }

  /** What stands right of literal `i` has been replaced; one more splice replaces it too. */
  lemma RewriteStep(base: string, off: nat, lits: seq<Span>, newSpan: map<nat, string>, i: nat, hi: nat)
    requires i < hi <= |lits| && forall k :: i <= k < hi ==> off <= lits[k].start <= lits[k].end <= off + |base|
    requires forall j, k :: i <= j < k < hi ==> lits[j].end <= lits[k].start
    ensures Ordered(Edits(lits, newSpan, i + 1, hi, off), 0, |base|)
    ensures Ordered(Edits(lits, newSpan, i, hi, off), 0, |base|)
    ensures var out := Subst(base, Edits(lits, newSpan, i + 1, hi, off), 0);
      lits[i].end - off <= |out| &&
      Subst(base, Edits(lits, newSpan, i, hi, off), 0) ==
      if i in newSpan then out[..lits[i].start - off] + newSpan[i] + out[lits[i].end - off..] else out
  {
    hide Ordered, Edits;
    var (s, e) := (lits[i].start - off, lits[i].end - off);
    EditsOrdered(lits, newSpan, i, hi, off, off, off + |base|);
    EditsOrdered(lits, newSpan, i + 1, hi, off, lits[i].end, off + |base|);
    var rest := Edits(lits, newSpan, i + 1, hi, off);
    SubstFrom(base, rest, 0, e);
    var out := Subst(base, rest, 0);
    assert out[..s] == base[0..s] && out[e..] == Subst(base, rest, e);
    EditsStep(lits, newSpan, i, hi, off);
    if i !in newSpan {
      assert [] + rest == rest;
    } else {
      SubstCons(base, Edit(s, e, newSpan[i]), rest, 0);
    }
  }

  lemma EditsStep(lits: seq<Span>, newSpan: map<nat, string>, i: nat, hi: nat, off: nat)
    requires i < hi <= |lits| && forall k :: i <= k < hi ==> off <= lits[k].start <= lits[k].end
    ensures Edits(lits, newSpan, i, hi, off) ==
      (if i in newSpan then [Edit(lits[i].start - off, lits[i].end - off, newSpan[i])] else []) +
      Edits(lits, newSpan, i + 1, hi, off)
  {
  }

  // ---- where things are afterwards

  /** The length added by the edits that end at or before `p`. */
  function Growth(es: seq<Edit>, p: nat): int
    decreases |es|
  {
    if es == [] || es[0].end > p then 0 else |es[0].text| - (es[0].end - es[0].start) + Growth(es[1..], p)
  }

  predicate Untouched(es: seq<Edit>, p: nat) {
    forall i :: 0 <= i < |es| ==> p < es[i].start || es[i].end <= p
  }

  /** A character is left alone or lies in an edited span. */
  lemma UntouchedIs(es: seq<Edit>, p: nat)
    ensures Untouched(es, p) <==> !exists i :: 0 <= i < |es| && es[i].start <= p < es[i].end
  {
  }

  /** A character outside every span moves by the growth before it. */
  lemma {:induction false} UntouchedMoves(s: string, es: seq<Edit>, from: nat, p: nat)
    requires from <= p < |s| && Ordered(es, from, |s|) && Untouched(es, p)
    ensures var q := p - from + Growth(es, p); 0 <= q < |Subst(s, es, from)| && Subst(s, es, from)[q] == s[p]
    decreases |es|
  {
    if es == [] {
      assert s[from..][p - from] == s[p];
    } else {
      var (e, rest) := (es[0], es[1..]);
      assert p < e.start || e.end <= p;
      if e.end <= p {
        assert Untouched(rest, p) by {
          assert forall i :: 0 <= i < |rest| ==> rest[i] == es[i + 1];
        }
        UntouchedMoves(s, rest, e.end, p);
        CharAfter(s[from..e.start] + e.text, Subst(s, rest, e.end), p - e.end + Growth(rest, p));
      } else {
        CharBefore(s, from, e.start, p, e.text + Subst(s, rest, e.end));
        AppendTwice(s[from..e.start], e.text, Subst(s, rest, e.end));
      }
    }
  }

  lemma CharAfter(a: string, b: string, i: nat)
    requires i < |b|
    ensures (a + b)[|a| + i] == b[i]
  {
  }

  lemma CharBefore(s: string, from: nat, to: nat, p: nat, rest: string)
    requires from <= p < to <= |s|
    ensures (s[from..to] + rest)[p - from] == s[p]
  {
  }

  lemma AppendTwice(a: string, b: string, c: string)
    ensures a + b + c == a + (b + c)
  {
  }

  lemma {:induction false} OrderedAt(es: seq<Edit>, lo: nat, hi: nat, k: nat)
    requires Ordered(es, lo, hi) && k < |es|
    ensures lo <= es[k].start <= es[k].end <= hi
    decreases |es|
  {
    if k > 0 {
      OrderedAt(es[1..], es[0].end, hi, k - 1);
    }
  }

  lemma GrowthStep(es: seq<Edit>, k: nat, p: nat)
    requires 0 < k <= |es| && es[0].end <= p
    ensures Growth(es[..k], p) == |es[0].text| - (es[0].end - es[0].start) + Growth(es[1..][..k - 1], p)
  {
    assert es[..k][0] == es[0] && es[..k][1..] == es[1..][..k - 1];
  }

  /** The text of edit `k` stands at its old start plus the growth of the edits before it. */
  ghost predicate Lands(s: string, es: seq<Edit>, from: nat, k: nat)
    requires from <= |s| && Ordered(es, from, |s|) && k < |es|
  {
    var q := es[k].start - from + Growth(es[..k], es[k].start);
    0 <= q && q + |es[k].text| <= |Subst(s, es, from)| && Subst(s, es, from)[q..q + |es[k].text|] == es[k].text
  }

  lemma FirstLands(s: string, e: Edit, rest: seq<Edit>, from: nat)
    requires from <= e.start <= e.end <= |s| && Ordered(rest, e.end, |s|)
    ensures Ordered([e] + rest, from, |s|) && Lands(s, [e] + rest, from, 0)
  {
    hide Subst, Growth, Ordered;
    SubstCons(s, e, rest, from);
    NoGrowth([e] + rest, e.start);
    Middle(s[from..e.start], e.text, Subst(s, rest, e.end));
  }

  lemma LaterLands(s: string, e: Edit, rest: seq<Edit>, from: nat, k: nat)
    requires from <= e.start <= e.end <= |s| && Ordered(rest, e.end, |s|) && k < |rest| && Lands(s, rest, e.end, k)
    ensures Ordered([e] + rest, from, |s|) && Lands(s, [e] + rest, from, k + 1)
  {
    hide Subst, Growth, Ordered;
    SubstCons(s, e, rest, from);
    OrderedAt(rest, e.end, |s|, k);
    var es := [e] + rest;
    assert es[1..] == rest && es[k + 1] == rest[k];
    GrowthStep(es, k + 1, rest[k].start);
    LandsLater(s[from..e.start], e.text, Subst(s, rest, e.end),
      rest[k].start - e.end + Growth(rest[..k], rest[k].start), rest[k].text);
  }

  /** Each new span stands at its old start plus the growth of the edits before it. */
  lemma {:induction false} EditLands(s: string, es: seq<Edit>, from: nat, k: nat)
    requires from <= |s| && Ordered(es, from, |s|) && k < |es|
    ensures Lands(s, es, from, k)
    decreases |es|
  {
    hide Lands;
    assert es == [es[0]] + es[1..];
    if k == 0 {
      FirstLands(s, es[0], es[1..], from);
    } else {
      EditLands(s, es[1..], es[0].end, k - 1);
      LaterLands(s, es[0], es[1..], from, k - 1);
    }
  }

  lemma NoGrowth(es: seq<Edit>, p: nat)
    ensures Growth(es[..0], p) == 0
  {
  }

  lemma LandsLater(front: string, text: string, tail: string, q: int, x: string)
    requires 0 <= q && q + |x| <= |tail| && tail[q..q + |x|] == x
    ensures (front + text + tail)[|front| + |text| + q..|front| + |text| + q + |x|] == x
  {
    After(front + text, tail, q, q + |x|);
  }

  lemma Middle(a: string, b: string, c: string)
    ensures (a + b + c)[|a|..|a| + |b|] == b
  {
  }

  lemma After(a: string, b: string, lo: nat, hi: nat)
    requires lo <= hi <= |b|
    ensures (a + b)[|a| + lo..|a| + hi] == b[lo..hi]
  {
  }

  lemma {:induction false} SubstLength(s: string, es: seq<Edit>, from: nat)
    requires from <= |s| && Ordered(es, from, |s|)
    ensures |Subst(s, es, from)| == |s| - from + Growth(es, |s|)
    decreases |es|
  {
    if es != [] {
      SubstLength(s, es[1..], es[0].end);
    }
  }

  // ---- whole examples

  const SEP: string := " [SEP] "

  /** A rendered dialogue: one user turn, or two around a question, with its literals, of
      which the first `nFirst` belong to the first turn. */
  datatype Example = Example(text: string, qStart: nat, u2Start: nat, single: bool, lits: seq<Span>, nFirst: nat) {
    function FirstEnd(): int { if single then |text| else qStart - |SEP| }

    /** The layout that rendering produces. */
    predicate Rendered() {
      && nFirst <= |lits|
      && (forall i, j :: 0 <= i < j < |lits| ==> lits[i].end <= lits[j].start)
      && (forall i :: 0 <= i < nFirst ==> lits[i].start < lits[i].end <= FirstEnd())
      && (single ==> qStart == u2Start == |text| && nFirst == |lits|)
      && (!single ==> |SEP| <= qStart <= u2Start - |SEP| && u2Start <= |text|)
      && (!single ==> text[qStart - |SEP|..qStart] == SEP && text[u2Start - |SEP|..u2Start] == SEP)
      && (!single ==> forall i :: nFirst <= i < |lits| ==> u2Start <= lits[i].start < lits[i].end <= |text|)
    }

    /** Every replaced literal, in order. */
    function AllEdits(newSpan: map<nat, string>): seq<Edit>
      requires Rendered()
    {
      Edits(lits, newSpan, 0, |lits|, 0)
    }
  }

  lemma AllOrdered(ex: Example, newSpan: map<nat, string>)
    requires ex.Rendered()
    ensures Ordered(ex.AllEdits(newSpan), 0, |ex.text|)
  {
    EditsOrdered(ex.lits, newSpan, 0, |ex.lits|, 0, 0, |ex.text|);
  }

  lemma {:induction false} EditsSplit(lits: seq<Span>, newSpan: map<nat, string>, lo: nat, mid: nat, hi: nat)
    requires lo <= mid <= hi <= |lits| && forall i :: lo <= i < hi ==> lits[i].start <= lits[i].end
    ensures Edits(lits, newSpan, lo, hi, 0) == Edits(lits, newSpan, lo, mid, 0) + Edits(lits, newSpan, mid, hi, 0)
    decreases mid - lo
  {
    if lo < mid {
      EditsSplit(lits, newSpan, lo + 1, mid, hi);
    }
  }

  lemma {:induction false} SubstSplit(s: string, a: seq<Edit>, b: seq<Edit>, from: nat, m: nat)
    requires from <= m <= |s| && Ordered(a, from, m) && Ordered(b, m, |s|)
    ensures Ordered(a + b, from, |s|) && Ordered(a, from, |s[..m]|)
    ensures Subst(s, a + b, from) == Subst(s[..m], a, from) + Subst(s, b, m)
    decreases |a|
  {
    if a == [] {
      assert a + b == b;
      SubstFrom(s, b, from, m);
      assert s[..m][from..] == s[from..m];
    } else {
      hide Subst;
      var (e, rest) := (a[0], a[1..]);
      assert a == [e] + rest && a + b == [e] + (rest + b);
      SubstSplit(s, rest, b, e.end, m);
      SubstCons(s[..m], e, rest, from);
      SubstCons(s, e, rest + b, from);
      assert s[..m][from..e.start] == s[from..e.start];
      Regroup4(s[from..e.start], e.text, Subst(s[..m], rest, e.end), Subst(s, b, m));
    }
  }

  lemma Regroup4(a: string, b: string, c: string, d: string)
    ensures a + b + (c + d) == (a + b + c) + d
  {
  }

  lemma SliceShift(s: string, off: nat, lo: nat, hi: nat)
    requires off <= lo <= hi <= |s|
    ensures s[off..][lo - off..hi - off] == s[lo..hi]
  {
  }

  lemma SubstNothing(s: string, from: nat)
    requires from <= |s|
    ensures Ordered([], from, |s|) && Subst(s, [], from) == s[from..|s|]
  {
  }

  /** Edits of a segment, counted from the segment's start, change the segment alike. */
  lemma {:induction false} SubstSegment(s: string, lits: seq<Span>, newSpan: map<nat, string>, lo: nat, hi: nat,
      off: nat, from: nat)
    requires lo <= hi <= |lits| && off <= from <= |s| && forall i ::
      lo <= i < hi ==> from <= lits[i].start <= lits[i].end <= |s|
    requires forall i, j :: lo <= i < j < hi ==> lits[i].end <= lits[j].start
    ensures Ordered(Edits(lits, newSpan, lo, hi, off), from - off, |s[off..]|)
    ensures Ordered(Edits(lits, newSpan, lo, hi, 0), from, |s|)
    ensures Subst(s[off..], Edits(lits, newSpan, lo, hi, off), from - off) ==
      Subst(s, Edits(lits, newSpan, lo, hi, 0), from)
    decreases hi - lo
  {
    hide Ordered, Edits, Subst;
    EditsOrdered(lits, newSpan, lo, hi, off, from, |s|);
    EditsOrdered(lits, newSpan, lo, hi, 0, from, |s|);
    if lo == hi {
      NoEdits("", lits, newSpan, hi, off);
      NoEdits("", lits, newSpan, hi, 0);
      SliceShift(s, off, from, |s|);
      SubstNothing(s[off..], from - off);
      SubstNothing(s, from);
    } else {
      EditsStep(lits, newSpan, lo, hi, off);
      EditsStep(lits, newSpan, lo, hi, 0);
      var x, e := lits[lo].start, lits[lo].end;
      SubstSegment(s, lits, newSpan, lo + 1, hi, off, if lo in newSpan then e else from);
      SliceShift(s, off, from, x);
      var (p, q) := (Edits(lits, newSpan, lo + 1, hi, off), Edits(lits, newSpan, lo + 1, hi, 0));
      if lo in newSpan {
        SubstCons(s[off..], Edit(x - off, e - off, newSpan[lo]), p, from - off);
        SubstCons(s, Edit(x, e, newSpan[lo]), q, from);
      } else {
        assert [] + p == p && [] + q == q;
      }
    }
  }

  /** The two user segments rewritten separately and joined around the untouched question. */
  method Rebuild(ex: Example, newSpan: map<nat, string>) returns (text: string, qStart: nat, u2Start: nat)
    requires ex.Rendered()
    ensures Ordered(ex.AllEdits(newSpan), 0, |ex.text|)
    ensures text == Subst(ex.text, ex.AllEdits(newSpan), 0)
    ensures ex.single ==> qStart == u2Start == |text|
    ensures !ex.single ==>
      |SEP| <= qStart <= u2Start - |SEP| && u2Start <= |text| &&
      text[qStart - |SEP|..qStart] == SEP && text[u2Start - |SEP|..u2Start] == SEP &&
      text[qStart..u2Start - |SEP|] == ex.text[ex.qStart..ex.u2Start - |SEP|]
    ensures qStart == ex.qStart + Growth(ex.AllEdits(newSpan), ex.qStart)
    ensures u2Start == ex.u2Start + Growth(ex.AllEdits(newSpan), ex.u2Start)
  {
    hide Ordered, Subst, Growth, Edits;
    AllOrdered(ex, newSpan);
    if ex.single {
      text := Rewrite(ex.text, 0, ex.lits, newSpan, 0, |ex.lits|);
      SubstLength(ex.text, ex.AllEdits(newSpan), 0);
      return text, |text|, |text|;
    }
    var end := ex.qStart - |SEP|;
    var first := Rewrite(ex.text[..end], 0, ex.lits, newSpan, 0, ex.nFirst);
    var later := Rewrite(ex.text[ex.u2Start..], ex.u2Start, ex.lits, newSpan, ex.nFirst, |ex.lits|);
    var question := ex.text[ex.qStart..ex.u2Start - |SEP|];
    text := first + SEP + question + SEP + later;
    qStart := |first| + |SEP|;
    u2Start := qStart + |question| + |SEP|;
    SegmentsJoin(ex, newSpan, first, later);
    Delimited(first, question, later);
  }

  lemma Delimited(first: string, question: string, later: string)
    ensures var text := first + SEP + question + SEP + later; var q := |first| + |SEP|; var u := q + |question| + |SEP|;
      u <= |text| && text[q - |SEP|..q] == SEP && text[u - |SEP|..u] == SEP && text[q..u - |SEP|] == question
  {
  }

  lemma SegmentsJoin(ex: Example, newSpan: map<nat, string>, first: string, later: string)
    requires ex.Rendered() && !ex.single
    requires Ordered(Edits(ex.lits, newSpan, 0, ex.nFirst, 0), 0, ex.FirstEnd())
    requires Ordered(Edits(ex.lits, newSpan, ex.nFirst, |ex.lits|, ex.u2Start), 0, |ex.text[ex.u2Start..]|)
    requires first == Subst(ex.text[..ex.FirstEnd()], Edits(ex.lits, newSpan, 0, ex.nFirst, 0), 0)
    requires later == Subst(ex.text[ex.u2Start..], Edits(ex.lits, newSpan, ex.nFirst, |ex.lits|, ex.u2Start), 0)
    ensures Ordered(ex.AllEdits(newSpan), 0, |ex.text|)
    ensures first + SEP + ex.text[ex.qStart..ex.u2Start - |SEP|] + SEP + later ==
      Subst(ex.text, ex.AllEdits(newSpan), 0)
    ensures |first| + |SEP| == ex.qStart + Growth(ex.AllEdits(newSpan), ex.qStart)
    ensures |first| + |SEP| + (ex.u2Start - ex.qStart) == ex.u2Start + Growth(ex.AllEdits(newSpan), ex.u2Start)
  {
    hide Ordered, Subst, Growth, Edits;
    TextsJoin(ex, newSpan, first, later);
    OffsetsMove(ex, newSpan, first);
  }

  lemma TextsJoin(ex: Example, newSpan: map<nat, string>, first: string, later: string)
    requires ex.Rendered() && !ex.single
    requires Ordered(Edits(ex.lits, newSpan, 0, ex.nFirst, 0), 0, ex.FirstEnd())
    requires Ordered(Edits(ex.lits, newSpan, ex.nFirst, |ex.lits|, ex.u2Start), 0, |ex.text[ex.u2Start..]|)
    requires first == Subst(ex.text[..ex.FirstEnd()], Edits(ex.lits, newSpan, 0, ex.nFirst, 0), 0)
    requires later == Subst(ex.text[ex.u2Start..], Edits(ex.lits, newSpan, ex.nFirst, |ex.lits|, ex.u2Start), 0)
    ensures Ordered(ex.AllEdits(newSpan), 0, |ex.text|)
    ensures first + SEP + ex.text[ex.qStart..ex.u2Start - |SEP|] + SEP + later ==
      Subst(ex.text, ex.AllEdits(newSpan), 0)
  {
    hide Ordered, Subst, Edits;
    var (s, end, u) := (ex.text, ex.FirstEnd(), ex.u2Start);
    EditsSplit(ex.lits, newSpan, 0, ex.nFirst, |ex.lits|);
    SubstSegment(s, ex.lits, newSpan, ex.nFirst, |ex.lits|, u, u);
    EditsOrdered(ex.lits, newSpan, ex.nFirst, |ex.lits|, 0, u, |s|);
    PartsJoin(s, Edits(ex.lits, newSpan, 0, ex.nFirst, 0), Edits(ex.lits, newSpan, ex.nFirst, |ex.lits|, 0), end, u);
    Around(s, end, ex.qStart, u);
    Regroup3(first, s[end..u], later, SEP, s[ex.qStart..u - |SEP|]);
  }

  /** Edits up to `end` and from `u` on leave what lies between. */
  lemma PartsJoin(s: string, a: seq<Edit>, b: seq<Edit>, end: nat, u: nat)
    requires end <= u <= |s| && Ordered(a, 0, end) && Ordered(b, u, |s|)
    ensures Ordered(a + b, 0, |s|)
    ensures Subst(s, a + b, 0) == Subst(s[..end], a, 0) + (s[end..u] + Subst(s, b, u))
  {
    hide Ordered, Subst;
    SubstFrom(s, b, end, u);
    SubstSplit(s, a, b, 0, end);
  }

  lemma OffsetsMove(ex: Example, newSpan: map<nat, string>, first: string)
    requires ex.Rendered() && !ex.single
    requires Ordered(Edits(ex.lits, newSpan, 0, ex.nFirst, 0), 0, ex.FirstEnd())
    requires first == Subst(ex.text[..ex.FirstEnd()], Edits(ex.lits, newSpan, 0, ex.nFirst, 0), 0)
    ensures |first| + |SEP| == ex.qStart + Growth(ex.AllEdits(newSpan), ex.qStart)
    ensures |first| + |SEP| + (ex.u2Start - ex.qStart) == ex.u2Start + Growth(ex.AllEdits(newSpan), ex.u2Start)
  {
    hide Ordered, Subst, Growth, Edits;
    var a := Edits(ex.lits, newSpan, 0, ex.nFirst, 0);
    var b := Edits(ex.lits, newSpan, ex.nFirst, |ex.lits|, 0);
    EditsSplit(ex.lits, newSpan, 0, ex.nFirst, |ex.lits|);
    SubstLength(ex.text[..ex.FirstEnd()], a, 0);
    LaterBeyond(ex, newSpan, ex.u2Start);
    GrowthOfFirst(a, b, ex.FirstEnd(), ex.qStart, ex.u2Start);
    GrowthOfFirst(a, b, ex.FirstEnd(), ex.u2Start, ex.u2Start);
  }

  lemma LaterBeyond(ex: Example, newSpan: map<nat, string>, u: nat)
    requires ex.Rendered() && !ex.single && u == ex.u2Start
    ensures forall i :: 0 <= i < |Edits(ex.lits, newSpan, ex.nFirst, |ex.lits|, 0)| ==>
      Edits(ex.lits, newSpan, ex.nFirst, |ex.lits|, 0)[i].end > u
  {
    EditsBeyond(ex.lits, newSpan, ex.nFirst, |ex.lits|, u);
  }

  lemma {:induction false} EditsBeyond(lits: seq<Span>, newSpan: map<nat, string>, lo: nat, hi: nat, u: nat)
    requires lo <= hi <= |lits| && forall i :: lo <= i < hi ==> u <= lits[i].start < lits[i].end
    ensures forall i :: 0 <= i < |Edits(lits, newSpan, lo, hi, 0)| ==> Edits(lits, newSpan, lo, hi, 0)[i].end > u
    decreases hi - lo
  {
    if lo < hi {
      EditsBeyond(lits, newSpan, lo + 1, hi, u);
    }
  }

  lemma Around(s: string, end: nat, q: nat, u: nat)
    requires q == end + |SEP| && q <= u - |SEP| && u <= |s| && s[end..q] == SEP && s[u - |SEP|..u] == SEP
    ensures s[end..u] == SEP + s[q..u - |SEP|] + SEP
  {
    Slices(s, end, q, u);
    Slices(s, q, u - |SEP|, u);
  }

  lemma Regroup3(first: string, mid: string, later: string, sep: string, question: string)
    requires mid == sep + question + sep
    ensures first + sep + question + sep + later == first + (mid + later)
  {
  }

  /** Edits that end after `p` do not move it. */
  lemma {:induction false} GrowthOfFirst(a: seq<Edit>, b: seq<Edit>, end: nat, p: nat, u: nat)
    requires end <= p <= u && Ordered(a, 0, end) && forall i :: 0 <= i < |b| ==> b[i].end > p
    ensures Growth(a + b, p) == Growth(a, end)
    decreases |a|
  {
    if a == [] {
      assert a + b == b;
    } else {
      assert (a + b)[1..] == a[1..] + b;
      GrowthOfFirst(a[1..], b, end, p, u);
    }
  }
}
