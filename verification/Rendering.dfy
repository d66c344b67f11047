/** A dialogue as the encoder reads it: the user's turns around the question, with their literals. */
module Rendering {
  import opened Lexer
  import opened LexGrammar
  import opened Splice

  /** The first user turn, and for a second one the question between the two. */
  datatype Dialogue = Single(first: string) | Double(first: string, question: string, later: string)

  /** The spans of a turn's literals, `off` characters into the whole text. */
  function SpansOf(fs: seq<Found>, off: nat): (r: seq<Span>)
    ensures |r| == |fs| && forall k :: 0 <= k < |fs| ==> r[k] == Span(fs[k].start + off, fs[k].end + off)
  {
    seq(|fs|, k requires 0 <= k < |fs| => Span(fs[k].start + off, fs[k].end + off))
  }

  /** Only the user's turns are lexed. */
  method Render(d: Dialogue) returns (ex: Example)
    ensures ex == Layout(d)
  {
    hide LexFrom, SpansOf;
    var fs := Lex(d.first);
    var text, q, u := d.first, |d.first|, |d.first|;
    var lits := SpansOf(fs, 0);
    match d {
      case Single(_) =>
      case Double(_, question, later) =>
        text := text + SEP;
        q := |text|;
        text := text + (question + SEP);
        u := |text|;
        text := text + later;
        var gs := Lex(later);
        lits := lits + SpansOf(gs, u);
    }
    ex := Example(text, q, u, d.Single?, lits, |fs|);
  }

  function Layout(d: Dialogue): Example {
    var fs := LexFrom(d.first, 0);
    match d
    case Single(first) => Example(first, |first|, |first|, true, SpansOf(fs, 0), |fs|)
    case Double(first, question, later) =>
      var q := |first| + |SEP|;
      var u := q + |question| + |SEP|;
      Example(first + SEP + (question + SEP) + later, q, u, false, SpansOf(fs, 0) + SpansOf(LexFrom(later, 0), u), |fs|)
  }

  /** Every rendered dialogue has the layout that rewriting a text needs. */
  lemma LayoutRendered(d: Dialogue)
    ensures Layout(d).Rendered()
  {
    hide LexFrom;
    InOrder(d.first, 0);
    match d
    case Single(_) =>
    case Double(first, question, later) => DoubleRendered(first, question, later);
  }

  lemma DoubleRendered(first: string, question: string, later: string)
    ensures Layout(Double(first, question, later)).Rendered()
  {
    hide LexFrom, SpansOf;
    var ex := Layout(Double(first, question, later));
    var fs, gs := LexFrom(first, 0), LexFrom(later, 0);
    InOrder(first, 0);
    InOrder(later, 0);
    MarksStand(first, question, later);
    forall i | 0 <= i < |ex.lits| ensures
      ex.lits[i] == if i < |fs| then Span(fs[i].start, fs[i].end)
                    else Span(gs[i - |fs|].start + ex.u2Start, gs[i - |fs|].end + ex.u2Start)
    {
      assert i < |fs| ==> ex.lits[i] == SpansOf(fs, 0)[i];
      assert i >= |fs| ==> ex.lits[i] == SpansOf(gs, ex.u2Start)[i - |fs|];
    }
  }

  lemma MarksStand(first: string, question: string, later: string)
    ensures var t, q := first + SEP + (question + SEP) + later, |first| + |SEP|;
      var u := q + |question| + |SEP|;
      u <= |t| && t[q - |SEP|..q] == SEP && t[u - |SEP|..u] == SEP
  {
    var t := first + SEP + (question + SEP) + later;
    assert t == first + SEP + (question + SEP + later) && t == (first + SEP + question) + SEP + later;
    Middle(first, SEP, question + SEP + later);
    Middle(first + SEP + question, SEP, later);
  }

  lemma Middle(a: string, b: string, c: string)
    ensures (a + b + c)[|a|..|a| + |b|] == b && (a + b + c)[|a| + |b|..] == c && (a + b + c)[..|a|] == a
  {
  }

  lemma TextOf(first: string, question: string, later: string)
    ensures var t := first + SEP + (question + SEP) + later;
      t == first + (SEP + (question + SEP) + later) + "" && t == first + SEP + question + (SEP + later) &&
      t == (first + SEP + (question + SEP)) + later + ""
  {
  }

  /** The turns and the question stand in the text where the offsets say. */
  lemma TurnsKept(first: string, question: string, later: string)
    ensures var ex := Layout(Double(first, question, later));
      && ex.text[..|first|] == first && |first| <= |ex.text| && ex.qStart + |SEP| <= ex.u2Start <= |ex.text|
      && ex.text[ex.qStart..ex.u2Start - |SEP|] == question && ex.text[ex.u2Start..] == later
  {
    hide LexFrom, SpansOf;
    TextOf(first, question, later);
    Middle(first, SEP + (question + SEP) + later, "");
    Middle(first + SEP, question, SEP + later);
    Middle(first + SEP + (question + SEP), later, "");
    assert |first + SEP + (question + SEP)| == |first| + |SEP| + |question| + |SEP|;
  }
}
