/** One operation with two arrays. Rows that are fully labelled and yet lost: the other array
    listed first, zeros before other elements, one element for a repeated literal. */
module ArrayExamples {
  import opened ArrayRoundTrip
  import opened Corpus
  import opened Decimals
  import opened Decoding
  import opened ForeignAnchor
  import opened KeptLabels
  import opened Labels
  import opened Maps
  import opened Options
  import opened RowRoundTrip
  import opened SiblingRoundTrip

  const OP := "op"
  const FIRST := "a[]"
  const SECOND := "b[]"

  function Plain(x: int): Lit {
    Lit(x as real, BareTag, 0)
  }

  function OneElement(key: string, x: int): Fact {
    Fact(key, Arr([Decimal(x, 0)]))
  }

  /** The slots use bare numbers as they are; `a` is the anchor. */
  function TwoArrays(): Schema {
    var uses := map[(BareTag, Point(Identity)) := 1.0];
    Schema(["none", OP], map[OP := [FIRST, SECOND]], map[FIRST := ArrKind, SECOND := ArrKind],
           [Pair(FIRST, Point(Identity)), Pair(SECOND, Point(Identity)), Pair(FIRST, Repeat(Identity, 2))],
           map[], map[], map[], map[], map[], map[FIRST := uses, SECOND := uses], map[OP := FIRST])
  }

  /** `x` before `y` in the text, `b` before `a` in the row. */
  function BFirst(x: int, y: int): Facts {
    Facts(Some(OP), [Plain(x), Plain(y)], [OneElement("b", x), OneElement("a", y)])
  }

  /** The same text, with `a` listed first. */
  function AFirst(x: int, y: int): Facts {
    Facts(Some(OP), [Plain(x), Plain(y)], [OneElement("a", x), OneElement("b", y)])
  }

  /** One number in the text for both arrays, with `b` listed first. */
  function Shared(x: int): Facts {
    Facts(Some(OP), [Plain(x)], [OneElement("b", x), OneElement("a", x)])
  }

  // ---- finding a bare number

  ghost predicate UsesBare(slot: string, sch: Schema) {
    slot in sch.compat && sch.compat[slot] == map[(BareTag, Point(Identity)) := 1.0]
  }

  lemma {:induction false} NotFound(e: Decimal, x: int, slot: string, sch: Schema, p: nat)
    requires UsesBare(slot, sch) && x as real != Value(e) && p <= UNARY_MAPS
    ensures Simplest(e, Plain(x), slot, sch, true, p).None?
    decreases UNARY_MAPS - p
  {
    hide UnaryValue, Value;
    if p < UNARY_MAPS {
      NotFound(e, x, slot, sch, p + 1);
      if p > 0 {
        assert UnaryMap(p) != Identity;
      } else {
        IdentityValue(x as real);
      }
    }
  }

  lemma IdentityValue(v: real)
    ensures UnaryMap(0) == Identity && UnaryValue(Identity, v) == v
  {
  }

  lemma FindsHere(e: Decimal, x: int, slot: string, sch: Schema)
    requires UsesBare(slot, sch) && x as real == Value(e) && x != 0
    ensures Simplest(e, Plain(x), slot, sch, true, 0) == Some(0)
  {
    hide Value;
    IdentityValue(x as real);
  }

  /** The first literal of the window that is the number itself. */
  lemma FindsItself(lits: seq<Lit>, lo: nat, hi: nat, at: nat, xs: seq<int>, slot: string, sch: Schema)
    requires lo <= at < hi <= |lits| == |xs| && UsesBare(slot, sch) && xs[at] != 0
    requires forall i :: 0 <= i < |xs| ==> lits[i] == Plain(xs[i])
    requires forall i :: lo <= i < at ==> xs[i] != xs[at]
    ensures Find(Decimal(xs[at], 0), lits, lo, hi, slot, sch) == Some(Hit(at, 0))
  {
    FindsFrom(lits, lo, hi, at, xs, slot, sch);
  }

  lemma {:induction false} FindsFrom(lits: seq<Lit>, lo: nat, hi: nat, at: nat, xs: seq<int>, slot: string, sch: Schema)
    requires lo <= at < hi <= |lits| == |xs| && UsesBare(slot, sch) && xs[at] != 0
    requires forall i :: 0 <= i < |xs| ==> lits[i] == Plain(xs[i])
    requires forall i :: lo <= i < at ==> xs[i] != xs[at]
    ensures FindFrom(Decimal(xs[at], 0), lits, lo, hi, slot, sch, true) == Some(Hit(at, 0))
    decreases at - lo
  {
    hide Simplest;
    var e := Decimal(xs[at], 0);
    if lo == at {
      FindsHere(e, xs[at], slot, sch);
    } else {
      NotFound(e, xs[lo], slot, sch, 0);
      FindsFrom(lits, lo + 1, hi, at, xs, slot, sch);
    }
  }

  // ---- labels of one element

  lemma OneRun(x: int, lits: seq<Lit>, slot: string, sch: Schema)
    requires x != 0 && |lits| > 0 && Find(Decimal(x, 0), lits, 0, |lits|, slot, sch) == Some(Hit(0, 0))
    ensures Runs([Decimal(x, 0)], lits, slot, sch) == Some([Run(0, 0, 1)])
    ensures RunMarks([Run(0, 0, 1)]) == [Mark(0, Point(Identity))]
  {
    hide Find;
    var els := [Decimal(x, 0)];
    assert els[..|els| - 1] == [];
    assert Runs([], lits, slot, sch) == Some([]);
    assert Value(els[0]) == x as real;
    assert [] + [Run(0, 0, 1)] == [Run(0, 0, 1)];
  }

  lemma OneHitMarks(x: int, at: nat, lits: seq<Lit>, slot: string, sch: Schema)
    requires x != 0 && at < |lits| && Find(Decimal(x, 0), lits, 0, |lits|, slot, sch) == Some(Hit(at, 0))
    ensures SiblingHits([Decimal(x, 0)], [Run(0, 0, 1)], lits, slot, sch) == Some([Hit(at, 0)])
    ensures SiblingMarks([Decimal(x, 0)], [Run(0, 0, 1)], lits, slot, sch) == [Mark(at, Point(Identity))]
  {
    hide Find;
    var els, runs := [Decimal(x, 0)], [Run(0, 0, 1)];
    assert els[..1] == els && els[1..] == [];
    assert GroupHits([], lits, at + 1, |lits|, slot, sch) == Some([]);
    assert [Hit(at, 0)] + [] == [Hit(at, 0)];
    assert GroupHits(els, lits, 0, |lits|, slot, sch) == Some([Hit(at, 0)]);
    assert HitsFrom([], runs, 1, true, lits, slot, sch) == Some([]);
  }

  // ---- the rows

  /** What every row here has: two arrays of one element, a bare literal at `0` for the first
      one and at `at` for the other. */
  ghost predicate Reads(f: Facts, first: string, other: string, x: int, y: int, at: nat) {
    && |f.fields| == 2 && f.fields[0].Name() == first && f.fields[1].Name() == other && first != other
    && f.fields[0].gold == Arr([Decimal(x, 0)]) && f.fields[1].gold == Arr([Decimal(y, 0)])
    && x != 0 && y != 0 && at < |f.lits|
    && Find(Decimal(x, 0), f.lits, 0, |f.lits|, first, TwoArrays()) == Some(Hit(0, 0))
    && Find(Decimal(y, 0), f.lits, 0, |f.lits|, other, TwoArrays()) == Some(Hit(at, 0))
  }

  lemma FirstMarks(f: Facts, first: string, other: string, x: int, y: int, at: nat)
    requires Reads(f, first, other, x, y, at)
    ensures FirstArray(f.fields) == 0 && AnchorRuns(f, TwoArrays()) == Some([Run(0, 0, 1)])
    ensures FieldMarks(f, TwoArrays(), 0) == [Mark(0, Point(Identity))]
    ensures RouteOf(f, TwoArrays(), 0) == Some(AnchorArray)
  {
    hide Find, Fact.Name;
    OneRun(x, f.lits, first, TwoArrays());
  }

  lemma OtherMarks(f: Facts, first: string, other: string, x: int, y: int, at: nat)
    requires Reads(f, first, other, x, y, at)
    ensures FieldMarks(f, TwoArrays(), 1) ==
      SiblingMarks([Decimal(y, 0)], [Run(0, 0, 1)], f.lits, other, TwoArrays()) == [Mark(at, Point(Identity))]
    ensures RouteOf(f, TwoArrays(), 1) == Some(GroupArray)
  {
    hide Find, Fact.Name, Runs;
    FirstMarks(f, first, other, x, y, at);
    OneHitMarks(y, at, f.lits, other, TwoArrays());
  }

  /** Nothing of such a row is unexplained, dropped or out of shape. */
  lemma FullyLabelled(f: Facts, first: string, other: string, x: int, y: int, at: nat)
    requires Reads(f, first, other, x, y, at) && {first, other} == {FIRST, SECOND}
    ensures var sch := TwoArrays();
      NothingUnexplained(f, sch) && NothingDropped(f, sch) && ClassesHold(f, sch) && ArraysFit(f, sch) &&
        SameFields(f, sch, OP)
  {
    hide Find, FieldMarks, RouteOf, AnchorRuns, Fact.Name, GroupsTrail, Total;
    var sch := TwoArrays();
    FirstMarks(f, first, other, x, y, at);
    OtherMarks(f, first, other, x, y, at);
    BothNamed(f, sch);
    assert sch.pairs[0] == Pair(FIRST, Point(Identity)) && sch.pairs[1] == Pair(SECOND, Point(Identity));
    OnesTrail([Decimal(y, 0)], [Run(0, 0, 1)], 0);
    TotalOnes([Run(0, 0, 1)]);
  }

  lemma BothNamed(f: Facts, sch: Schema)
    requires |f.fields| == 2 && {f.fields[0].Name(), f.fields[1].Name()} == {FIRST, SECOND} && sch == TwoArrays()
    ensures SameFields(f, sch, OP)
  {
    hide Fact.Name;
    assert sch.opFields[OP] == [FIRST, SECOND];
  }

  lemma RowNames()
    ensures forall x, y :: var f := BFirst(x, y); f.fields[0].Name() == SECOND && f.fields[1].Name() == FIRST
    ensures forall x, y :: var f := AFirst(x, y); f.fields[0].Name() == FIRST && f.fields[1].Name() == SECOND
    ensures forall x :: var f := Shared(x); f.fields[0].Name() == SECOND && f.fields[1].Name() == FIRST
  {
  }

  lemma TwoArraysFit(f: Facts)
    requires |f.lits| <= 2 && |f.fields| == 2 && f.fields[0].gold.Arr? && f.fields[1].gold.Arr?
    requires {f.fields[0].key, f.fields[1].key} == {"a", "b"}
    requires {f.fields[0].Name(), f.fields[1].Name()} == {FIRST, SECOND}
    ensures RowFits(f, TwoArrays(), OP) && AnchorKnown(TwoArrays(), OP)
  {
    hide Fact.Name;
    var sch := TwoArrays();
    KeysDiffer(f);
    assert sch.opFields[OP] == [FIRST, SECOND];
    assert FIRST[|FIRST| - 2..] == ARRAY_SUFFIX && SECOND[|SECOND| - 2..] == ARRAY_SUFFIX;
    assert FIRST[..|FIRST| - 2] == "a" && SECOND[..|SECOND| - 2] == "b";
  }

  lemma KeysDiffer(f: Facts)
    requires |f.fields| == 2 && {f.fields[0].key, f.fields[1].key} == {"a", "b"}
    requires {f.fields[0].Name(), f.fields[1].Name()} == {FIRST, SECOND}
    ensures FIRST != SECOND && "a" != "b" && f.fields[0].key != f.fields[1].key
    ensures f.fields[0].Name() != f.fields[1].Name()
  {
    hide Fact.Name;
    assert FIRST[0] != SECOND[0] && "a"[0] != "b"[0];
    assert "a" in {f.fields[0].key, f.fields[1].key} && "b" in {f.fields[0].key, f.fields[1].key};
    assert FIRST in {f.fields[0].Name(), f.fields[1].Name()} && SECOND in {f.fields[0].Name(), f.fields[1].Name()};
  }

  /** A fully labelled row that no finished labels rebuild: listed with `b` first, its first
      array starts one literal before the anchor. */
  lemma LostRow(x: int, y: int, pairs: seq<set<Pair>>, opId: nat, scores: Scores)
    requires x != 0 && y != 0 && x != y && Labelled(BFirst(x, y), TwoArrays(), pairs)
    ensures var f, sch := BFirst(x, y), TwoArrays();
      var ex := FinishedRow(f, sch, pairs, opId);
      && RowFits(f, sch, OP) && SameFields(f, sch, OP) && NothingUnexplained(f, sch) && NothingDropped(f, sch)
      && ArraysFit(f, sch) && ClassesHold(f, sch)
      && Usable(sch, OP, |f.lits|, ex) && !ParamsMatch(AllRebuilt(sch, OP, f.lits, ex, scores), AllGold(f))
  {
    hide ParamsMatch, Rebuilt, Find, FieldMarks, Labelled, Usable, RowFits, SiblingHits;
    var f, sch := BFirst(x, y), TwoArrays();
    RowNames();
    FindsItself(f.lits, 0, 2, 0, [x, y], SECOND, sch);
    FindsItself(f.lits, 0, 2, 1, [x, y], FIRST, sch);
    FirstMarks(f, SECOND, FIRST, x, y, 1);
    OtherMarks(f, SECOND, FIRST, x, y, 1);
    FullyLabelled(f, SECOND, FIRST, x, y, 1);
    TwoArraysFit(f);
    assert FieldNamed(f.fields, FIRST) == 1;
    assert !FieldCovered(f, sch, OP, 0);
    RowIff(f, sch, OP, pairs, opId, scores);
  }

  /** The same parameters come back when `a` is listed first. */
  lemma OrderedRow(x: int, y: int, pairs: seq<set<Pair>>, opId: nat, scores: Scores)
    requires x != 0 && y != 0 && x != y && Labelled(AFirst(x, y), TwoArrays(), pairs)
    ensures var f, sch := AFirst(x, y), TwoArrays();
      var ex := FinishedRow(f, sch, pairs, opId);
      Usable(sch, OP, |f.lits|, ex) && ParamsMatch(AllRebuilt(sch, OP, f.lits, ex, scores), AllGold(f))
  {
    hide ParamsMatch, Rebuilt, Find, FieldMarks, Labelled, Usable, RowFits, NothingUnexplained, NothingDropped,
      ArraysFit, SameFields, ClassesHold;
    var f, sch := AFirst(x, y), TwoArrays();
    RowNames();
    FindsItself(f.lits, 0, 2, 0, [x, y], FIRST, sch);
    FindsItself(f.lits, 0, 2, 1, [x, y], SECOND, sch);
    FirstMarks(f, FIRST, SECOND, x, y, 1);
    FullyLabelled(f, FIRST, SECOND, x, y, 1);
    TwoArraysFit(f);
    ExplainedRowMatches(f, sch, OP, pairs, opId, scores);
  }

  /** So does a row listed with `b` first, when both arrays point at the same literal. */
  lemma SharedRow(x: int, pairs: seq<set<Pair>>, opId: nat, scores: Scores)
    requires x != 0 && Labelled(Shared(x), TwoArrays(), pairs)
    ensures var f, sch := Shared(x), TwoArrays();
      var ex := FinishedRow(f, sch, pairs, opId);
      !AnchorFirst(f, sch, OP) && Usable(sch, OP, |f.lits|, ex) &&
        ParamsMatch(AllRebuilt(sch, OP, f.lits, ex, scores), AllGold(f))
  {
    hide ParamsMatch, Rebuilt, Find, FieldMarks, Labelled, Usable, RowFits, NothingUnexplained, NothingDropped,
      ArraysFit, SameFields, ClassesHold, SiblingHits, AnchorElsewhere, AnchorFirst, AnchorRuns,
        FinishedRow, AnchorKnown;
    var f, sch := Shared(x), TwoArrays();
    RowNames();
    FindsItself(f.lits, 0, 1, 0, [x], SECOND, sch);
    FindsItself(f.lits, 0, 1, 0, [x], FIRST, sch);
    FullyLabelled(f, SECOND, FIRST, x, x, 0);
    TwoArraysFit(f);
    SharedAligned(x);
    ExplainedRowMatches(f, sch, OP, pairs, opId, scores);
  }

  /** Both arrays point at literal 0. */
  lemma SharedAligned(x: int)
    requires x != 0 && Reads(Shared(x), SECOND, FIRST, x, x, 0)
    ensures var f, sch := Shared(x), TwoArrays();
      AnchorRuns(f, sch).Some? && AnchorElsewhere(f, sch, OP) && !AnchorFirst(f, sch, OP)
  {
    hide Find, FieldMarks, Fact.Name, Aligned, AnchorRuns, Runs;
    var f, sch := Shared(x), TwoArrays();
    FirstMarks(f, SECOND, FIRST, x, x, 0);
    NamedSecond(f);
    AlignedAtOne(x, f.lits);
  }

  lemma AlignedAtOne(x: int, lits: seq<Lit>)
    requires x != 0 && lits != [] && Find(Decimal(x, 0), lits, 0, |lits|, SECOND, TwoArrays()) == Some(Hit(0, 0))
    requires Find(Decimal(x, 0), lits, 0, |lits|, FIRST, TwoArrays()) == Some(Hit(0, 0))
    ensures Aligned([Run(0, 0, 1)], SECOND, [Decimal(x, 0)], FIRST, lits, TwoArrays())
  {
    hide Find, SiblingHits, SiblingMarks, Runs;
    OneRun(x, lits, SECOND, TwoArrays());
    OneHitMarks(x, 0, lits, FIRST, TwoArrays());
    FirstKept();
  }

  lemma FirstKept()
    ensures AllKept([Mark(0, Point(Identity))], FIRST, TwoArrays().pairs)
    ensures AllKept([Mark(0, Point(Identity))], SECOND, TwoArrays().pairs)
  {
    var pairs := TwoArrays().pairs;
    assert pairs[0] == Pair(FIRST, Point(Identity)) && pairs[1] == Pair(SECOND, Point(Identity));
  }

  lemma NamedSecond(f: Facts)
    requires |f.fields| == 2 && f.fields[0].Name() != FIRST && f.fields[1].Name() == FIRST
    ensures FieldNamed(f.fields, FIRST) == 1
  {
    hide Fact.Name;
    assert f.fields[1..][0] == f.fields[1];
  }

  // ---- a repeated literal

  function Elements(key: string, xs: seq<int>): Fact {
    Fact(key, Arr(seq(|xs|, i requires 0 <= i < |xs| => Decimal(xs[i], 0))))
  }

  /** The anchor repeats `x`, and `b` has two elements. */
  function Repeating(x: int, y: int, b: seq<int>): Facts {
    Facts(Some(OP), [Plain(y), Plain(x)], [Elements("a", [x, x]), Elements("b", b)])
  }

  /** The anchor repeats the only literal, and `b` has one element. */
  function OneForTwo(x: int): Facts {
    Facts(Some(OP), [Plain(x)], [Elements("a", [x, x]), Elements("b", [x])])
  }

  lemma NoLiteralLeft(e: Decimal, lits: seq<Lit>, slot: string, sch: Schema)
    ensures Find(e, lits, |lits|, |lits|, slot, sch) == None
  {
  }

  /** The number twice, its literal at the text's end: one run of two. */
  lemma TwiceRuns(x: int, at: nat, lits: seq<Lit>, slot: string, sch: Schema)
    requires x != 0 && |lits| == at + 1 && Find(Decimal(x, 0), lits, 0, |lits|, slot, sch) == Some(Hit(at, 0))
    ensures Runs([Decimal(x, 0), Decimal(x, 0)], lits, slot, sch) == Some([Run(at, 0, 2)])
    ensures RunMarks([Run(at, 0, 2)]) == [Mark(at, Repeat(Identity, 2))] && Total([Run(at, 0, 2)]) == 2
  {
    hide Find;
    var e := Decimal(x, 0);
    var els := [e, e];
    assert [e][..0] == [] && els[..1] == [e];
    assert Runs([], lits, slot, sch) == Some([]);
    assert Value(e) == x as real;
    assert [] + [Run(at, 0, 1)] == [Run(at, 0, 1)];
    assert Runs([e], lits, slot, sch) == Some([Run(at, 0, 1)]);
    NoLiteralLeft(e, lits, slot, sch);
    assert [Run(at, 0, 1)][0 := Run(at, 0, 2)] == [Run(at, 0, 2)];
    assert [Run(at, 0, 2)][1..] == [];
  }

  /** A row whose first array is the anchor, one run of two, and whose other array is labelled. */
  ghost predicate RepeatsFirst(f: Facts, at: nat, hits: seq<Hit>) {
    && |f.fields| == 2 && f.fields[0].Name() == FIRST && f.fields[1].Name() == SECOND && FIRST != SECOND
    && f.fields[0].gold.Arr? && f.fields[1].gold.Arr? && at < |f.lits|
    && Runs(f.fields[0].gold.els, f.lits, FIRST, TwoArrays()) == Some([Run(at, 0, 2)])
    && SiblingHits(f.fields[1].gold.els, [Run(at, 0, 2)], f.lits, SECOND, TwoArrays()) == Some(hits)
    && RunMarks([Run(at, 0, 2)]) == [Mark(at, Repeat(Identity, 2))]
    && forall h :: h in hits ==> h.p == 0
  }

  /** Such a row has nothing unexplained and nothing dropped. */
  lemma RepeatsLabelled(f: Facts, at: nat, hits: seq<Hit>)
    requires RepeatsFirst(f, at, hits)
    ensures var sch := TwoArrays();
      && NothingUnexplained(f, sch) && NothingDropped(f, sch) && ClassesHold(f, sch) && SameFields(f, sch, OP)
      && FirstArray(f.fields) == 0 && AnchorFirst(f, sch, OP) && AnchorRuns(f, sch) == Some([Run(at, 0, 2)])
  {
    hide Find, Fact.Name, Runs, SiblingHits;
    var sch := TwoArrays();
    BothNamed(f, sch);
    assert sch.pairs[1] == Pair(SECOND, Point(Identity)) && sch.pairs[2] == Pair(FIRST, Repeat(Identity, 2));
    assert FieldMarks(f, sch, 0) == [Mark(at, Repeat(Identity, 2))];
    assert FieldMarks(f, sch, 1) == HitMarks(hits);
  }

  /** It is never rebuilt when its other array does not fit the run. */
  lemma RepeatsLost(f: Facts, at: nat, hits: seq<Hit>, pairs: seq<set<Pair>>, opId: nat, scores: Scores)
    requires RepeatsFirst(f, at, hits) && RowFits(f, TwoArrays(), OP) && AnchorKnown(TwoArrays(), OP)
    requires Labelled(f, TwoArrays(), pairs)
    requires |f.fields[1].gold.els| == 2 ==> !ZerosTrail(f.fields[1].gold.els)
    ensures var sch := TwoArrays();
      var ex := FinishedRow(f, sch, pairs, opId);
      Usable(sch, OP, |f.lits|, ex) && !ParamsMatch(AllRebuilt(sch, OP, f.lits, ex, scores), AllGold(f))
  {
    hide ParamsMatch, Rebuilt, Find, FieldMarks, Labelled, Usable, RowFits, SiblingHits, Runs, Fact.Name, AnchorKnown;
    var els, runs := f.fields[1].gold.els, [Run(at, 0, 2)];
    RepeatsLabelled(f, at, hits);
    assert runs[1..] == [];
    assert Total(runs) == 2;
    if |els| == 2 {
      assert els[..2] == els;
    }
    assert !SiblingCovered(els, runs, f.lits, SECOND, TwoArrays());
    assert !FieldCovered(f, TwoArrays(), OP, 1);
    RowIff(f, TwoArrays(), OP, pairs, opId, scores);
  }

  lemma ElementNames()
    ensures forall x, y, b :: Repeating(x, y, b).fields[0].Name() == FIRST
    ensures forall x, y, b :: Repeating(x, y, b).fields[1].Name() == SECOND
    ensures forall x :: OneForTwo(x).fields[0].Name() == FIRST && OneForTwo(x).fields[1].Name() == SECOND
  {
  }

  lemma TwoElements(key: string, x: int, y: int)
    ensures Elements(key, [x, y]).gold.els == [Decimal(x, 0), Decimal(y, 0)]
    ensures Elements(key, [x]).gold.els == [Decimal(x, 0)]
  {
  }

  /** A zero and then a number: the zero needs no literal, the number has its own. */
  lemma ZeroThenHit(y: int, at: nat, lits: seq<Lit>, slot: string, sch: Schema)
    requires y != 0 && at < |lits| && Find(Decimal(y, 0), lits, 0, |lits|, slot, sch) == Some(Hit(0, 0))
    ensures var els := [Decimal(0, 0), Decimal(y, 0)];
      SiblingHits(els, [Run(at, 0, 2)], lits, slot, sch) == Some([Hit(0, 0)]) && !ZerosTrail(els)
  {
    hide Find;
    var els, runs := [Decimal(0, 0), Decimal(y, 0)], [Run(at, 0, 2)];
    assert Value(els[0]) == 0.0 && Value(els[1]) == y as real;
    OneNumber(y, lits, slot, sch);
    assert els[1..] == [Decimal(y, 0)] && els[..2] == els && els[2..] == [];
    assert runs[1..] == [] && Total(runs) == 2;
    assert HitsFrom([], runs, 1, false, lits, slot, sch) == Some([]);
    assert [Hit(0, 0)] + [] == [Hit(0, 0)];
  }

  lemma OneNumber(y: int, lits: seq<Lit>, slot: string, sch: Schema)
    requires y != 0 && lits != [] && Find(Decimal(y, 0), lits, 0, |lits|, slot, sch) == Some(Hit(0, 0))
    ensures GroupHits([Decimal(y, 0)], lits, 0, |lits|, slot, sch) == Some([Hit(0, 0)])
  {
    hide Find;
    assert [Decimal(y, 0)][1..] == [];
    assert GroupHits([], lits, 1, |lits|, slot, sch) == Some([]);
    assert [Hit(0, 0)] + [] == [Hit(0, 0)];
  }

  /** One element for a run that repeats is labelled too. */
  lemma OneForRun(x: int, lits: seq<Lit>, slot: string, sch: Schema)
    requires x != 0 && lits != [] && Find(Decimal(x, 0), lits, 0, |lits|, slot, sch) == Some(Hit(0, 0))
    ensures SiblingHits([Decimal(x, 0)], [Run(0, 0, 2)], lits, slot, sch) == Some([Hit(0, 0)])
  {
    hide Find;
    var els, runs := [Decimal(x, 0)], [Run(0, 0, 2)];
    OneNumber(x, lits, slot, sch);
    assert els[..1] == els && els[1..] == [];
    assert HitsFrom([], runs, 1, true, lits, slot, sch) == Some([]);
    assert [Hit(0, 0)] + [] == [Hit(0, 0)];
  }

  lemma ZeroFirstRepeats(x: int, y: int)
    requires x != 0 && y != 0 && x != y
    ensures var f := Repeating(x, y, [0, y]);
      RepeatsFirst(f, 1, [Hit(0, 0)]) && |f.fields[1].gold.els| == 2 && !ZerosTrail(f.fields[1].gold.els)
  {
    hide Find, SiblingHits, Runs, Fact.Name, ZerosTrail, RunMarks;
    var f, sch := Repeating(x, y, [0, y]), TwoArrays();
    ElementNames();
    TwoElements("a", x, x);
    TwoElements("b", 0, y);
    FindsItself(f.lits, 0, 2, 1, [y, x], FIRST, sch);
    FindsItself(f.lits, 0, 2, 0, [y, x], SECOND, sch);
    TwiceRuns(x, 1, f.lits, FIRST, sch);
    ZeroThenHit(y, 1, f.lits, SECOND, sch);
    assert FIRST[0] != SECOND[0];
  }

  lemma ShorterRepeats(x: int)
    requires x != 0
    ensures RepeatsFirst(OneForTwo(x), 0, [Hit(0, 0)]) && |OneForTwo(x).fields[1].gold.els| == 1
  {
    hide Find, SiblingHits, Runs, Fact.Name, RunMarks;
    var f, sch := OneForTwo(x), TwoArrays();
    ElementNames();
    TwoElements("a", x, x);
    TwoElements("b", x, x);
    FindsItself(f.lits, 0, 1, 0, [x], FIRST, sch);
    FindsItself(f.lits, 0, 1, 0, [x], SECOND, sch);
    TwiceRuns(x, 0, f.lits, FIRST, sch);
    OneForRun(x, f.lits, SECOND, sch);
    assert FIRST[0] != SECOND[0];
  }

  /** A fully labelled row that no finished labels rebuild: its second array states a zero
      before a number, and the decoder writes the zeros last. */
  lemma ZeroFirstRow(x: int, y: int, pairs: seq<set<Pair>>, opId: nat, scores: Scores)
    requires x != 0 && y != 0 && x != y && Labelled(Repeating(x, y, [0, y]), TwoArrays(), pairs)
    ensures var f, sch := Repeating(x, y, [0, y]), TwoArrays();
      var ex := FinishedRow(f, sch, pairs, opId);
      && RowFits(f, sch, OP) && SameFields(f, sch, OP) && NothingUnexplained(f, sch) && NothingDropped(f, sch)
      && AnchorFirst(f, sch, OP) && ClassesHold(f, sch)
      && Usable(sch, OP, |f.lits|, ex) && !ParamsMatch(AllRebuilt(sch, OP, f.lits, ex, scores), AllGold(f))
  {
    hide ParamsMatch, Rebuilt, Find, FieldMarks, Labelled, Usable, RowFits, RepeatsFirst, Fact.Name, ZerosTrail,
      NothingUnexplained, NothingDropped, SameFields, AnchorFirst, ClassesHold, FinishedRow;
    var f, sch := Repeating(x, y, [0, y]), TwoArrays();
    ZeroFirstRepeats(x, y);
    ElementNames();
    RepeatsLabelled(f, 1, [Hit(0, 0)]);
    TwoArraysFit(f);
    RepeatsLost(f, 1, [Hit(0, 0)], pairs, opId, scores);
  }

  /** Another one: its second array has one element for a literal that the anchor repeats,
      and the decoder writes one for each repeat. */
  lemma ShorterRow(x: int, pairs: seq<set<Pair>>, opId: nat, scores: Scores)
    requires x != 0 && Labelled(OneForTwo(x), TwoArrays(), pairs)
    ensures var f, sch := OneForTwo(x), TwoArrays();
      var ex := FinishedRow(f, sch, pairs, opId);
      && RowFits(f, sch, OP) && SameFields(f, sch, OP) && NothingUnexplained(f, sch) && NothingDropped(f, sch)
      && AnchorFirst(f, sch, OP) && ClassesHold(f, sch)
      && Usable(sch, OP, |f.lits|, ex) && !ParamsMatch(AllRebuilt(sch, OP, f.lits, ex, scores), AllGold(f))
  {
    hide ParamsMatch, Rebuilt, Find, FieldMarks, Labelled, Usable, RowFits, RepeatsFirst, Fact.Name, ZerosTrail,
      NothingUnexplained, NothingDropped, SameFields, AnchorFirst, ClassesHold, FinishedRow;
    var f, sch := OneForTwo(x), TwoArrays();
    ShorterRepeats(x);
    ElementNames();
    RepeatsLabelled(f, 0, [Hit(0, 0)]);
    TwoArraysFit(f);
    RepeatsLost(f, 0, [Hit(0, 0)], pairs, opId, scores);
  }
}
