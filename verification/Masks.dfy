/** The masks that keep an operation to its own pairs and classes, and decoding under them. */
module Masks {
  import opened Corpus
  import opened Decoder
  import opened Decoding
  import opened Labels
  import opened Options
  import opened RowRoundTrip
  import opened SameLabels
  import opened SchemaBuilder

  // ---- mask tables

  /** A boolean table with one row per operation, set in place. */
  method FillMask(ops: seq<string>, width: nat, allowed: map<string, set<nat>>) returns (a: array2<bool>)
    requires MaskFits(allowed, ops, width)
    ensures fresh(a) && a.Length0 == |ops| && a.Length1 == width
    ensures forall o, i ::
      0 <= o < |ops| && 0 <= i < width ==> (a[o, i] <==> OpIndex(ops, ops[o]) == o && InMask(allowed, ops[o], i))
  {
    a := new bool[|ops|, width]((_, _) => false);
    var todo := allowed.Keys;
    while todo != {}
      invariant todo <= allowed.Keys
      invariant forall o, i :: 0 <= o < |ops| && 0 <= i < width ==>
                  (a[o, i] <==> OpIndex(ops, ops[o]) == o && ops[o] !in todo && InMask(allowed, ops[o], i))
      decreases |todo|
    {
      var op :| op in todo;
      todo := todo - {op};
      var row := OpIndex(ops, op);
      var ids := allowed[op];
      while ids != {}
        invariant ids <= allowed[op]
        invariant forall o, i :: 0 <= o < |ops| && 0 <= i < width ==>
                    (a[o, i] <==> OpIndex(ops, ops[o]) == o && ops[o] !in todo &&
                                  InMask(allowed, ops[o], i) && (o == row ==> i !in ids))
        decreases |ids|
      {
        var i :| i in ids;
        ids := ids - {i};
        a[row, i] := true;
      }
    }
  }

  /** The pair mask, and one class mask per field with a class head. */
  datatype MaskTables = MaskTables(pair: array2<bool>, conv: map<string, array2<bool>>)

  ghost predicate MaskFits(allowed: map<string, set<nat>>, ops: seq<string>, width: nat) {
    forall op :: op in allowed ==> op in ops && forall i :: i in allowed[op] ==> i < width
  }

  /** The schema's masks name known operations and existing ids. */
  ghost predicate MasksFit(sch: Schema) {
    && MaskFits(sch.opPairs, sch.ops, |sch.pairs|)
    && forall name :: name in sch.convVocab ==>
      name in sch.convOpMask && MaskFits(sch.convOpMask[name], sch.ops, |sch.convVocab[name]|)
  }

  /** A table says, for each operation's own row, exactly what the schema allows. */
  ghost predicate Tabulates(a: array2<bool>, ops: seq<string>, width: nat, allowed: map<string, set<nat>>)
    reads a
  {
    && a.Length0 == |ops| && a.Length1 == width
    && forall o, i :: 0 <= o < |ops| && 0 <= i < width ==>
      (a[o, i] <==> OpIndex(ops, ops[o]) == o && InMask(allowed, ops[o], i))
  }

  method MakeMasks(sch: Schema) returns (t: MaskTables)
    requires MasksFit(sch)
    ensures Tabulates(t.pair, sch.ops, |sch.pairs|, sch.opPairs)
    ensures t.conv.Keys == sch.convVocab.Keys
    ensures forall name ::
      name in t.conv ==> Tabulates(t.conv[name], sch.ops, |sch.convVocab[name]|, sch.convOpMask[name])
  {
    var pair := FillMask(sch.ops, |sch.pairs|, sch.opPairs);
    var conv: map<string, array2<bool>> := map[];
    var todo := sch.convVocab.Keys;
    while todo != {}
      invariant Tabulates(pair, sch.ops, |sch.pairs|, sch.opPairs)
      invariant todo <= sch.convVocab.Keys && conv.Keys == sch.convVocab.Keys - todo
      invariant forall name ::
        name in conv ==> Tabulates(conv[name], sch.ops, |sch.convVocab[name]|, sch.convOpMask[name])
      decreases |todo|
    {
      var name :| name in todo;
      todo := todo - {name};
      var a := FillMask(sch.ops, |sch.convVocab[name]|, sch.convOpMask[name]);
      conv := conv[name := a];
    }
    t := MaskTables(pair, conv);
  }

  // ---- one row's scores

  /** The model's probability of each pair at each literal, and its class logits. */
  datatype Prediction = Prediction(pair: seq<seq<real>>, conv: map<string, seq<real>>)

  /** What a class outside the mask scores. */
  const MASKED := -1000000000.0

  ghost predicate Shaped(sch: Schema, n: nat, pred: Prediction) {
    && |pred.pair| == n && (forall li :: 0 <= li < n ==> |pred.pair[li]| == |sch.pairs|)
    && forall name :: name in sch.convVocab ==> name in pred.conv && |pred.conv[name]| == |sch.convVocab[name]|
  }

  /** The allowed pairs above the threshold, in order. */
  function Selected(prob: seq<real>, sch: Schema, op: string, threshold: real, n: nat): (ids: seq<nat>)
    requires n <= |prob|
    ensures forall k :: 0 <= k < |ids| ==> ids[k] < n
  {
    if n == 0 then []
    else
      var rest := Selected(prob, sch, op, threshold, n - 1);
      if prob[n - 1] > threshold && InMask(sch.opPairs, op, n - 1) then rest + [n - 1] else rest
  }

  function Masked(logits: seq<real>, sch: Schema, name: string, op: string): (r: seq<real>)
    ensures |r| == |logits| && forall i ::
      0 <= i < |r| ==> r[i] == if InClassMask(sch, name, op, i) then logits[i] else MASKED
  {
    seq(|logits|, i requires 0 <= i < |logits| => if InClassMask(sch, name, op, i) then logits[i] else MASKED)
  }

  /** The first position of the greatest value. */
  function ArgMax(xs: seq<real>): (k: nat)
    requires xs != []
    ensures k < |xs| && forall i :: 0 <= i < |xs| ==> xs[i] <= xs[k]
    ensures forall i :: 0 <= i < k ==> xs[i] < xs[k]
  {
    if |xs| == 1 then 0
    else
      var k := ArgMax(xs[..|xs| - 1]);
      assert forall i :: 0 <= i < |xs| - 1 ==> xs[i] == xs[..|xs| - 1][i];
      if xs[|xs| - 1] > xs[k] then |xs| - 1 else k
  }

  /** The operation has some class of the field to choose from. */
  predicate AnyClass(sch: Schema, name: string, op: string) {
    name in sch.convVocab && exists i :: 0 <= i < |sch.convVocab[name]| && InClassMask(sch, name, op, i)
  }

  function PredictedPairs(sch: Schema, op: string, pred: Prediction, threshold: real): (r: seq<seq<nat>>)
    requires Shaped(sch, |pred.pair|, pred)
    ensures |r| == |pred.pair| && forall li ::
      0 <= li < |r| ==> r[li] == Selected(pred.pair[li], sch, op, threshold, |sch.pairs|)
  {
    seq(|pred.pair|, li requires 0 <= li < |pred.pair| => Selected(pred.pair[li], sch, op, threshold, |sch.pairs|))
  }

  function PredictedClasses(sch: Schema, op: string, pred: Prediction): map<string, nat>
    requires Shaped(sch, |pred.pair|, pred)
  {
    map name | name in sch.convVocab && AnyClass(sch, name, op) :: ArgMax(Masked(pred.conv[name], sch, name, op))
  }

  function Predicted(sch: Schema, opId: nat, op: string, pred: Prediction, threshold: real): Example
    requires Shaped(sch, |pred.pair|, pred)
  {
    Example(opId, PredictedPairs(sch, op, pred, threshold), PredictedClasses(sch, op, pred))
  }

  // ---- masks never lose a gold label

  lemma {:induction false} CountsLiteral(f: Facts, sch: Schema, p: Pair, li: nat, n: nat)
    requires li < n <= |f.lits| && Mark(li, p.role) in MarksOf(f, sch, p.slot)
    ensures LitsWith(f, sch, p, n) > 0
    decreases n
  {
    hide MarksOf;
    if li < n - 1 {
      CountsLiteral(f, sch, p, li, n - 1);
    }
  }

  lemma {:induction false} CountsRow(corpus: seq<Facts>, sch: Schema, op: string, name: string, c: ClassText, i: nat)
    requires i < |corpus| && corpus[i].op == Some(op) && Classed(corpus[i], sch, name, c)
    ensures ClassUses(corpus, sch, op, name, c) > 0
    decreases |corpus|
  {
    hide Classed;
    if i < |corpus| - 1 {
      CountsRow(corpus[..|corpus| - 1], sch, op, name, c, i);
    }
  }

  /** Every pair a corpus row is labelled with, once in the vocabulary, is in the mask of the
      row's operation. */
  lemma {:induction false} PairInMask(corpus: seq<Facts>, sch0: Schema, minPair: nat, sch: Schema, i: nat, op: string,
      li: nat, p: nat)
    requires Learned(corpus, sch0, minPair, sch) && i < |corpus| && corpus[i].op == Some(op)
    requires li < |corpus[i].lits| && p < |sch.pairs|
    requires Mark(li, sch.pairs[p].role) in MarksOf(corpus[i], sch0, sch.pairs[p].slot)
    ensures InMask(sch.opPairs, op, p)
  {
    hide MarksOf;
    CountsLiteral(corpus[i], sch0, sch.pairs[p], li, |corpus[i].lits|);
    assert Uses(corpus[i], sch0, sch.pairs[p]);
  }

  /** Every class a corpus row carries is in the mask of the row's operation. */
  lemma {:induction false} ClassInMask(corpus: seq<Facts>, sch0: Schema, minPair: nat, sch: Schema, i: nat,
      op: string, name: string, c: nat)
    requires Learned(corpus, sch0, minPair, sch) && i < |corpus| && corpus[i].op == Some(op)
    requires name in sch0.convVocab && c < |sch0.convVocab[name]|
    requires Classed(corpus[i], sch0, name, sch0.convVocab[name][c])
    ensures InClassMask(sch, name, op, c) && AnyClass(sch, name, op)
  {
    hide Classed;
    CountsRow(corpus, sch0, op, name, sch0.convVocab[name][c], i);
  }

  // ---- perfect scores decode to the gold

  /** Scores that are right where the masks and the labels say something, and arbitrary
      elsewhere: under the operation's mask a pair is above the threshold exactly when the
      literal is labelled with it, and a labelled class beats every other allowed one. */
  ghost predicate Perfect(f: Facts, sch: Schema, op: string, pred: Prediction, threshold: real) {
    && Shaped(sch, |f.lits|, pred)
    && (forall li, p: nat :: 0 <= li < |f.lits| && p < |sch.pairs| && InMask(sch.opPairs, op, p) ==>
          (pred.pair[li][p] > threshold <==> Mark(li, sch.pairs[p].role) in MarksOf(f, sch, sch.pairs[p].slot)))
    && forall name :: name in ClassLabels(f, sch, |f.fields|) && name in sch.convVocab ==>
      ClassWins(f, sch, op, name, pred)
  }

  ghost predicate ClassWins(f: Facts, sch: Schema, op: string, name: string, pred: Prediction)
    requires Shaped(sch, |pred.pair|, pred) && name in ClassLabels(f, sch, |f.fields|) && name in sch.convVocab
  {
    var voc, logits := sch.convVocab[name], pred.conv[name];
    var g := IndexOf(voc, ClassLabels(f, sch, |f.fields|)[name]);
    g < |voc| ==> logits[g] > MASKED && forall i ::
      0 <= i < |voc| && i != g && InClassMask(sch, name, op, i) ==> logits[i] < logits[g]
  }

  lemma {:induction false} SelectsLabels(names: set<Pair>, prob: seq<real>, sch: Schema, op: string, threshold: real,
      n: nat)
    requires n <= |prob| == |sch.pairs|
    requires forall p: nat ::
      p < |sch.pairs| ==> (prob[p] > threshold && InMask(sch.opPairs, op, p) <==> sch.pairs[p] in names)
    ensures Selected(prob, sch, op, threshold, n) == KeptIds(names, sch.pairs, n)
    decreases n
  {
    if n > 0 {
      SelectsLabels(names, prob, sch, op, threshold, n - 1);
    }
  }

  /** The schema the second pass learned reads the row as the provisional one did. */
  lemma {:induction false} SameMarks(f: Facts, sch0: Schema, sch: Schema, slot: string)
    requires Agree(sch0, sch)
    ensures MarksOf(f, sch0, slot) == MarksOf(f, sch, slot)
  {
    hide FieldMarks, RouteOf;
    var k := FieldNamed(f.fields, slot);
    if k < |f.fields| {
      SameField(f, sch0, sch, k);
    }
  }

  /** A row of the corpus, the schema learned from it, and what the two have in common. */
  ghost predicate TrainingRow(corpus: seq<Facts>, sch0: Schema, minPair: nat, sch: Schema, i: nat, op: string) {
    && Learned(corpus, sch0, minPair, sch) && i < |corpus| && corpus[i].op == Some(op)
    && RowFits(corpus[i], sch, op)
  }

  lemma {:induction false} PairsRecovered(corpus: seq<Facts>, sch0: Schema, minPair: nat, sch: Schema, i: nat,
      op: string, pairs: seq<set<Pair>>, pred: Prediction, threshold: real, li: nat)
    requires TrainingRow(corpus, sch0, minPair, sch, i, op) && Perfect(corpus[i], sch, op, pred, threshold)
    requires Labelled(corpus[i], sch, pairs) && li < |pairs|
    ensures Selected(pred.pair[li], sch, op, threshold, |sch.pairs|) == KeptIds(pairs[li], sch.pairs, |sch.pairs|)
  {
    hide MarksOf, RowFits;
    var f := corpus[i];
    forall p: nat | p < |sch.pairs|
      ensures pred.pair[li][p] > threshold && InMask(sch.opPairs, op, p) <==> sch.pairs[p] in pairs[li]
    {
      NamesAt(f, sch, pairs, li, sch.pairs[p]);
      SameMarks(f, sch0, sch, sch.pairs[p].slot);
      if sch.pairs[p] in pairs[li] {
        PairInMask(corpus, sch0, minPair, sch, i, op, li, p);
      }
    }
    SelectsLabels(pairs[li], pred.pair[li], sch, op, threshold, |sch.pairs|);
  }

  /** The class pick of a labelled field is its label. */
  lemma {:induction false} ClassRecovered(corpus: seq<Facts>, sch0: Schema, minPair: nat, sch: Schema, i: nat,
      op: string, pred: Prediction, threshold: real, opId: nat, k: nat)
    requires TrainingRow(corpus, sch0, minPair, sch, i, op) && Perfect(corpus[i], sch, op, pred, threshold)
    requires k < |corpus[i].fields| && HasClass(corpus[i], sch, k) && ClassesHold(corpus[i], sch)
    ensures Answers(corpus[i], sch, op, Predicted(sch, opId, op, pred, threshold), corpus[i].fields[k].Name())
  {
    hide IsPlain, ClassOf, RowFits, Learned, ClassLabels, AnyClass, ArgMax, PredictedPairs, ClassWins;
    var f := corpus[i];
    var name, c := f.fields[k].Name(), ClassOf(f.fields[k].gold);
    TrainingNames(corpus, sch0, minPair, sch, i, op);
    FieldNamedAt(f, k);
    ClassLabelsAt(f, sch, |f.fields|, name);
    assert IsConvention(sch, name, c);
    if name in sch.convVocab {
      var g := IndexOf(sch.convVocab[name], c);
      LabelInMask(corpus, sch0, minPair, sch, i, op, k);
      assert ClassWins(f, sch, op, name, pred);
      WinnerPicked(f, sch, op, name, pred, g);
    }
  }

  lemma TrainingNames(corpus: seq<Facts>, sch0: Schema, minPair: nat, sch: Schema, i: nat, op: string)
    requires TrainingRow(corpus, sch0, minPair, sch, i, op)
    ensures DistinctNames(corpus[i]) && Agree(sch0, sch)
  {
    hide PairUses, OpUses, ClassUses;
  }

  /** A labelled class is allowed to the row's operation. */
  lemma LabelInMask(corpus: seq<Facts>, sch0: Schema, minPair: nat, sch: Schema, i: nat, op: string, k: nat)
    requires TrainingRow(corpus, sch0, minPair, sch, i, op) && k < |corpus[i].fields| && HasClass(corpus[i], sch, k)
    requires corpus[i].fields[k].Name() in sch.convVocab
    requires ClassOf(corpus[i].fields[k].gold) in sch.convVocab[corpus[i].fields[k].Name()]
    ensures var name := corpus[i].fields[k].Name();
      AnyClass(sch, name, op) &&
        InClassMask(sch, name, op, IndexOf(sch.convVocab[name], ClassOf(corpus[i].fields[k].gold)))
  {
    hide IsPlain, ClassOf, RowFits, Learned, AnyClass, InClassMask;
    var f := corpus[i];
    var name, c := f.fields[k].Name(), ClassOf(f.fields[k].gold);
    TrainingNames(corpus, sch0, minPair, sch, i, op);
    FieldNamedAt(f, k);
    ClassLabelsAt(f, sch, |f.fields|, name);
    SameClasses(f, sch0, sch, |f.fields|);
    assert Classed(f, sch0, name, c);
    ClassInMask(corpus, sch0, minPair, sch, i, op, name, IndexOf(sch.convVocab[name], c));
  }

  /** The allowed class that beats every other allowed one is picked. */
  lemma WinnerPicked(f: Facts, sch: Schema, op: string, name: string, pred: Prediction, g: nat)
    requires Shaped(sch, |pred.pair|, pred) && name in ClassLabels(f, sch, |f.fields|) && name in sch.convVocab
    requires ClassWins(f, sch, op, name, pred) && InClassMask(sch, name, op, g)
    requires g == IndexOf(sch.convVocab[name], ClassLabels(f, sch, |f.fields|)[name]) < |sch.convVocab[name]|
    ensures ArgMax(Masked(pred.conv[name], sch, name, op)) == g
  {
    hide ClassLabels, InClassMask, ArgMax;
    var xs := Masked(pred.conv[name], sch, name, op);
    assert xs[g] == pred.conv[name][g];
    forall i | 0 <= i < |xs| && i != g ensures xs[i] < xs[g] {
    }
  }

  /** Decoding under the masks never loses a gold label: for every corpus, every schema the
      second pass learns from it and every corpus row that is explained under it, perfect
      scores decode to the gold, whatever the scores outside the masks are. */
  lemma {:induction false} PerfectScoresDecode(corpus: seq<Facts>, sch0: Schema, minPair: nat, sch: Schema, i: nat,
      op: string, opId: nat,
                                               pairs: seq<set<Pair>>, pred: Prediction, threshold: real, scores: Scores)
    requires TrainingRow(corpus, sch0, minPair, sch, i, op) && AnchorKnown(sch, op) && Explained(corpus[i], sch, op)
    requires Labelled(corpus[i], sch, pairs) && Perfect(corpus[i], sch, op, pred, threshold)
    ensures var ex := Predicted(sch, opId, op, pred, threshold);
            Usable(sch, op, |corpus[i].lits|, ex) &&
              ParamsMatch(AllRebuilt(sch, op, corpus[i].lits, ex, scores), AllGold(corpus[i]))
  {
    hide Perfect, Learned, RowFits, Selected, KeptIds, FieldMarks, ParamsMatch, Rebuilt, GoldOf, Labelled, AnyClass;
    var f := corpus[i];
    SameShape(f, sch, op, pairs, pred, threshold);
    var ex := Predicted(sch, opId, op, pred, threshold);
    var gold := FinishedRow(f, sch, pairs, opId);
    forall li | 0 <= li < |pairs| ensures ex.pairs[li] == gold.pairs[li] {
      PairsRecovered(corpus, sch0, minPair, sch, i, op, pairs, pred, threshold, li);
    }
    assert ex.pairs == gold.pairs;
    FinishedCarries(f, sch, pairs, opId, op);
    forall k | 0 <= k < |f.fields| ensures Readable(f, sch, op, ex, k) {
      if HasClass(f, sch, k) {
        ClassRecovered(corpus, sch0, minPair, sch, i, op, pred, threshold, opId, k);
      } else if f.fields[k].gold.Num? {
        ChosenMarks(f, sch, k);
      }
    }
    ExplainedCovered(f, sch, op);
    CoveredRowMatches(f, sch, op, ex, scores);
  }

  lemma SameShape(f: Facts, sch: Schema, op: string, pairs: seq<set<Pair>>, pred: Prediction, threshold: real)
    requires Labelled(f, sch, pairs) && Perfect(f, sch, op, pred, threshold)
    ensures |pairs| == |f.lits| == |pred.pair| && Shaped(sch, |pred.pair|, pred)
  {
  }

  // ---- decoding a row

  /** The pair ids of one literal that the mask allows and the scores select, and their scores. */
  method SelectPairs(prob: seq<real>, mask: array2<bool>, row: nat, sch: Schema, op: string, threshold: real)
    returns (ids: seq<nat>, scores: map<nat, real>)
    requires Tabulates(mask, sch.ops, |sch.pairs|, sch.opPairs) && |prob| == |sch.pairs|
    requires row < |sch.ops| && sch.ops[row] == op && OpIndex(sch.ops, op) == row
    ensures ids == Selected(prob, sch, op, threshold, |sch.pairs|)
    ensures forall p: nat :: p in scores <==> p in ids
    ensures forall p: nat :: p in scores ==> p < |prob| && scores[p] == prob[p]
  {
    ids, scores := [], map[];
    for p := 0 to |sch.pairs|
      invariant ids == Selected(prob, sch, op, threshold, p)
      invariant forall q: nat :: q in scores <==> q in ids
      invariant forall q: nat :: q in scores ==> q < p && scores[q] == prob[q]
    {
      if prob[p] > threshold && mask[row, p] {
        ids := ids + [p];
        scores := scores[p := prob[p]];
      }
    }
  }

  /** Whether the operation's row of a class mask allows any class. */
  method AnyInRow(sch: Schema, name: string, mask: array2<bool>, row: nat, op: string) returns (some: bool)
    requires row < |sch.ops| && sch.ops[row] == op && OpIndex(sch.ops, op) == row && name in sch.convVocab
    requires name in sch.convOpMask
    requires Tabulates(mask, sch.ops, |sch.convVocab[name]|, sch.convOpMask[name])
    ensures some <==> AnyClass(sch, name, op)
  {
    hide OpIndex, InMask;
    assert forall i :: 0 <= i < |sch.convVocab[name]| ==> (mask[row, i] <==> InClassMask(sch, name, op, i));
    some := exists i :: 0 <= i < |sch.convVocab[name]| && mask[row, i];
  }

  /** For each field with a class head, the best class the operation allows, if it allows any. */
  method PickClasses(sch: Schema, conv: map<string, array2<bool>>, row: nat, op: string, pred: Prediction)
    returns (r: map<string, nat>)
    requires row < |sch.ops| && sch.ops[row] == op && OpIndex(sch.ops, op) == row && Shaped(sch, |pred.pair|, pred)
    requires conv.Keys == sch.convVocab.Keys
    requires forall name :: name in conv ==>
      name in sch.convOpMask && Tabulates(conv[name], sch.ops, |sch.convVocab[name]|, sch.convOpMask[name])
    ensures r == PredictedClasses(sch, op, pred)
  {
    hide OpIndex, InClassMask, ArgMax, Masked, Tabulates;
    r := map[];
    var todo := sch.convVocab.Keys;
    while todo != {}
      invariant todo <= sch.convVocab.Keys
      invariant forall name :: name in r <==> name in sch.convVocab && name !in todo && AnyClass(sch, name, op)
      invariant forall name :: name in r ==> r[name] == ArgMax(Masked(pred.conv[name], sch, name, op))
      decreases |todo|
    {
      var name :| name in todo;
      todo := todo - {name};
      var some := AnyInRow(sch, name, conv[name], row, op);
      if some {
        r := r[name := ArgMax(Masked(pred.conv[name], sch, name, op))];
      }
    }
  }

  /** The scores the decoder arbitrates with: each literal's selected pairs, with their probabilities. */
  ghost predicate SelectedScores(probs: seq<map<nat, real>>, pairs: seq<seq<nat>>, pred: Prediction) {
    && |probs| == |pairs| == |pred.pair|
    && forall li :: 0 <= li < |probs| ==> ScoresOf(probs[li], pairs[li], pred.pair[li])
  }

  ghost predicate ScoresOf(found: map<nat, real>, ids: seq<nat>, prob: seq<real>) {
    && (forall p: nat :: p in found <==> p in ids)
    && forall p: nat :: p in found ==> p < |prob| && found[p] == prob[p]
  }

  /** The pairs of every literal above the threshold, and their scores. */
  method SelectAll(sch: Schema, pairMask: array2<bool>, n: nat, pred: Prediction, opId: nat, op: string,
      threshold: real)
    returns (pairs: seq<seq<nat>>, probs: seq<map<nat, real>>)
    requires opId < |sch.ops| && sch.ops[opId] == op && OpIndex(sch.ops, op) == opId && op in sch.opFields
    requires Shaped(sch, n, pred)
    requires Tabulates(pairMask, sch.ops, |sch.pairs|, sch.opPairs)
    ensures pairs == PredictedPairs(sch, op, pred, threshold) && SelectedScores(probs, pairs, pred)
  {
    hide Selected, OpIndex;
    pairs, probs := [], [];
    for li := 0 to n
      invariant |pairs| == |probs| == li
      invariant forall j :: 0 <= j < li ==> ScoresOf(probs[j], pairs[j], pred.pair[j])
      invariant forall j :: 0 <= j < li ==> pairs[j] == Selected(pred.pair[j], sch, op, threshold, |sch.pairs|)
    {
      var ids, found := SelectPairs(pred.pair[li], pairMask, opId, sch, op, threshold);
      pairs, probs := pairs + [ids], probs + [found];
    }
  }

  /** One row's scores to parameters, under operation `opId`'s masks. */
  method DecodeRow(sch: Schema, masks: MaskTables, lits: seq<Lit>, pred: Prediction, opId: nat, threshold: real)
    returns (r: Option<map<string, Decoded>>, ghost scores: Scores)
    requires opId < |sch.ops| && Shaped(sch, |lits|, pred)
    requires Tabulates(masks.pair, sch.ops, |sch.pairs|, sch.opPairs) && masks.conv.Keys == sch.convVocab.Keys
    requires forall name :: name in masks.conv ==>
      name in sch.convOpMask && Tabulates(masks.conv[name], sch.ops, |sch.convVocab[name]|, sch.convOpMask[name])
    requires opId != 0 ==> OpIndex(sch.ops, sch.ops[opId]) == opId && Usable(sch, sch.ops[opId], |lits|,
      Predicted(sch, opId, sch.ops[opId], pred, threshold))
    ensures opId == 0 ==> r == None
    ensures opId != 0 ==> scores.Some?
    ensures opId != 0 ==>
      SelectedScores(scores.value, PredictedPairs(sch, sch.ops[opId], pred, threshold), pred)
    ensures opId != 0 ==>
      r == Some(AllRebuilt(sch, sch.ops[opId], lits, Predicted(sch, opId, sch.ops[opId], pred, threshold), scores))
  {
    scores := None;
    if opId == 0 {
      return None, None;
    }
    hide Selected, Usable, Rebuilt, PredictedClasses, OpIndex;
    var op := sch.ops[opId];
    var pairs, probs := SelectAll(sch, masks.pair, |lits|, pred, opId, op, threshold);
    var conv := PickClasses(sch, masks.conv, opId, op, pred);
    scores := Some(probs);
    r := Reconstruct(sch, Example(opId, pairs, conv), lits, Some(probs));
  }
}
