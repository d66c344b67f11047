/** From corpus to parameters in one run: build the schema and its mask tables, then decode a row
    of the corpus from its scores. */
module TrainedDecoder {
  import opened Corpus
  import opened Decoder
  import opened Decoding
  import opened Labels
  import opened Masks
  import opened Options
  import opened ProvisionalSchema
  import opened RowRoundTrip
  import opened SchemaBuilder
  import opened TrainingRows

  // ---- every row has labels

  /** What literal `li` does for the row's fields. */
  ghost function LabelsAt(f: Facts, sch: Schema, li: nat): set<Pair> {
    set k: nat, m | k < |f.fields| && m in FieldMarks(f, sch, k) && m.lit == li :: Pair(f.fields[k].Name(), m.role)
  }

  ghost function LabelsOf(f: Facts, sch: Schema): seq<set<Pair>> {
    seq(|f.lits|, li requires 0 <= li < |f.lits| => LabelsAt(f, sch, li))
  }

  lemma LabelsExist(f: Facts, sch: Schema)
    requires DistinctNames(f)
    ensures Labelled(f, sch, LabelsOf(f, sch))
  {
    hide FieldMarks, Fact.Name;
    var pairs := LabelsOf(f, sch);
    forall slot, li, r | 0 <= li < |pairs|
      ensures Pair(slot, r) in pairs[li] <==> Mark(li, r) in MarksOf(f, sch, slot)
    {
      LabelAt(f, sch, slot, li, r);
    }
  }

  lemma LabelAt(f: Facts, sch: Schema, slot: string, li: nat, r: Role)
    requires DistinctNames(f)
    ensures Pair(slot, r) in LabelsAt(f, sch, li) <==> Mark(li, r) in MarksOf(f, sch, slot)
  {
    hide FieldMarks, Fact.Name;
    if Pair(slot, r) in LabelsAt(f, sch, li) {
      var k: nat, m :| k < |f.fields| && m in FieldMarks(f, sch, k) && m.lit == li &&
        Pair(slot, r) == Pair(f.fields[k].Name(), m.role);
      FieldNamedAt(f, k);
      assert m == Mark(li, r);
    }
    if Mark(li, r) in MarksOf(f, sch, slot) {
      var k := FieldNamed(f.fields, slot);
      assert Mark(li, r) in FieldMarks(f, sch, k) && Mark(li, r).lit == li;
    }
  }

  // ---- what a built schema offers the decoder

  /** Scores of the schema's shape decode under any of its operations. */
  lemma PredictedUsable(corpus: seq<Facts>, minClass: nat, minPair: nat, shares: Shares, sch0: Schema, sch: Schema,
      op: string, opId: nat, n: nat, pred: Prediction, threshold: real)
    requires Built(corpus, minClass, minPair, shares, sch0, sch) && op in sch.opFields && Shaped(sch, n, pred)
    ensures Usable(sch, op, n, Predicted(sch, opId, op, pred, threshold))
  {
    hide Built, Selected, Masked, ArgMax;
    forall name | name in sch.opFields[op]
      ensures name in sch.kind && (sch.kind[name].ArrKind? ==> |name| >= |ARRAY_SUFFIX|)
    {
      FieldWellNamed(corpus, minClass, minPair, shares, sch0, sch, op, name);
    }
  }

  /** An operation with rows has a place of its own, after that of no operation. */
  lemma OpPlace(corpus: seq<Facts>, minClass: nat, minPair: nat, shares: Shares, sch0: Schema, sch: Schema, i: nat)
    requires Built(corpus, minClass, minPair, shares, sch0, sch) && i < |corpus| && corpus[i].op.Some?
    ensures var op := corpus[i].op.value; op in sch.opFields && op in sch.ops && OpIndex(sch.ops, op) > 0
    ensures |sch.ops| > 0
  {
    hide KindsHold, ConventionOf, IsConvention, AnchorHolds, OpUses, ClassUses, PairUses, MasksNamed;
    var op := corpus[i].op.value;
    assert HasRow(corpus, op);
    assert op in sch.ops[1..];
    var j :| 0 <= j < |sch.ops| - 1 && sch.ops[1..][j] == op;
    LaterIndex(sch.ops, op, j + 1);
  }

  lemma {:induction false} LaterIndex(ops: seq<string>, op: string, j: nat)
    requires j < |ops| && ops[j] == op
    ensures OpIndex(ops, op) >= j
    decreases |ops|
  {
    if ops[|ops| - 1] != op {
      LaterIndex(ops[..|ops| - 1], op, j);
    }
  }

  // ---- the run

  /** Both passes over the corpus, the mask tables, and one of its rows decoded from the
      network's scores, which may be anything of the schema's shape. */
  method TrainAndDecode(corpus: seq<Facts>, minClass: nat, minPair: nat, shares: Shares, predict: Schema -> Prediction,
      i: nat, threshold: real)
    returns (r: Option<Schema>, params: Option<map<string, Decoded>>, ghost sch0: Schema, ghost scores: Scores)
    requires i < |corpus| && forall k :: 0 <= k < |corpus| ==> DistinctNames(corpus[k])
    requires forall sch :: Shaped(sch, |corpus[i].lits|, predict(sch))
    ensures r.Some? <==> KindsAgree(corpus)
    ensures r.Some? ==> Built(corpus, minClass, minPair, shares, sch0, r.value)
    ensures r.Some? && corpus[i].op.None? ==> params.None?
    ensures r.Some? && corpus[i].op.Some? ==> corpus[i].op.value in r.value.opFields
    ensures r.Some? && corpus[i].op.Some? ==>
      DecodedFrom(corpus[i], r.value, predict(r.value), threshold, params, scores)
    ensures r.Some? && corpus[i].op.Some? ==> ComesBack(corpus[i], r.value, predict(r.value), threshold, params)
  {
    hide Built, DistinctNames, KindsAgree, Shaped, Usable, ComesBack, MaskFits, Tabulates;
    params, scores := None, None;
    r, sch0 := BuildSchema(corpus, minClass, minPair, shares);
    if r.Some? {
      var sch, f := r.value, corpus[i];
      BuiltMasksFit(corpus, minClass, minPair, shares, sch0, sch);
      var masks := MakeMasks(sch);
      if f.op.Some? {
        OpPlace(corpus, minClass, minPair, shares, sch0, sch, i);
        var opId := OpIndex(sch.ops, f.op.value);
        PredictedUsable(corpus, minClass, minPair, shares, sch0, sch, f.op.value, opId, |f.lits|, predict(sch),
          threshold);
        params, scores := DecodeRow(sch, masks, f.lits, predict(sch), opId, threshold);
        RunComesBack(corpus, minClass, minPair, shares, sch0, sch, i, opId, predict(sch), threshold, scores);
      }
    }
  }

  /** The parameters are those of the predicted example, arbitrated by the selected pairs' own scores. */
  ghost predicate DecodedFrom(f: Facts, sch: Schema, pred: Prediction, threshold: real,
      params: Option<map<string, Decoded>>, scores: Scores)
    requires f.op.Some?
  {
    var op := f.op.value;
    && op in sch.ops && Shaped(sch, |f.lits|, pred) && scores.Some?
    && SelectedScores(scores.value, PredictedPairs(sch, op, pred, threshold), pred)
    && var ex := Predicted(sch, OpIndex(sch.ops, op), op, pred, threshold);
       Usable(sch, op, |f.lits|, ex) && params == Some(AllRebuilt(sch, op, f.lits, ex, scores))
  }

  /** Perfect scores of a complete row decode to parameters that match its gold. */
  ghost predicate ComesBack(f: Facts, sch: Schema, pred: Prediction, threshold: real,
      params: Option<map<string, Decoded>>)
    requires f.op.Some? && f.op.value in sch.opFields
  {
    WellFormedRow(f) && Complete(f, sch, f.op.value) && Perfect(f, sch, f.op.value, pred, threshold) ==>
      params.Some? && ParamsMatch(params.value, AllGold(f))
  }

  lemma RunComesBack(corpus: seq<Facts>, minClass: nat, minPair: nat, shares: Shares, sch0: Schema, sch: Schema, i: nat,
      opId: nat, pred: Prediction, threshold: real, scores: Scores)
    requires Built(corpus, minClass, minPair, shares, sch0, sch) && i < |corpus| && corpus[i].op.Some?
    requires corpus[i].op.value in sch.opFields && Shaped(sch, |corpus[i].lits|, pred) && DistinctNames(corpus[i])
    requires Usable(sch, corpus[i].op.value, |corpus[i].lits|,
      Predicted(sch, opId, corpus[i].op.value, pred, threshold))
    ensures var f, op := corpus[i], corpus[i].op.value;
      var ex := Predicted(sch, opId, op, pred, threshold);
      ComesBack(f, sch, pred, threshold, Some(AllRebuilt(sch, op, f.lits, ex, scores)))
  {
    hide Built, WellFormedRow, Complete, Perfect, Usable, ParamsMatch, Rebuilt, Predicted, Labelled, Shaped;
    var f, op := corpus[i], corpus[i].op.value;
    LabelsExist(f, sch);
    if WellFormedRow(f) && Complete(f, sch, op) && Perfect(f, sch, op, pred, threshold) {
      TrainingRowDecodes(corpus, minClass, minPair, shares, sch0, sch, i, op, LabelsOf(f, sch), opId, pred, threshold,
        scores);
    }
  }
}
