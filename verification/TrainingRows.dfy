/** From corpus to parameters: rows of the corpus a schema was built from come back whole,
    from their own labels and from perfect scores. */
module TrainingRows {
  import opened Corpus
  import opened Decimals
  import opened Decoding
  import opened FieldLearner
  import opened KeptLabels
  import opened Labels
  import opened Masks
  import opened Options
  import opened ProvisionalSchema
  import opened RowRoundTrip
  import opened SchemaBuilder

  /** Both passes over the corpus. */
  ghost predicate Built(corpus: seq<Facts>, minClass: nat, minPair: nat, shares: Shares, sch0: Schema, sch: Schema) {
    Provisional(corpus, minClass, shares, sch0) && Learned(corpus, sch0, minPair, sch)
  }

  /** Both passes run one after the other; only a field of two kinds makes them fail. */
  method BuildSchema(corpus: seq<Facts>, minClass: nat, minPair: nat, shares: Shares)
    returns (r: Option<Schema>, ghost sch0: Schema)
    requires forall i :: 0 <= i < |corpus| ==> DistinctNames(corpus[i])
    ensures r.Some? <==> KindsAgree(corpus)
    ensures r.Some? ==> Built(corpus, minClass, minPair, shares, sch0, r.value)
  {
    hide Provisional, Learned, KindsAgree, DistinctNames;
    var first := BuildProvisional(corpus, minClass, shares);
    match first {
      case None =>
        r := None;
        sch0 := Schema([], map[], map[], [], map[], map[], map[], map[], map[], map[], map[]);
      case Some(s) =>
        sch0 := s;
        var sch := LearnPairs(corpus, s, minPair);
        r := Some(sch);
    }
  }

  /** Keys of a gold object are distinct, and so are its schema names. */
  ghost predicate WellFormedRow(f: Facts) {
    DistinctNames(f) && |f.lits| <= NO_BOUND && forall j, k ::
      0 <= j < k < |f.fields| ==> f.fields[j].key != f.fields[k].key
  }

  /** A number that is labelled by its class has at most 60 digits. */
  ghost predicate ShortClasses(f: Facts, sch: Schema) {
    forall k :: 0 <= k < |f.fields| && HasClass(f, sch, k) && f.fields[k].gold.Num? ==>
      Ctx(Value(f.fields[k].gold.d)) == Value(f.fields[k].gold.d)
  }

  // ---- what the first pass gives its own rows

  lemma RowOccurs(corpus: seq<Facts>, i: nat, op: string, k: nat)
    requires i < |corpus| && corpus[i].op == Some(op) && k < |corpus[i].fields|
    ensures HasRow(corpus, op) && Occurs(corpus, op, corpus[i].fields[k].Name())
  {
    hide Fact.Name;
    assert NamesOf(corpus[i])[k] == corpus[i].fields[k].Name();
  }

  /** Every name the operation's rows have is a field with its one kind, well named if an array. */
  lemma FieldKnown(corpus: seq<Facts>, minClass: nat, minPair: nat, shares: Shares, sch0: Schema, sch: Schema, i: nat,
      op: string, k: nat)
    requires Built(corpus, minClass, minPair, shares, sch0, sch) && i < |corpus| && corpus[i].op == Some(op)
    requires k < |corpus[i].fields|
    ensures op in sch.opFields && corpus[i].fields[k].Name() in sch.opFields[op]
    ensures corpus[i].fields[k].Name() in sch.kind && sch.kind[corpus[i].fields[k].Name()] == corpus[i].fields[k].Kind()
  {
    hide Fact.Name, Fact.Kind, FieldsOf, HasRow, Occurs, ConventionOf, PairUses, OpUses, ClassUses, IsConvention;
    RowOccurs(corpus, i, op, k);
    FieldsExact(corpus, op, corpus[i].fields[k].Name());
    assert KindHolds(corpus[i].fields[k], sch.kind);
  }

  lemma ArrayName(fd: Fact)
    ensures fd.Kind().ArrKind? ==>
      |fd.Name()| >= 2 && fd.Name()[|fd.Name()| - 2..] == ARRAY_SUFFIX && fd.Name()[..|fd.Name()| - 2] == fd.key
    ensures !fd.Kind().ArrKind? ==> fd.Name() == fd.key
  {
  }

  /** A field of the schema is written under the key of the row's field of that name. */
  lemma KeyOfName(corpus: seq<Facts>, minClass: nat, minPair: nat, shares: Shares, sch0: Schema, sch: Schema, i: nat,
      op: string, k: nat)
    requires Built(corpus, minClass, minPair, shares, sch0, sch) && i < |corpus| && corpus[i].op == Some(op)
    requires k < |corpus[i].fields|
    ensures var n := corpus[i].fields[k].Name(); WellNamed(sch, n) && KeyOf(sch, n) == corpus[i].fields[k].key
  {
    hide Built, Fact.Name, Fact.Kind;
    FieldKnown(corpus, minClass, minPair, shares, sch0, sch, i, op, k);
    ArrayName(corpus[i].fields[k]);
  }

  lemma LearnedDistinct(corpus: seq<Facts>, minClass: nat, minPair: nat, shares: Shares, sch0: Schema, sch: Schema)
    requires Built(corpus, minClass, minPair, shares, sch0, sch)
    ensures Distinct(sch.pairs)
  {
    hide PairUses, OpUses, ClassUses, Provisional;
  }

  /** A row with all the operation's fields fits the schema built from its corpus. */
  lemma RowFitsItsSchema(corpus: seq<Facts>, minClass: nat, minPair: nat, shares: Shares, sch0: Schema, sch: Schema,
      i: nat, op: string)
    requires Built(corpus, minClass, minPair, shares, sch0, sch) && i < |corpus| && corpus[i].op == Some(op)
    requires op in sch.opFields
    requires WellFormedRow(corpus[i]) && SameFields(corpus[i], sch, op)
    ensures RowFits(corpus[i], sch, op)
  {
    hide Built, Fact.Name, Fact.Kind, KeyOf, Distinct;
    var f := corpus[i];
    LearnedDistinct(corpus, minClass, minPair, shares, sch0, sch);
    forall n | n in sch.opFields[op]
      ensures FieldNamed(f.fields, n) < |f.fields|
      ensures WellNamed(sch, n) && KeyOf(sch, n) == f.fields[FieldNamed(f.fields, n)].key
    {
      KeyOfName(corpus, minClass, minPair, shares, sch0, sch, i, op, FieldNamed(f.fields, n));
    }
    forall k | 0 <= k < |f.fields| ensures KindAgrees(f.fields[k], sch) {
      FieldKnown(corpus, minClass, minPair, shares, sch0, sch, i, op, k);
    }
    forall m, n | m in sch.opFields[op] && n in sch.opFields[op] && m != n ensures KeyOf(sch, m) != KeyOf(sch, n) {
      var j, k := FieldNamed(f.fields, m), FieldNamed(f.fields, n);
      assert f.fields[j].Name() == m && f.fields[k].Name() == n;
    }
  }

  /** Every field of a learned operation is a field of one of its rows. */
  lemma FieldWellNamed(corpus: seq<Facts>, minClass: nat, minPair: nat, shares: Shares, sch0: Schema, sch: Schema,
      op: string, n: string)
    requires Built(corpus, minClass, minPair, shares, sch0, sch) && op in sch.opFields && n in sch.opFields[op]
    ensures WellNamed(sch, n) && (!sch.kind[n].ArrKind? ==> KeyOf(sch, n) == n)
    ensures sch.kind[n].ArrKind? ==> n == KeyOf(sch, n) + ARRAY_SUFFIX
  {
    hide Fact.Name, Fact.Kind, FieldsOf, PairUses, OpUses, ClassUses, ConventionOf, IsConvention, MasksNamed;
    FieldsExact(corpus, op, n);
    var i :| 0 <= i < |corpus| && corpus[i].op == Some(op) && n in NamesOf(corpus[i]);
    var k :| 0 <= k < |corpus[i].fields| && corpus[i].fields[k].Name() == n;
    KeyOfName(corpus, minClass, minPair, shares, sch0, sch, i, op, k);
    KeySplits(sch, n);
  }

  lemma KeySplits(sch: Schema, n: string)
    requires WellNamed(sch, n)
    ensures if sch.kind[n].ArrKind? then n == KeyOf(sch, n) + ARRAY_SUFFIX else n == KeyOf(sch, n)
  {
  }

  /** No array of the operation is written under the name of one of its scalars. */
  ghost predicate KeysApart(sch: Schema, op: string)
    requires op in sch.opFields
  {
    forall m, n :: m in sch.opFields[op] && n in sch.opFields[op] && m in sch.kind && n in sch.kind ==>
      !(sch.kind[n].ArrKind? && !sch.kind[m].ArrKind? && n == m + ARRAY_SUFFIX)
  }

  lemma KeysDistinct(corpus: seq<Facts>, minClass: nat, minPair: nat, shares: Shares, sch0: Schema, sch: Schema,
      op: string, m: string, n: string)
    requires Built(corpus, minClass, minPair, shares, sch0, sch) && op in sch.opFields && KeysApart(sch, op)
    requires m in sch.opFields[op] && n in sch.opFields[op] && m != n
    ensures WellNamed(sch, m) && WellNamed(sch, n) && KeyOf(sch, m) != KeyOf(sch, n)
  {
    hide Built, KeyOf;
    FieldWellNamed(corpus, minClass, minPair, shares, sch0, sch, op, m);
    FieldWellNamed(corpus, minClass, minPair, shares, sch0, sch, op, n);
  }

  /** A row of the corpus, with all of its operation's fields or some, fits the schema exactly
      when the operation's keys are apart. */
  lemma AnyRowFits(corpus: seq<Facts>, minClass: nat, minPair: nat, shares: Shares, sch0: Schema, sch: Schema,
      i: nat, op: string)
    requires Built(corpus, minClass, minPair, shares, sch0, sch) && i < |corpus| && corpus[i].op == Some(op)
    requires op in sch.opFields && WellFormedRow(corpus[i])
    ensures RowFits(corpus[i], sch, op) <==> KeysApart(sch, op)
  {
    hide Built, Fact.Name, Fact.Kind, KeyOf, Distinct;
    var f := corpus[i];
    LearnedDistinct(corpus, minClass, minPair, shares, sch0, sch);
    forall n | n in sch.opFields[op] ensures WellNamed(sch, n) {
      FieldWellNamed(corpus, minClass, minPair, shares, sch0, sch, op, n);
    }
    forall k | 0 <= k < |f.fields| ensures KindAgrees(f.fields[k], sch) {
      FieldKnown(corpus, minClass, minPair, shares, sch0, sch, i, op, k);
    }
    if KeysApart(sch, op) {
      forall m, n | m in sch.opFields[op] && n in sch.opFields[op] && m != n ensures KeyOf(sch, m) != KeyOf(sch, n) {
        KeysDistinct(corpus, minClass, minPair, shares, sch0, sch, op, m, n);
      }
    } else {
      var m, n :| m in sch.opFields[op] && n in sch.opFields[op] && m in sch.kind && n in sch.kind &&
        sch.kind[n].ArrKind? && !sch.kind[m].ArrKind? && n == m + ARRAY_SUFFIX;
      SameKey(sch, m, n);
    }
  }

  lemma SameKey(sch: Schema, m: string, n: string)
    requires WellNamed(sch, m) && WellNamed(sch, n) && n == m + ARRAY_SUFFIX
    requires sch.kind[n].ArrKind? && !sch.kind[m].ArrKind?
    ensures m != n && KeyOf(sch, m) == KeyOf(sch, n)
  {
    assert |n| == |m| + 2;
  }

  /** Every operation with a mask has a row, so every mask has its place in the tables. */
  lemma BuiltMasksFit(corpus: seq<Facts>, minClass: nat, minPair: nat, shares: Shares, sch0: Schema, sch: Schema)
    requires Built(corpus, minClass, minPair, shares, sch0, sch)
    ensures MasksFit(sch)
  {
    hide KindsHold, FieldsOf, ConventionOf, IsConvention, AnchorHolds, Uses, ClassUses, PairUses, HasRow;
    assert sch.convVocab == sch0.convVocab && sch.ops == sch0.ops;
    forall op | op in sch.opPairs ensures op in sch.ops && forall i :: i in sch.opPairs[op] ==> i < |sch.pairs| {
      var p :| OpUses(corpus, sch0, op, p);
      UsedOp(corpus, sch0, op, p);
      assert forall i :: i in sch.opPairs[op] ==> InMask(sch.opPairs, op, i);
    }
    forall name | name in sch.convVocab
      ensures name in sch.convOpMask && MaskFits(sch.convOpMask[name], sch.ops, |sch.convVocab[name]|)
    {
      var masks := sch.convOpMask[name];
      forall op | op in masks ensures op in sch.ops && forall i :: i in masks[op] ==> i < |sch.convVocab[name]| {
        var c :| ClassUses(corpus, sch0, op, name, c) > 0;
        AnsweringOp(corpus, sch0, op, name, c);
        assert forall i :: i in masks[op] ==> InClassMask(sch, name, op, i);
      }
    }
  }

  lemma UsedOp(corpus: seq<Facts>, sch0: Schema, op: string, p: Pair)
    requires OpUses(corpus, sch0, op, p)
    ensures HasRow(corpus, op)
  {
    hide Uses;
  }

  lemma {:induction false} AnsweringOp(corpus: seq<Facts>, sch0: Schema, op: string, name: string, c: ClassText)
    requires ClassUses(corpus, sch0, op, name, c) > 0
    ensures HasRow(corpus, op)
    decreases |corpus|
  {
    hide Classed;
    var last := |corpus| - 1;
    if corpus[last].op != Some(op) {
      AnsweringOp(corpus[..last], sch0, op, name, c);
      var i :| 0 <= i < last && corpus[..last][i].op == Some(op);
      assert corpus[i].op == Some(op);
    }
  }

  /** A learned anchor is an array field of its operation. */
  lemma AnchorIsField(corpus: seq<Facts>, minClass: nat, minPair: nat, shares: Shares, sch0: Schema, sch: Schema,
      op: string)
    requires Built(corpus, minClass, minPair, shares, sch0, sch) && op in sch.opFields
    ensures AnchorKnown(sch, op)
  {
    hide PairUses, OpUses, ClassUses, KindsHold, FieldsOf, HasRow, ConventionOf, IsConvention, Distinct, FirstArrayOf;
    assert AnchorHolds(sch0, op);
    assert sch.opFields == sch0.opFields && sch.kind == sch0.kind && sch.anchor == sch0.anchor;
  }

  /** Every class label of a training row is a class of its field. */
  lemma ClassesKnown(corpus: seq<Facts>, minClass: nat, minPair: nat, shares: Shares, sch0: Schema, sch: Schema, i: nat)
    requires Built(corpus, minClass, minPair, shares, sch0, sch) && i < |corpus| && ShortClasses(corpus[i], sch)
    ensures ClassesHold(corpus[i], sch)
  {
    hide Fact.Name, PairUses, OpUses, ClassUses, KindsHold, FieldsOf, HasRow, TimesUnstated, ClassOf, Value, Ctx,
      AnchorHolds;
    var f := corpus[i];
    forall k | 0 <= k < |f.fields| && HasClass(f, sch, k)
      ensures IsConvention(sch, f.fields[k].Name(), ClassOf(f.fields[k].gold))
    {
      if f.fields[k].gold.Cat? {
        CategoryKnown(corpus, minClass, i, k);
        assert IsConvention(sch0, f.fields[k].Name(), ClassOf(f.fields[k].gold));
      }
    }
  }

  lemma CategoryKnown(corpus: seq<Facts>, minClass: nat, i: nat, k: nat)
    requires i < |corpus| && k < |corpus[i].fields| && corpus[i].fields[k].gold.Cat?
    ensures ConventionOf(corpus, minClass, corpus[i].fields[k].Name(), ClassOf(corpus[i].fields[k].gold))
  {
    hide Fact.Name, TimesUnstated, ClassOf;
    var n, c := corpus[i].fields[k].Name(), ClassOf(corpus[i].fields[k].gold);
    assert States(corpus[i], k, n, c);
    assert RowCategory(corpus[i], n, c);
    assert ProvisionalSchema.Category(corpus, n, c);
  }

  /** A row whose fields are listed exactly as the operation's has all of them, and its first
      array is the anchor. */
  lemma ListedRow(corpus: seq<Facts>, minClass: nat, minPair: nat, shares: Shares, sch0: Schema, sch: Schema, i: nat,
      op: string)
    requires Built(corpus, minClass, minPair, shares, sch0, sch) && i < |corpus| && corpus[i].op == Some(op)
    requires op in sch.opFields
    requires NamesOf(corpus[i]) == sch.opFields[op]
    ensures SameFields(corpus[i], sch, op) && AnchorFirst(corpus[i], sch, op) && AnchorPlaced(corpus[i], sch, op)
  {
    hide Fact.Name, Fact.Kind, PairUses, OpUses, ClassUses, KindsHold, FieldsOf, HasRow, ConventionOf, IsConvention,
      Distinct;
    var f := corpus[i];
    forall n | n in sch.opFields[op] ensures FieldNamed(f.fields, n) < |f.fields| {
      var k :| 0 <= k < |f.fields| && sch.opFields[op][k] == n;
      assert f.fields[k].Name() == n;
    }
    forall k | 0 <= k < |f.fields|
      ensures f.fields[k].Name() in sch.kind && (sch.kind[f.fields[k].Name()].ArrKind? <==> f.fields[k].gold.Arr?)
    {
      FieldKnown(corpus, minClass, minPair, shares, sch0, sch, i, op, k);
      KindIsArray(f.fields[k]);
    }
    assert AnchorHolds(sch0, op);
    assert sch.opFields == sch0.opFields && sch.kind == sch0.kind && sch.anchor == sch0.anchor;
    FirstArrayNamed(f.fields, sch.kind, sch.opFields[op]);
  }

  lemma KindIsArray(fd: Fact)
    ensures fd.Kind().ArrKind? <==> fd.gold.Arr?
  {
  }

  lemma {:induction false} FirstArrayNamed(fields: seq<Fact>, kind: map<string, Kind>, names: seq<string>)
    requires |names| == |fields| && forall k :: 0 <= k < |fields| ==> fields[k].Name() == names[k]
    requires forall k :: 0 <= k < |fields| ==> names[k] in kind && (kind[names[k]].ArrKind? <==> fields[k].gold.Arr?)
    ensures FirstArrayOf(kind, names) ==
      if FirstArray(fields) < |fields| then Some(fields[FirstArray(fields)].Name()) else None
    decreases |fields|
  {
    hide Fact.Name;
    if fields != [] && !fields[0].gold.Arr? {
      FirstArrayNamed(fields[1..], kind, names[1..]);
    }
  }

  // ---- the theorems

  /** Nothing of the row is unexplained, dropped or out of shape. */
  ghost predicate Complete(f: Facts, sch: Schema, op: string)
    requires op in sch.opFields
  {
    && SameFields(f, sch, op) && AnchorPlaced(f, sch, op)
    && NothingUnexplained(f, sch) && NothingDropped(f, sch) && ArraysFit(f, sch) && ShortClasses(f, sch)
  }

  lemma CompleteIsExplained(corpus: seq<Facts>, minClass: nat, minPair: nat, shares: Shares, sch0: Schema,
      sch: Schema, i: nat, op: string)
    requires Built(corpus, minClass, minPair, shares, sch0, sch) && i < |corpus| && corpus[i].op == Some(op)
    requires op in sch.opFields
    requires WellFormedRow(corpus[i]) && Complete(corpus[i], sch, op)
    ensures RowFits(corpus[i], sch, op) && AnchorKnown(sch, op) && Explained(corpus[i], sch, op)
  {
    hide Built, WellFormedRow, SameFields, AnchorPlaced, NothingUnexplained, NothingDropped, ArraysFit, ShortClasses,
      ClassesHold, RowFits;
    RowFitsItsSchema(corpus, minClass, minPair, shares, sch0, sch, i, op);
    ClassesKnown(corpus, minClass, minPair, shares, sch0, sch, i);
    AnchorIsField(corpus, minClass, minPair, shares, sch0, sch, op);
  }

  /** A complete row of the corpus is rebuilt from its own finished labels. */
  lemma TrainingRowComesBack(corpus: seq<Facts>, minClass: nat, minPair: nat, shares: Shares, sch0: Schema,
      sch: Schema, i: nat, op: string,
                             pairs: seq<set<Pair>>, opId: nat, scores: Scores)
    requires Built(corpus, minClass, minPair, shares, sch0, sch) && i < |corpus| && corpus[i].op == Some(op)
    requires op in sch.opFields
    requires WellFormedRow(corpus[i]) && Complete(corpus[i], sch, op) && Labelled(corpus[i], sch, pairs)
    ensures var ex := FinishedRow(corpus[i], sch, pairs, opId);
      Usable(sch, op, |corpus[i].lits|, ex) &&
        ParamsMatch(AllRebuilt(sch, op, corpus[i].lits, ex, scores), AllGold(corpus[i]))
  {
    hide Built, WellFormedRow, Complete, Labelled, RowFits, Explained, Usable, ParamsMatch, Rebuilt, FinishedRow;
    CompleteIsExplained(corpus, minClass, minPair, shares, sch0, sch, i, op);
    ExplainedRowMatches(corpus[i], sch, op, pairs, opId, scores);
  }

  /** Any row of the corpus whose operation keeps its keys apart comes back exactly when it
      is covered. */
  lemma TrainingRowIff(corpus: seq<Facts>, minClass: nat, minPair: nat, shares: Shares, sch0: Schema, sch: Schema,
      i: nat, op: string, pairs: seq<set<Pair>>, opId: nat, scores: Scores)
    requires Built(corpus, minClass, minPair, shares, sch0, sch) && i < |corpus| && corpus[i].op == Some(op)
    requires op in sch.opFields && WellFormedRow(corpus[i]) && KeysApart(sch, op) && Labelled(corpus[i], sch, pairs)
    ensures var f, ex := corpus[i], FinishedRow(corpus[i], sch, pairs, opId);
      && Usable(sch, op, |f.lits|, ex)
      && (ParamsMatch(AllRebuilt(sch, op, f.lits, ex, scores), AllGold(f)) <==> RowCovered(f, sch, op))
  {
    hide Built, WellFormedRow, Labelled, RowFits, KeysApart, Usable, ParamsMatch, Rebuilt, FinishedRow, RowCovered;
    AnyRowFits(corpus, minClass, minPair, shares, sch0, sch, i, op);
    AnchorIsField(corpus, minClass, minPair, shares, sch0, sch, op);
    RowIff(corpus[i], sch, op, pairs, opId, scores);
  }

  /** So is one decoded from perfect scores under the learned masks. */
  lemma TrainingRowDecodes(corpus: seq<Facts>, minClass: nat, minPair: nat, shares: Shares, sch0: Schema, sch: Schema,
      i: nat, op: string,
                           pairs: seq<set<Pair>>, opId: nat, pred: Prediction, threshold: real, scores: Scores)
    requires Built(corpus, minClass, minPair, shares, sch0, sch) && i < |corpus| && corpus[i].op == Some(op)
    requires op in sch.opFields
    requires WellFormedRow(corpus[i]) && Complete(corpus[i], sch, op) && Labelled(corpus[i], sch, pairs)
    requires Perfect(corpus[i], sch, op, pred, threshold)
    ensures var ex := Predicted(sch, opId, op, pred, threshold);
      Usable(sch, op, |corpus[i].lits|, ex) &&
        ParamsMatch(AllRebuilt(sch, op, corpus[i].lits, ex, scores), AllGold(corpus[i]))
  {
    hide WellFormedRow, Complete, Labelled, RowFits, Explained, Usable, ParamsMatch, Rebuilt, Predicted, Perfect,
      Learned, Provisional;
    CompleteIsExplained(corpus, minClass, minPair, shares, sch0, sch, i, op);
    PerfectScoresDecode(corpus, sch0, minPair, sch, i, op, opId, pairs, pred, threshold, scores);
  }
}
