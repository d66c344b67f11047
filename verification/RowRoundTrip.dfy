/** Labels rebuild the gold: a row decodes to its parameters exactly when it is covered. */
module RowRoundTrip {
  import opened ArrayRoundTrip
  import opened Corpus
  import opened Decimals
  import opened Decoding
  import opened ForeignAnchor
  import opened KeptLabels
  import opened Labels
  import opened Options
  import opened ScalarRoundTrip
  import opened SiblingRoundTrip

  // ---- finished rows

  /** A class text as its index, when the field's vocabulary holds it. */
  function ClassIds(labels: map<string, ClassText>, sch: Schema): map<string, nat> {
    map n | n in labels && n in sch.convVocab && labels[n] in sch.convVocab[n] :: IndexOf(sch.convVocab[n], labels[n])
  }

  function FinishedRow(f: Facts, sch: Schema, pairs: seq<set<Pair>>, op: nat): Example {
    Example(op, Ids(pairs, sch.pairs), ClassIds(ClassLabels(f, sch, |f.fields|), sch))
  }

  // ---- when a row is covered

  /** What the schema answers for a field without a pointer. */
  function ClassAnswer(sch: Schema, op: string, name: string, pick: Option<ClassText>): Option<ClassText> {
    if pick.Some? && name in sch.convVocab && pick.value in sch.convVocab[name] then pick
    else if name in sch.constDefault then Some(sch.constDefault[name])
    else if op in sch.opDefault && name in sch.opDefault[op] then Some(sch.opDefault[op][name])
    else None
  }

  function LabelOf(f: Facts, sch: Schema, k: nat): Option<ClassText>
    requires k < |f.fields|
  {
    if HasClass(f, sch, k) then Some(ClassOf(f.fields[k].gold)) else None
  }

  /** The row's first array is the operation's anchor. */
  ghost predicate AnchorFirst(f: Facts, sch: Schema, op: string) {
    var a := FirstArray(f.fields);
    a < |f.fields| ==> op in sch.anchor && sch.anchor[op] == f.fields[a].Name()
  }

  /** The operation's anchor is another array of the row, aligned with the first one. */
  ghost predicate AnchorElsewhere(f: Facts, sch: Schema, op: string)
    requires AnchorRuns(f, sch).Some?
  {
    var first := f.fields[FirstArray(f.fields)].Name();
    op in sch.anchor &&
    var j := FieldNamed(f.fields, sch.anchor[op]);
    && j < |f.fields| && f.fields[j].gold.Arr?
    && Aligned(AnchorRuns(f, sch).value, first, f.fields[j].gold.els, sch.anchor[op], f.lits, sch)
  }

  /** The labelled first array is the anchor with every pair kept, or is empty, or is aligned
      with the anchor. */
  ghost predicate FirstCovered(f: Facts, sch: Schema, op: string)
    requires AnchorRuns(f, sch).Some?
  {
    var a := FirstArray(f.fields);
    if AnchorFirst(f, sch, op) then AllKept(FieldMarks(f, sch, a), f.fields[a].Name(), sch.pairs)
    else f.fields[a].gold.els == [] || AnchorElsewhere(f, sch, op)
  }

  /** A number is covered by pointers that were all kept, else by its class answer; a
      category by its class answer; an array by the first array and the anchor. */
  ghost predicate FieldCovered(f: Facts, sch: Schema, op: string, k: nat)
    requires k < |f.fields|
  {
    var name, ms := f.fields[k].Name(), FieldMarks(f, sch, k);
    var answer := OfClass(ClassAnswer(sch, op, name, LabelOf(f, sch, k)));
    match f.fields[k].gold
    case Num(_) => (ms != [] && AllKept(ms, name, sch.pairs)) || FieldMatches(answer, f.fields[k].gold)
    case Cat(_) => FieldMatches(answer, f.fields[k].gold)
    case Arr(els) =>
      && AnchorRuns(f, sch).Some?
      && if k == FirstArray(f.fields) then FirstCovered(f, sch, op)
         else SiblingCovered(els, AnchorRuns(f, sch).value, f.lits, name, sch)
  }

  /** Every gold entry is a covered field of the operation, and a field the gold leaves out
      is a scalar that nothing answers. */
  ghost predicate RowCovered(f: Facts, sch: Schema, op: string)
    requires op in sch.opFields
  {
    && (forall k :: 0 <= k < |f.fields| ==> f.fields[k].Name() in sch.opFields[op] && FieldCovered(f, sch, op, k))
    && (forall n :: n in sch.opFields[op] && FieldNamed(f.fields, n) == |f.fields| ==>
          n in sch.kind && !sch.kind[n].ArrKind? && ClassAnswer(sch, op, n, None).None?)
  }

  /** The row and the schema fit together: distinct names and keys, and agreeing kinds. */
  ghost predicate RowFits(f: Facts, sch: Schema, op: string) {
    && op in sch.opFields && Distinct(sch.pairs) && |f.lits| <= NO_BOUND
    && DistinctNames(f)
    && (forall j, k :: 0 <= j < k < |f.fields| ==> f.fields[j].key != f.fields[k].key)
    && (forall n :: n in sch.opFields[op] ==> WellNamed(sch, n))
    && (forall k :: 0 <= k < |f.fields| && f.fields[k].Name() in sch.opFields[op] ==> KindAgrees(f.fields[k], sch))
    && (forall m, n :: m in sch.opFields[op] && n in sch.opFields[op] && m != n ==> KeyOf(sch, m) != KeyOf(sch, n))
  }

  ghost predicate KindAgrees(fd: Fact, sch: Schema) {
    fd.Name() in sch.kind && sch.kind[fd.Name()] == fd.Kind()
  }

  /** An operation's anchor is one of its array fields. */
  ghost predicate AnchorKnown(sch: Schema, op: string)
    requires op in sch.opFields
  {
    op in sch.anchor ==>
      sch.anchor[op] in sch.opFields[op] && sch.anchor[op] in sch.kind && sch.kind[sch.anchor[op]].ArrKind?
  }

  ghost predicate WellNamed(sch: Schema, n: string) {
    n in sch.kind && (sch.kind[n].ArrKind? ==> |n| >= 2 && n[|n| - 2..] == ARRAY_SUFFIX)
  }

  // ---- what the decoder starts from

  function PickOf(f: Facts, sch: Schema, name: string): Option<ClassText> {
    var k := FieldNamed(f.fields, name);
    if k < |f.fields| then LabelOf(f, sch, k) else None
  }

  /** What an example must carry for the row: its marks that the vocabulary kept. */
  ghost predicate Carries(f: Facts, sch: Schema, op: string, ex: Example) {
    && Usable(sch, op, |f.lits|, ex)
    && forall slot :: MarksFor(sch, ex, slot) == InVocab(MarksOf(f, sch, slot), slot, sch.pairs)
  }

  /** For one field: the class picks answer what the schema answers. */
  ghost predicate Answers(f: Facts, sch: Schema, op: string, ex: Example, name: string) {
    && (name in ex.conv && name in sch.convVocab ==> ex.conv[name] < |sch.convVocab[name]|)
    && ClassValue(sch, op, name, ex.conv) == ClassAnswer(sch, op, name, PickOf(f, sch, name))
  }

  lemma {:induction false} FieldMarksInOrder(f: Facts, sch: Schema, k: nat)
    requires DistinctNames(f) && k < |f.fields|
    ensures InOrder(FieldMarks(f, sch, k), |f.lits|)
  {
    hide BothPasses, Conventions, Runs, HitsFrom, CandMarks, HitMarks, Sound;
    if f.fields[k].gold.Num? {
      var c := NumberMarks(f, sch, k);
      if FieldMarks(f, sch, k) != [] {
        CandDecodes(f.fields[k].gold.d, c, f.lits, "", [], None);
      }
    } else if f.fields[k].gold.Arr? && ArrayMarks(f, sch, k).Some? && k != FirstArray(f.fields) {
      var els, runs := f.fields[k].gold.els, AnchorRuns(f, sch).value;
      HitsInside(els, runs, 0, |els| == |runs|, f.lits, f.fields[k].Name(), sch);
    }
  }

  lemma {:induction false} FieldNamedAt(f: Facts, k: nat)
    requires DistinctNames(f) && k < |f.fields|
    ensures FieldNamed(f.fields, f.fields[k].Name()) == k
  {
  }

  /** The decoder has what field `k` needs: its class answer, or all of its pointers. */
  ghost predicate Readable(f: Facts, sch: Schema, op: string, ex: Example, k: nat)
    requires k < |f.fields|
  {
    || Answers(f, sch, op, ex, f.fields[k].Name())
    || f.fields[k].gold.Arr?
    || (f.fields[k].gold.Num? && FieldMarks(f, sch, k) != [] &&
      AllKept(FieldMarks(f, sch, k), f.fields[k].Name(), sch.pairs))
  }

  lemma {:induction false} ClassLabelsAt(f: Facts, sch: Schema, n: nat, name: string)
    requires DistinctNames(f) && n <= |f.fields|
    ensures var k := FieldNamed(f.fields, name);
            && (name in ClassLabels(f, sch, n) <==> k < n && HasClass(f, sch, k))
            && (name in ClassLabels(f, sch, n) ==> ClassLabels(f, sch, n)[name] == ClassOf(f.fields[k].gold))
    decreases n
  {
    hide HasClass, ClassOf;
    if n > 0 {
      ClassLabelsAt(f, sch, n - 1, name);
      FieldNamedAt(f, n - 1);
    }
  }

  /** The finished example carries the row and answers every field. */
  lemma {:induction false} FinishedCarries(f: Facts, sch: Schema, pairs: seq<set<Pair>>, opId: nat, op: string)
    requires RowFits(f, sch, op) && Labelled(f, sch, pairs)
    ensures Carries(f, sch, op, FinishedRow(f, sch, pairs, opId))
    ensures forall name :: Answers(f, sch, op, FinishedRow(f, sch, pairs, opId), name)
  {
    hide FieldMarks, HasClass, ClassOf, InVocab, SlotMarks;
    var ex := FinishedRow(f, sch, pairs, opId);
    forall slot ensures MarksFor(sch, ex, slot) == InVocab(MarksOf(f, sch, slot), slot, sch.pairs) {
      var k := FieldNamed(f.fields, slot);
      if k < |f.fields| {
        FieldMarksInOrder(f, sch, k);
      }
      FinishedMarks(pairs, sch.pairs, slot, MarksOf(f, sch, slot));
    }
    forall name ensures Answers(f, sch, op, ex, name) {
      ClassLabelsAt(f, sch, |f.fields|, name);
    }
    forall name | name in sch.opFields[op]
      ensures name in sch.kind && (sch.kind[name].ArrKind? ==> |name| >= |ARRAY_SUFFIX|)
    {
      assert WellNamed(sch, name);
    }
  }

  // ---- one field

  lemma {:induction false} NumberIff(f: Facts, sch: Schema, op: string, ex: Example, scores: Scores, k: nat)
    requires RowFits(f, sch, op) && Carries(f, sch, op, ex) && k < |f.fields| && f.fields[k].gold.Num?
    requires f.fields[k].Name() in sch.opFields[op]
    requires Readable(f, sch, op, ex, k)
    ensures FieldMatches(DecodeField(sch, op, f.lits, ex, scores, f.fields[k].Name()), f.fields[k].gold) <==>
      FieldCovered(f, sch, op, k)
  {
    hide FieldMarks, CandMarks, ScalarFromMarks, NumEq, HasClass, SlotMarks, InVocab, AllKept, Sound;
    var name, v := f.fields[k].Name(), f.fields[k].gold.d;
    FieldNamedAt(f, k);
    SlotMarksInRange(ex.pairs, |ex.pairs|, name, sch.pairs);
    var c := NumberMarks(f, sch, k);
    if FieldMarks(f, sch, k) != [] {
      CandDecodes(v, c, f.lits, name, sch.pairs, scores);
    } else {
      NoKept(name, sch.pairs);
      NoMarks(f.lits, name, sch.pairs, scores);
    }
  }

  lemma NoKept(slot: string, vocab: seq<Pair>)
    ensures InVocab([], slot, vocab) == []
  {
  }

  lemma {:induction false} CategoryIff(f: Facts, sch: Schema, op: string, ex: Example, scores: Scores, k: nat)
    requires RowFits(f, sch, op) && Carries(f, sch, op, ex) && k < |f.fields| && f.fields[k].gold.Cat?
    requires f.fields[k].Name() in sch.opFields[op] && Readable(f, sch, op, ex, k)
    ensures FieldMatches(DecodeField(sch, op, f.lits, ex, scores, f.fields[k].Name()), f.fields[k].gold) <==>
      FieldCovered(f, sch, op, k)
  {
    hide ScalarFromMarks, SlotMarks, InVocab, HasClass;
    var name := f.fields[k].Name();
    FieldNamedAt(f, k);
    SlotMarksInRange(ex.pairs, |ex.pairs|, name, sch.pairs);
    NoKept(name, sch.pairs);
    NoMarks(f.lits, name, sch.pairs, scores);
  }

  /** What the decoder reads the first array against when it is not the anchor. */
  lemma {:induction false} OtherAnchor(f: Facts, sch: Schema, op: string, ex: Example)
    requires RowFits(f, sch, op) && AnchorKnown(sch, op) && Carries(f, sch, op, ex)
    requires op in sch.anchor && !AnchorFirst(f, sch, op)
    ensures var j := FieldNamed(f.fields, sch.anchor[op]);
      if j == |f.fields| || AnchorRuns(f, sch).None? then MarksFor(sch, ex, sch.anchor[op]) == []
      else
        && f.fields[j].gold.Arr? && j != FirstArray(f.fields)
        && MarksFor(sch, ex, sch.anchor[op]) ==
          KeptHits(f.fields[j].gold.els, AnchorRuns(f, sch).value, f.lits, sch.anchor[op], sch)
  {
    hide MarksFor, InVocab, AnchorRuns, SiblingHits, HitMarks, Distinct;
    NoKept(sch.anchor[op], sch.pairs);
    var j := FieldNamed(f.fields, sch.anchor[op]);
    if j < |f.fields| {
      assert KindAgrees(f.fields[j], sch);
    }
  }

  /** Under a covered first array the decoder's groups are the labeller's runs. */
  lemma {:induction false} GroupsSeen(f: Facts, sch: Schema, op: string, ex: Example)
    requires RowFits(f, sch, op) && AnchorKnown(sch, op) && Carries(f, sch, op, ex)
    requires AnchorRuns(f, sch).Some? && FirstCovered(f, sch, op)
    ensures (if op in sch.anchor then Groups(MarksFor(sch, ex, sch.anchor[op])) else []) ==
      GroupsOf(AnchorRuns(f, sch).value)
  {
    hide MarksFor, InVocab, Runs, SiblingHits, KeptHits, KeptRuns, RunMarks, Groups, GroupsOf, Aligned, AllKept,
      WellNamed, KeyOf, Distinct, SiblingValues, AnchorValues, Reproduces;
    var a := FirstArray(f.fields);
    var name, els, runs := f.fields[a].Name(), f.fields[a].gold.els, AnchorRuns(f, sch).value;
    FieldNamedAt(f, a);
    if AnchorFirst(f, sch, op) {
      AllOrFewer(RunMarks(runs), name, sch.pairs);
      RunsGroups(runs, |f.lits|);
    } else {
      if op in sch.anchor {
        OtherAnchor(f, sch, op, ex);
      }
      if els == [] {
        EmptyRuns(f.lits, name, sch);
        EmptyFirst(els, name, f.lits, sch);
        if op in sch.anchor && FieldNamed(f.fields, sch.anchor[op]) < |f.fields| {
          EmptyFirst(f.fields[FieldNamed(f.fields, sch.anchor[op])].gold.els, sch.anchor[op], f.lits, sch);
        }
      } else {
        WhenAligned(els, name, f.fields[FieldNamed(f.fields, sch.anchor[op])].gold.els, sch.anchor[op], f.lits, sch);
      }
    }
  }

  lemma EmptyRuns(lits: seq<Lit>, slot: string, sch: Schema)
    ensures Runs([], lits, slot, sch) == Some([])
  {
  }

  /** The first array when the anchor is another field, or no field at all. */
  lemma {:induction false} FirstFieldIff(f: Facts, sch: Schema, op: string, ex: Example, scores: Scores)
    requires RowFits(f, sch, op) && AnchorKnown(sch, op) && Carries(f, sch, op, ex) && FirstArray(f.fields) < |f.fields|
    requires f.fields[FirstArray(f.fields)].Name() in sch.opFields[op] && !AnchorFirst(f, sch, op)
    ensures var k := FirstArray(f.fields);
            FieldMatches(DecodeField(sch, op, f.lits, ex, scores, f.fields[k].Name()), f.fields[k].gold) <==>
              FieldCovered(f, sch, op, k)
  {
    hide AnchorValues, Runs, SlotMarks, InVocab, Reproduces, AllKept, RunMarks, KeptHits, Aligned, Groups,
      SiblingHits, HitMarks, WellNamed, KeyOf, Distinct;
    var k := FirstArray(f.fields);
    var name, els := f.fields[k].Name(), f.fields[k].gold.els;
    assert KindAgrees(f.fields[k], sch);
    FieldNamedAt(f, k);
    SlotMarksInRange(ex.pairs, |ex.pairs|, name, sch.pairs);
    EmptyFirst(els, name, f.lits, sch);
    if op in sch.anchor {
      OtherAnchor(f, sch, op, ex);
    }
    if AnchorRuns(f, sch).None? {
      UnexplainedAnchor(els, f.lits, name, sch);
    } else if els == [] {
      GroupsSeen(f, sch, op, ex);
      EmptyRuns(f.lits, name, sch);
    } else if op in sch.anchor && FieldNamed(f.fields, sch.anchor[op]) < |f.fields| {
      FirstIff(els, name, f.fields[FieldNamed(f.fields, sch.anchor[op])].gold.els, sch.anchor[op], f.lits, sch);
    }
  }

  lemma {:induction false} AnchorFieldIff(f: Facts, sch: Schema, op: string, ex: Example, scores: Scores)
    requires RowFits(f, sch, op) && Carries(f, sch, op, ex) && FirstArray(f.fields) < |f.fields|
    requires AnchorFirst(f, sch, op)
    requires f.fields[FirstArray(f.fields)].Name() in sch.opFields[op]
    ensures var k := FirstArray(f.fields);
            FieldMatches(DecodeField(sch, op, f.lits, ex, scores, f.fields[k].Name()), f.fields[k].gold) <==>
              FieldCovered(f, sch, op, k)
  {
    hide AnchorValues, Runs, SlotMarks, InVocab, Reproduces, AllKept, RunMarks;
    var k := FirstArray(f.fields);
    var name, els := f.fields[k].Name(), f.fields[k].gold.els;
    assert KindAgrees(f.fields[k], sch);
    FieldNamedAt(f, k);
    SlotMarksInRange(ex.pairs, |ex.pairs|, name, sch.pairs);
    if AnchorRuns(f, sch).Some? {
      AnchorIff(els, f.lits, name, sch);
    } else {
      UnexplainedAnchor(els, f.lits, name, sch);
      NoKept(name, sch.pairs);
      NoAnchor(f.lits);
    }
  }

  lemma NoAnchor(lits: seq<Lit>)
    ensures AnchorValues([], lits) == Some([])
  {
  }

  /** An array that is neither the first one nor the anchor. */
  lemma {:induction false} SiblingFieldIff(f: Facts, sch: Schema, op: string, ex: Example, scores: Scores, k: nat)
    requires RowFits(f, sch, op) && AnchorKnown(sch, op) && Carries(f, sch, op, ex)
    requires k < |f.fields| && f.fields[k].gold.Arr? && k != FirstArray(f.fields)
    requires f.fields[k].Name() in sch.opFields[op] && AnchorRuns(f, sch).Some? && FirstCovered(f, sch, op)
    requires op in sch.anchor ==> sch.anchor[op] != f.fields[k].Name()
    ensures FieldMatches(DecodeField(sch, op, f.lits, ex, scores, f.fields[k].Name()), f.fields[k].gold) <==>
      FieldCovered(f, sch, op, k)
  {
    hide AnchorValues, Runs, SlotMarks, InVocab, Reproduces, AllKept, RunMarks, Groups, GroupsOf, SiblingValues,
      HitsFrom, HitMarks, GroupsTrail, FirstCovered, Aligned;
    var name := f.fields[k].Name();
    var runs := AnchorRuns(f, sch).value;
    assert KindAgrees(f.fields[k], sch);
    FieldNamedAt(f, k);
    SlotMarksInRange(ex.pairs, |ex.pairs|, name, sch.pairs);
    GroupsSeen(f, sch, op, ex);
    SiblingIff(f.fields[k].gold.els, runs, f.lits, name, sch);
  }

  /** The anchor when it is not the first array. */
  lemma {:induction false} LaterAnchorIff(f: Facts, sch: Schema, op: string, ex: Example, scores: Scores, k: nat)
    requires RowFits(f, sch, op) && AnchorKnown(sch, op) && Carries(f, sch, op, ex)
    requires k < |f.fields| && f.fields[k].gold.Arr? && k != FirstArray(f.fields)
    requires f.fields[k].Name() in sch.opFields[op] && AnchorRuns(f, sch).Some? && FirstCovered(f, sch, op)
    requires op in sch.anchor && sch.anchor[op] == f.fields[k].Name()
    ensures FieldMatches(DecodeField(sch, op, f.lits, ex, scores, f.fields[k].Name()), f.fields[k].gold) <==>
      FieldCovered(f, sch, op, k)
  {
    hide AnchorValues, Runs, SlotMarks, InVocab, Reproduces, AllKept, RunMarks, KeptRuns, KeptHits, SiblingValues,
      SiblingHits, HitMarks, SiblingCovered, Aligned, Groups, GroupsOf;
    var a := FirstArray(f.fields);
    var name, els := f.fields[k].Name(), f.fields[k].gold.els;
    assert KindAgrees(f.fields[k], sch);
    FieldNamedAt(f, k);
    FieldNamedAt(f, a);
    SlotMarksInRange(ex.pairs, |ex.pairs|, name, sch.pairs);
    assert !AnchorFirst(f, sch, op);
    OtherAnchor(f, sch, op, ex);
    if f.fields[a].gold.els == [] {
      EmptyRuns(f.lits, f.fields[a].Name(), sch);
      EmptyFirst(els, name, f.lits, sch);
    } else {
      WhenAligned(f.fields[a].gold.els, f.fields[a].Name(), els, name, f.lits, sch);
    }
  }

  // ---- keys

  /** A field's values, by name; the last field written under a key is what the key holds. */
  lemma {:induction false} RebuiltAt(sch: Schema, op: string, lits: seq<Lit>, ex: Example, scores: Scores, n: nat,
      key: string)
    requires Usable(sch, op, |lits|, ex) && n <= |sch.opFields[op]|
    requires forall a, b :: a in sch.opFields[op] && b in sch.opFields[op] && a != b ==> KeyOf(sch, a) != KeyOf(sch, b)
    ensures key in Rebuilt(sch, op, lits, ex, scores, n) <==> exists j ::
      0 <= j < n && KeyOf(sch, sch.opFields[op][j]) == key
    ensures forall j :: 0 <= j < n && KeyOf(sch, sch.opFields[op][j]) == key ==>
              key in Rebuilt(sch, op, lits, ex, scores, n) &&
              Rebuilt(sch, op, lits, ex, scores, n)[key] == DecodeField(sch, op, lits, ex, scores, sch.opFields[op][j])
    decreases n
  {
    hide DecodeField, KeyOf;
    if n > 0 {
      RebuiltAt(sch, op, lits, ex, scores, n - 1, key);
      var last := sch.opFields[op][n - 1];
      forall j | 0 <= j < n - 1 && KeyOf(sch, sch.opFields[op][j]) == KeyOf(sch, last)
        ensures sch.opFields[op][j] == last
      {
        assert sch.opFields[op][j] in sch.opFields[op];
      }
    }
  }

  lemma {:induction false} GoldAt(fields: seq<Fact>, n: nat, key: string)
    requires n <= |fields|
    requires forall j, k :: 0 <= j < k < |fields| ==> fields[j].key != fields[k].key
    ensures key in GoldOf(fields, n) <==> exists k :: 0 <= k < n && fields[k].key == key
    ensures forall k ::
      0 <= k < n && fields[k].key == key ==> key in GoldOf(fields, n) && GoldOf(fields, n)[key] == fields[k].gold
    decreases n
  {
    if n > 0 {
      GoldAt(fields, n - 1, key);
    }
  }

  function AllRebuilt(sch: Schema, op: string, lits: seq<Lit>, ex: Example, scores: Scores): map<string, Decoded>
    requires Usable(sch, op, |lits|, ex)
  {
    Rebuilt(sch, op, lits, ex, scores, |sch.opFields[op]|)
  }

  function AllGold(f: Facts): map<string, Gold> {
    GoldOf(f.fields, |f.fields|)
  }

  lemma {:induction false} KeyOfField(f: Facts, sch: Schema, op: string, k: nat)
    requires RowFits(f, sch, op) && k < |f.fields| && f.fields[k].Name() in sch.opFields[op]
    ensures KeyOf(sch, f.fields[k].Name()) == f.fields[k].key
  {
    assert WellNamed(sch, f.fields[k].Name());
  }

  /** A field of the operation is compared with the gold under its own key. */
  lemma {:induction false} OwnKey(f: Facts, sch: Schema, op: string, ex: Example, scores: Scores, k: nat)
    requires RowFits(f, sch, op) && Usable(sch, op, |f.lits|, ex) && k < |f.fields|
    requires f.fields[k].Name() in sch.opFields[op]
    ensures KeyMatches(AllRebuilt(sch, op, f.lits, ex, scores), AllGold(f), f.fields[k].key) <==>
            FieldMatches(DecodeField(sch, op, f.lits, ex, scores, f.fields[k].Name()), f.fields[k].gold)
  {
    hide DecodeField, FieldMatches, GoldOf, Rebuilt, KeyOf;
    KeyOfField(f, sch, op, k);
    RebuiltAt(sch, op, f.lits, ex, scores, |sch.opFields[op]|, f.fields[k].key);
    GoldAt(f.fields, |f.fields|, f.fields[k].key);
    var j :| 0 <= j < |sch.opFields[op]| && sch.opFields[op][j] == f.fields[k].Name();
  }

  /** A gold entry that is not a field of the operation is never reproduced. */
  lemma {:induction false} ForeignKey(f: Facts, sch: Schema, op: string, ex: Example, scores: Scores, k: nat)
    requires RowFits(f, sch, op) && Usable(sch, op, |f.lits|, ex) && k < |f.fields|
    requires f.fields[k].Name() !in sch.opFields[op]
    ensures !KeyMatches(AllRebuilt(sch, op, f.lits, ex, scores), AllGold(f), f.fields[k].key)
  {
    hide GoldOf, Rebuilt, DecodeField, KeyOf, FieldMatches;
    var key := f.fields[k].key;
    RebuiltAt(sch, op, f.lits, ex, scores, |sch.opFields[op]|, key);
    GoldAt(f.fields, |f.fields|, key);
    if key in AllRebuilt(sch, op, f.lits, ex, scores) {
      var j :| 0 <= j < |sch.opFields[op]| && KeyOf(sch, sch.opFields[op][j]) == key;
      var n := sch.opFields[op][j];
      assert WellNamed(sch, n);
      OtherShape(f.fields[k], sch, n);
      ShapeDiffers(sch, op, f.lits, ex, scores, n, f.fields[k].gold);
    }
  }

  /** Two names under one key differ in being an array. */
  lemma OtherShape(fd: Fact, sch: Schema, n: string)
    requires WellNamed(sch, n) && KeyOf(sch, n) == fd.key && fd.Name() != n
    ensures sch.kind[n].ArrKind? <==> !fd.gold.Arr?
  {
    if sch.kind[n].ArrKind? {
      assert n == fd.key + ARRAY_SUFFIX;
    }
  }

  lemma ShapeDiffers(sch: Schema, op: string, lits: seq<Lit>, ex: Example, scores: Scores, n: string, g: Gold)
    requires Usable(sch, op, |lits|, ex) && n in sch.opFields[op] && (sch.kind[n].ArrKind? <==> !g.Arr?)
    ensures !FieldMatches(DecodeField(sch, op, lits, ex, scores, n), g)
  {
    hide ScalarFromMarks, AnchorValues, SiblingValues, Reproduces, NumEq, ClassValue, SlotMarks, Groups;
    SlotMarksInRange(ex.pairs, |ex.pairs|, n, sch.pairs);
  }

  /** A field the gold leaves out: nothing may be claimed for it. */
  lemma {:induction false} AbsentKey(f: Facts, sch: Schema, op: string, ex: Example, scores: Scores, n: string)
    requires RowFits(f, sch, op) && Carries(f, sch, op, ex) && n in sch.opFields[op]
    requires FieldNamed(f.fields, n) == |f.fields|
    requires Answers(f, sch, op, ex, n)
    requires forall k :: 0 <= k < |f.fields| ==> f.fields[k].Name() in sch.opFields[op]
    ensures KeyMatches(AllRebuilt(sch, op, f.lits, ex, scores), AllGold(f), KeyOf(sch, n)) <==>
            !sch.kind[n].ArrKind? && ClassAnswer(sch, op, n, None).None?
    ensures KeyOf(sch, n) !in AllGold(f)
  {
    hide GoldOf, Rebuilt, ScalarFromMarks, AnchorValues, SiblingValues, SlotMarks, InVocab, Groups;
    var key := KeyOf(sch, n);
    RebuiltAt(sch, op, f.lits, ex, scores, |sch.opFields[op]|, key);
    GoldAt(f.fields, |f.fields|, key);
    forall k | 0 <= k < |f.fields| ensures f.fields[k].key != key {
      KeyOfField(f, sch, op, k);
      assert f.fields[k].Name() != n;
    }
    var j :| 0 <= j < |sch.opFields[op]| && sch.opFields[op][j] == n;
    SlotMarksInRange(ex.pairs, |ex.pairs|, n, sch.pairs);
    NoKept(n, sch.pairs);
    NoMarks(f.lits, n, sch.pairs, scores);
    NoAnchor(f.lits);
  }

  // ---- the row

  /** Field `k` decodes to its gold exactly when it is covered, once the first array is. */
  lemma {:induction false} FieldIff(f: Facts, sch: Schema, op: string, ex: Example, scores: Scores, k: nat)
    requires RowFits(f, sch, op) && AnchorKnown(sch, op) && Carries(f, sch, op, ex)
    requires k < |f.fields| && f.fields[k].Name() in sch.opFields[op]
    requires Readable(f, sch, op, ex, k)
    requires f.fields[k].gold.Arr? && k != FirstArray(f.fields) ==> FieldCovered(f, sch, op, FirstArray(f.fields))
    ensures KeyMatches(AllRebuilt(sch, op, f.lits, ex, scores), AllGold(f), f.fields[k].key) <==>
      FieldCovered(f, sch, op, k)
  {
    hide FieldCovered, KeyMatches, DecodeField, FieldMatches, Rebuilt, GoldOf, Readable;
    OwnKey(f, sch, op, ex, scores, k);
    match f.fields[k].gold
    case Num(_) => NumberIff(f, sch, op, ex, scores, k);
    case Cat(_) => CategoryIff(f, sch, op, ex, scores, k);
    case Arr(_) => ArrayIff(f, sch, op, ex, scores, k);
  }

  lemma {:induction false} ArrayIff(f: Facts, sch: Schema, op: string, ex: Example, scores: Scores, k: nat)
    requires RowFits(f, sch, op) && AnchorKnown(sch, op) && Carries(f, sch, op, ex)
    requires k < |f.fields| && f.fields[k].gold.Arr? && f.fields[k].Name() in sch.opFields[op]
    requires k != FirstArray(f.fields) ==> FieldCovered(f, sch, op, FirstArray(f.fields))
    ensures FieldMatches(DecodeField(sch, op, f.lits, ex, scores, f.fields[k].Name()), f.fields[k].gold) <==>
      FieldCovered(f, sch, op, k)
  {
    hide DecodeField, FieldMatches, AnchorRuns, FirstCovered, SiblingCovered;
    if k == FirstArray(f.fields) {
      if AnchorFirst(f, sch, op) {
        AnchorFieldIff(f, sch, op, ex, scores);
      } else {
        FirstFieldIff(f, sch, op, ex, scores);
      }
    } else if op in sch.anchor && sch.anchor[op] == f.fields[k].Name() {
      LaterAnchorIff(f, sch, op, ex, scores, k);
    } else {
      SiblingFieldIff(f, sch, op, ex, scores, k);
    }
  }

  /** A row that comes back whole is covered. */
  lemma {:induction false} MatchedRowCovered(f: Facts, sch: Schema, op: string, ex: Example, scores: Scores)
    requires RowFits(f, sch, op) && AnchorKnown(sch, op) && Carries(f, sch, op, ex) && forall n ::
      Answers(f, sch, op, ex, n)
    requires ParamsMatch(AllRebuilt(sch, op, f.lits, ex, scores), AllGold(f))
    ensures RowCovered(f, sch, op)
  {
    hide FieldCovered, KeyMatches, Rebuilt, GoldOf, MarksFor, Answers;
    var pred, gold := AllRebuilt(sch, op, f.lits, ex, scores), AllGold(f);
    forall k | 0 <= k < |f.fields| ensures f.fields[k].Name() in sch.opFields[op] {
      assert KeyMatches(pred, gold, f.fields[k].key);
      if f.fields[k].Name() !in sch.opFields[op] {
        ForeignKey(f, sch, op, ex, scores, k);
      }
    }
    var a := FirstArray(f.fields);
    if a < |f.fields| {
      FieldIff(f, sch, op, ex, scores, a);
    }
    forall k | 0 <= k < |f.fields| ensures FieldCovered(f, sch, op, k) {
      if k != a {
        FieldIff(f, sch, op, ex, scores, k);
      }
    }
    forall n | n in sch.opFields[op] && FieldNamed(f.fields, n) == |f.fields|
      ensures n in sch.kind && !sch.kind[n].ArrKind? && ClassAnswer(sch, op, n, None).None?
    {
      assert WellNamed(sch, n);
      AbsentKey(f, sch, op, ex, scores, n);
      assert KeyMatches(pred, gold, KeyOf(sch, n));
    }
  }

  /** A covered row comes back whole. */
  lemma {:induction false} CoveredRowMatches(f: Facts, sch: Schema, op: string, ex: Example, scores: Scores)
    requires RowFits(f, sch, op) && AnchorKnown(sch, op) && Carries(f, sch, op, ex) && RowCovered(f, sch, op)
    requires forall k :: 0 <= k < |f.fields| ==> Readable(f, sch, op, ex, k)
    requires forall n :: n in sch.opFields[op] && FieldNamed(f.fields, n) == |f.fields| ==> Answers(f, sch, op, ex, n)
    ensures ParamsMatch(AllRebuilt(sch, op, f.lits, ex, scores), AllGold(f))
  {
    hide KeyMatches, RowFits, RowCovered, Rebuilt, GoldOf, MarksFor, Answers, Readable;
    forall key ensures KeyMatches(AllRebuilt(sch, op, f.lits, ex, scores), AllGold(f), key) {
      CoveredKeyMatches(f, sch, op, ex, scores, key);
    }
  }

  lemma {:induction false} CoveredKeyMatches(f: Facts, sch: Schema, op: string, ex: Example, scores: Scores,
      key: string)
    requires RowFits(f, sch, op) && AnchorKnown(sch, op) && Carries(f, sch, op, ex) && RowCovered(f, sch, op)
    requires forall k :: 0 <= k < |f.fields| ==> Readable(f, sch, op, ex, k)
    requires forall n :: n in sch.opFields[op] && FieldNamed(f.fields, n) == |f.fields| ==> Answers(f, sch, op, ex, n)
    ensures KeyMatches(AllRebuilt(sch, op, f.lits, ex, scores), AllGold(f), key)
  {
    hide FieldCovered, Rebuilt, GoldOf, MarksFor, Answers, Readable, FieldMatches, DecodeField, KeyOf;
    var pred, gold := AllRebuilt(sch, op, f.lits, ex, scores), AllGold(f);
    GoldAt(f.fields, |f.fields|, key);
    RebuiltAt(sch, op, f.lits, ex, scores, |sch.opFields[op]|, key);
    if key in gold {
      var k :| 0 <= k < |f.fields| && f.fields[k].key == key;
      FieldIff(f, sch, op, ex, scores, k);
    } else if key in pred {
      var j :| 0 <= j < |sch.opFields[op]| && KeyOf(sch, sch.opFields[op][j]) == key;
      var n := sch.opFields[op][j];
      var k := FieldNamed(f.fields, n);
      if k < |f.fields| {
        KeyOfField(f, sch, op, k);
      } else {
        AbsentKey(f, sch, op, ex, scores, n);
      }
    }
  }

  /** Labels rebuild the gold: whatever name-level labels represent the row, finishing them
      against the vocabulary and decoding gives back the gold if and only if the row is
      covered. Scores never matter, because a slot is never claimed twice. */
  lemma {:induction false} RowIff(f: Facts, sch: Schema, op: string, pairs: seq<set<Pair>>, opId: nat, scores: Scores)
    requires RowFits(f, sch, op) && AnchorKnown(sch, op) && Labelled(f, sch, pairs)
    ensures var ex := FinishedRow(f, sch, pairs, opId);
            && Usable(sch, op, |f.lits|, ex)
            && (ParamsMatch(AllRebuilt(sch, op, f.lits, ex, scores), AllGold(f)) <==> RowCovered(f, sch, op))
  {
    hide RowCovered, ParamsMatch, Rebuilt, GoldOf, Answers, FinishedRow;
    var ex := FinishedRow(f, sch, pairs, opId);
    FinishedCarries(f, sch, pairs, opId, op);
    if ParamsMatch(AllRebuilt(sch, op, f.lits, ex, scores), AllGold(f)) {
      MatchedRowCovered(f, sch, op, ex, scores);
    }
    if RowCovered(f, sch, op) {
      CoveredRowMatches(f, sch, op, ex, scores);
    }
  }

  // ---- the plain sufficient conditions

  /** No field is left unexplained. */
  ghost predicate NothingUnexplained(f: Facts, sch: Schema) {
    forall k :: 0 <= k < |f.fields| ==> RouteOf(f, sch, k).Some? && RouteOf(f, sch, k).value != Unexplained
  }

  /** The vocabulary kept every pair of the row. */
  ghost predicate NothingDropped(f: Facts, sch: Schema) {
    forall k :: 0 <= k < |f.fields| ==> AllKept(FieldMarks(f, sch, k), f.fields[k].Name(), sch.pairs)
  }

  /** Every class label is a class of its field, and a number it stands for has at most 60 digits. */
  ghost predicate ClassesHold(f: Facts, sch: Schema) {
    forall k :: 0 <= k < |f.fields| && HasClass(f, sch, k) ==>
      && IsConvention(sch, f.fields[k].Name(), ClassOf(f.fields[k].gold))
      && (f.fields[k].gold.Num? ==> Ctx(Value(f.fields[k].gold.d)) == Value(f.fields[k].gold.d))
  }

  /** Each sibling array has one element per anchor element, with trailing zeros in each group. */
  ghost predicate ArraysFit(f: Facts, sch: Schema) {
    AnchorRuns(f, sch).Some? ==> forall k ::
      0 <= k < |f.fields| && f.fields[k].gold.Arr? && k != FirstArray(f.fields) ==>
      |f.fields[k].gold.els| == Total(AnchorRuns(f, sch).value) &&
        GroupsTrail(f.fields[k].gold.els, AnchorRuns(f, sch).value, 0)
  }

  /** The row's keys are exactly the operation's fields. */
  ghost predicate SameFields(f: Facts, sch: Schema, op: string)
    requires op in sch.opFields
  {
    && (forall k :: 0 <= k < |f.fields| ==> f.fields[k].Name() in sch.opFields[op])
    && (forall n :: n in sch.opFields[op] ==> FieldNamed(f.fields, n) < |f.fields|)
  }

  /** The first array is the anchor, or empty, or aligned with the anchor. */
  ghost predicate AnchorPlaced(f: Facts, sch: Schema, op: string) {
    AnchorRuns(f, sch).Some? ==>
      AnchorFirst(f, sch, op) || f.fields[FirstArray(f.fields)].gold.els == [] || AnchorElsewhere(f, sch, op)
  }

  ghost predicate Explained(f: Facts, sch: Schema, op: string)
    requires op in sch.opFields
  {
    && SameFields(f, sch, op) && AnchorPlaced(f, sch, op)
    && NothingUnexplained(f, sch) && NothingDropped(f, sch) && ClassesHold(f, sch) && ArraysFit(f, sch)
  }

  lemma {:induction false} ExplainedField(f: Facts, sch: Schema, op: string, k: nat)
    requires RowFits(f, sch, op) && Explained(f, sch, op) && k < |f.fields|
    ensures FieldCovered(f, sch, op, k)
  {
    hide BothPasses, Conventions, HitsFrom, Runs, RunMarks, HitMarks, CandMarks, NumEq, InVocab, Aligned;
    var g, name := f.fields[k].gold, f.fields[k].Name();
    assert RouteOf(f, sch, k).Some? && AllKept(FieldMarks(f, sch, k), name, sch.pairs);
    if HasClass(f, sch, k) {
      assert ClassAnswer(sch, op, name, LabelOf(f, sch, k)) == LabelOf(f, sch, k);
      if g.Num? {
        ExactIsEqual(Value(g.d), g.d);
      }
    } else if g.Num? {
      ChosenMarks(f, sch, k);
    }
  }

  /** A plain number that is pointed at has marks. */
  lemma ChosenMarks(f: Facts, sch: Schema, k: nat)
    requires k < |f.fields| && f.fields[k].gold.Num? && IsPlain(f, sch, k)
    requires RouteOf(f, sch, k) != Some(Unexplained)
    ensures FieldMarks(f, sch, k) != []
  {
    hide BothPasses, Conventions;
  }

  /** A row whose keys are its operation's fields, with nothing unexplained, nothing dropped,
      and arrays that fit their anchor, always comes back whole. */
  lemma {:induction false} ExplainedRowMatches(f: Facts, sch: Schema, op: string, pairs: seq<set<Pair>>, opId: nat,
      scores: Scores)
    requires RowFits(f, sch, op) && AnchorKnown(sch, op) && Labelled(f, sch, pairs) && Explained(f, sch, op)
    ensures var ex := FinishedRow(f, sch, pairs, opId);
            Usable(sch, op, |f.lits|, ex) && ParamsMatch(AllRebuilt(sch, op, f.lits, ex, scores), AllGold(f))
  {
    ExplainedCovered(f, sch, op);
    RowIff(f, sch, op, pairs, opId, scores);
  }

  lemma {:induction false} ExplainedCovered(f: Facts, sch: Schema, op: string)
    requires RowFits(f, sch, op) && Explained(f, sch, op)
    ensures RowCovered(f, sch, op)
  {
    hide FieldCovered, RowFits, NothingUnexplained, NothingDropped, ClassesHold, ArraysFit, AnchorPlaced;
    forall k | 0 <= k < |f.fields| ensures FieldCovered(f, sch, op, k) {
      ExplainedField(f, sch, op, k);
    }
  }
}
