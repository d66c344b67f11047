/** From labels to ids, from ids back to parameters, and the comparison with the gold:
    the loops, proved against what `Decoding` describes, and the row they cover. */
module Decoder {
  import opened ArrayRoundTrip
  import opened Corpus
  import opened Decoding
  import opened KeptLabels
  import opened Labels
  import Labeller
  import opened Maps
  import opened Options
  import opened RowRoundTrip

  // ---- finishing

  /** The operation's index; index 0 is the row without an operation. */
  function OpIndex(ops: seq<string>, op: string): (k: nat)
    requires op in ops
    ensures k < |ops| && ops[k] == op
  {
    if ops[|ops| - 1] == op then |ops| - 1 else OpIndex(ops[..|ops| - 1], op)
  }

  /** The ids of every literal's names. */
  method FinishPairs(pairs: seq<set<Pair>>, vocab: seq<Pair>) returns (ids: seq<seq<nat>>)
    ensures ids == Ids(pairs, vocab)
  {
    ids := [];
    for li := 0 to |pairs|
      invariant |ids| == li && forall j :: 0 <= j < li ==> ids[j] == KeptIds(pairs[j], vocab, |vocab|)
    {
      var row: seq<nat> := [];
      for p := 0 to |vocab|
        invariant row == KeptIds(pairs[li], vocab, p)
      {
        if vocab[p] in pairs[li] {
          row := row + [p];
        }
      }
      ids := ids + [row];
    }
  }

  /** The class picks whose vocabulary holds the text. */
  method FinishClasses(labels: map<string, ClassText>, sch: Schema) returns (conv: map<string, nat>)
    ensures conv == ClassIds(labels, sch)
  {
    conv := map[];
    var todo := labels.Keys;
    while todo != {}
      invariant todo <= labels.Keys
      invariant forall n :: n in conv <==> n in ClassIds(labels, sch) && n !in todo
      invariant forall n :: n in conv ==> conv[n] == ClassIds(labels, sch)[n]
      decreases |todo|
    {
      var name :| name in todo;
      todo := todo - {name};
      if name in sch.convVocab && labels[name] in sch.convVocab[name] {
        conv := conv[name := IndexOf(sch.convVocab[name], labels[name])];
      }
    }
  }

  /** Name-level labels to ids: a pair the vocabulary dropped is lost here. An operation
      the schema has never seen is an error. */
  method Finish(f: Facts, lab: RawLabels, sch: Schema) returns (ex: Option<Example>)
    requires |lab.pairs| == |f.lits|
    ensures ex.None? <==> f.op.Some? && f.op.value !in sch.ops
    ensures ex.Some? ==> ex.value.pairs == Ids(lab.pairs, sch.pairs) && ex.value.conv == ClassIds(lab.conv, sch)
    ensures ex.Some? ==> ex.value.op == if f.op.None? then 0 else OpIndex(sch.ops, f.op.value)
  {
    if f.op.Some? && f.op.value !in sch.ops {
      return None;
    }
    var ids := FinishPairs(lab.pairs, sch.pairs);
    var conv := FinishClasses(lab.conv, sch);
    return Some(Example(if f.op.None? then 0 else OpIndex(sch.ops, f.op.value), ids, conv));
  }

  // ---- rebuilding

  function MarksIn(bySlot: map<string, seq<Mark>>, slot: string): seq<Mark> {
    if slot in bySlot then bySlot[slot] else []
  }

  /** Every slot holds the marks of the first `li` literals and of `ids`, the next one's. */
  ghost predicate Gathered(bySlot: map<string, seq<Mark>>, pairs: seq<seq<nat>>, li: nat, ids: seq<nat>,
      vocab: seq<Pair>)
    requires IdsOk(pairs, vocab) && li <= |pairs| && forall k :: 0 <= k < |ids| ==> ids[k] < |vocab|
  {
    forall slot :: MarksIn(bySlot, slot) == SlotMarks(pairs, li, slot, vocab) + IdsAt(ids, li, slot, vocab)
  }

  lemma {:induction false} GatherOne(bySlot: map<string, seq<Mark>>, pairs: seq<seq<nat>>, li: nat, ids: seq<nat>,
      p: nat, vocab: seq<Pair>)
    requires IdsOk(pairs, vocab) && li <= |pairs| && p < |vocab| && forall k :: 0 <= k < |ids| ==> ids[k] < |vocab|
    requires Gathered(bySlot, pairs, li, ids, vocab)
    ensures
      var more := MarksIn(bySlot, vocab[p].slot) + [Mark(li, vocab[p].role)];
      Gathered(bySlot[vocab[p].slot := more], pairs, li, ids + [p], vocab)
  {
    hide SlotMarks, IdsAt;
    var after := bySlot[vocab[p].slot := MarksIn(bySlot, vocab[p].slot) + [Mark(li, vocab[p].role)]];
    forall slot ensures MarksIn(after, slot) == SlotMarks(pairs, li, slot, vocab) + IdsAt(ids + [p], li, slot, vocab) {
      IdsAtSnoc(ids, p, li, slot, vocab);
      var before, got := SlotMarks(pairs, li, slot, vocab), IdsAt(ids, li, slot, vocab);
      if slot == vocab[p].slot {
        assert (before + got) + [Mark(li, vocab[p].role)] == before + (got + [Mark(li, vocab[p].role)]);
      } else {
        assert got + [] == got;
      }
    }
  }

  lemma {:induction false} GatherNext(bySlot: map<string, seq<Mark>>, pairs: seq<seq<nat>>, li: nat, vocab: seq<Pair>)
    requires IdsOk(pairs, vocab) && li < |pairs| && Gathered(bySlot, pairs, li, pairs[li], vocab)
    ensures Gathered(bySlot, pairs, li + 1, [], vocab)
  {
    var next := li + 1;
    forall slot ensures IdsAt([], next, slot, vocab) == [] {}
  }

  lemma {:induction false} GatherEnds(bySlot: map<string, seq<Mark>>, pairs: seq<seq<nat>>, li: nat, vocab: seq<Pair>)
    requires IdsOk(pairs, vocab) && li <= |pairs|
    ensures Gathered(map[], pairs, 0, [], vocab)
    ensures Gathered(bySlot, pairs, li, [], vocab) ==> forall slot ::
      MarksIn(bySlot, slot) == SlotMarks(pairs, li, slot, vocab)
  {
    forall slot ensures IdsAt([], li, slot, vocab) == [] {}
  }

  /** Every slot's marks, gathered literal by literal. */
  method GatherSlots(pairs: seq<seq<nat>>, vocab: seq<Pair>) returns (bySlot: map<string, seq<Mark>>)
    requires IdsOk(pairs, vocab)
    ensures forall slot :: MarksIn(bySlot, slot) == SlotMarks(pairs, |pairs|, slot, vocab)
  {
    hide Gathered, MarksIn, SlotMarks, IdsAt;
    bySlot := map[];
    GatherEnds(bySlot, pairs, 0, vocab);
    for li := 0 to |pairs|
      invariant Gathered(bySlot, pairs, li, [], vocab)
    {
      assert pairs[li][..0] == [];
      for i := 0 to |pairs[li]|
        invariant Gathered(bySlot, pairs, li, pairs[li][..i], vocab)
      {
        var p := pairs[li][i];
        GatherOne(bySlot, pairs, li, pairs[li][..i], p, vocab);
        assert pairs[li][..i + 1] == pairs[li][..i] + [p];
        bySlot := bySlot[vocab[p].slot := MarksIn(bySlot, vocab[p].slot) + [Mark(li, vocab[p].role)]];
      }
      assert pairs[li][..|pairs[li]|] == pairs[li];
      GatherNext(bySlot, pairs, li, vocab);
    }
    GatherEnds(bySlot, pairs, |pairs|, vocab);
  }

  /** An array: the anchor expands its runs; a sibling takes each group's literals in order
      and fills the group with zeros. */
  method BuildArray(ms: seq<Mark>, isAnchor: bool, gs: seq<Group>, lits: seq<Lit>) returns (r: Decoded)
    requires forall m :: m in ms ==> m.lit < |lits|
    ensures isAnchor ==> r == match AnchorValues(ms, lits) case None => Missing case Some(vs) => List(vs)
    ensures !isAnchor ==> r == List(SiblingValues(ms, gs, 0, lits))
  {
    hide UnaryValue;
    var out: seq<Option<real>> := [];
    if isAnchor {
      for i := 0 to |ms|
        invariant AnchorValues(ms[..i], lits) == Some(out)
      {
        var v := UnaryOf(ms[i], lits);
        AnchorSnoc(ms[..i], ms[i], lits);
        assert ms[..i + 1] == ms[..i] + [ms[i]];
        if v.None? {
          UnusableRole(ms, lits, i + 1);
          return Missing;
        }
        out := out + Copies(v, TimesOf(ms[i].role));
      }
      assert ms[..|ms|] == ms;
    } else {
      for k := 0 to |gs|
        invariant SiblingValues(ms, gs, 0, lits) == out + SiblingValues(ms, gs, k, lits)
      {
        var hit := GroupWindow(ms, gs, k);
        var filled: seq<Option<real>> := [];
        for c := 0 to gs[k].times
          invariant filled == Filled(hit, c, lits)
        {
          filled := filled + [if c < |hit| then UnaryOf(hit[c], lits) else Some(0.0)];
        }
        assert out + (filled + SiblingValues(ms, gs, k + 1, lits)) ==
          (out + filled) + SiblingValues(ms, gs, k + 1, lits);
        out := out + filled;
      }
    }
    return List(out);
  }

  lemma {:induction false} UnusableRole(ms: seq<Mark>, lits: seq<Lit>, i: nat)
    requires i <= |ms| && (forall m :: m in ms ==> m.lit < |lits|) && AnchorValues(ms[..i], lits).None?
    ensures AnchorValues(ms, lits).None?
    decreases |ms| - i
  {
    if i == |ms| {
      assert ms[..i] == ms;
    } else {
      AnchorSnoc(ms[..i], ms[i], lits);
      assert ms[..i + 1] == ms[..i] + [ms[i]];
      UnusableRole(ms, lits, i + 1);
    }
  }

  /** One field's value from what was gathered. */
  method BuildField(sch: Schema, op: string, ex: Example, lits: seq<Lit>, scores: Scores, name: string, ms: seq<Mark>,
      gs: seq<Group>)
    returns (r: Decoded)
    requires Usable(sch, op, |lits|, ex) && name in sch.opFields[op] && ms == MarksFor(sch, ex, name)
    requires gs == if op in sch.anchor then Groups(MarksFor(sch, ex, sch.anchor[op])) else []
    ensures r == DecodeField(sch, op, lits, ex, scores, name)
  {
    hide AnchorValues, SiblingValues, SlotMarks, ScalarFromMarks, Groups;
    SlotMarksInRange(ex.pairs, |ex.pairs|, name, sch.pairs);
    if sch.kind[name].ArrKind? {
      r := BuildArray(ms, op in sch.anchor && sch.anchor[op] == name, gs, lits);
    } else {
      var v := ScalarFromMarks(ms, lits, name, sch.pairs, scores);
      r := if v.Some? then Number(v.value) else OfClass(ClassValue(sch, op, name, ex.conv));
    }
  }

  /** The parameters of an operation from (operation, pairs, class picks); none for index 0. */
  method Reconstruct(sch: Schema, ex: Example, lits: seq<Lit>, scores: Scores) returns (r: Option<map<string, Decoded>>)
    requires ex.op < |sch.ops| && (ex.op != 0 ==> Usable(sch, sch.ops[ex.op], |lits|, ex))
    ensures r == if ex.op == 0 then None else Some(AllRebuilt(sch, sch.ops[ex.op], lits, ex, scores))
  {
    hide DecodeField, SlotMarks, Groups;
    if ex.op == 0 {
      return None;
    }
    var op := sch.ops[ex.op];
    var bySlot := GatherSlots(ex.pairs, sch.pairs);
    var gs := if op in sch.anchor then Groups(MarksIn(bySlot, sch.anchor[op])) else [];
    var out: map<string, Decoded> := map[];
    var names := sch.opFields[op];
    for n := 0 to |names|
      invariant out == Rebuilt(sch, op, lits, ex, scores, n)
    {
      var value := BuildField(sch, op, ex, lits, scores, names[n], MarksIn(bySlot, names[n]), gs);
      out := out[KeyOf(sch, names[n]) := value];
    }
    return Some(out);
  }

  // ---- comparing

  /** The keys on which prediction and gold differ. */
  method CompareParams(pred: map<string, Decoded>, gold: map<string, Gold>) returns (ok: bool, bad: set<string>)
    ensures forall k :: k in bad <==> !KeyMatches(pred, gold, k)
    ensures ok <==> ParamsMatch(pred, gold)
  {
    hide FieldMatches;
    bad := {};
    var todo := pred.Keys + gold.Keys;
    while todo != {}
      invariant todo <= pred.Keys + gold.Keys
      invariant forall k :: k in bad <==> k in pred.Keys + gold.Keys && k !in todo && !KeyMatches(pred, gold, k)
      decreases |todo|
    {
      var k :| k in todo;
      todo := todo - {k};
      if !KeyMatches(pred, gold, k) {
        bad := bad + {k};
      }
    }
    ok := bad == {};
  }

  // ---- the oracle

  /** One row of the oracle coverage: label, finish, reconstruct, compare. It succeeds on
      exactly the covered rows, and on every row without parameters. */
  method OracleRow(f: Facts, sch: Schema) returns (ok: bool, bad: set<string>)
    requires DistinctNames(f)
    requires f.op.Some? ==> f.op.value in sch.ops && OpIndex(sch.ops, f.op.value) != 0
    requires f.op.Some? ==> RowFits(f, sch, f.op.value) && AnchorKnown(sch, f.op.value)
    requires |sch.ops| > 0
    ensures f.op.None? ==> ok
    ensures f.op.Some? ==> (ok <==> RowCovered(f, sch, f.op.value))
  {
    hide RowCovered, RowFits, ParamsMatch, Usable;
    var lab := Labeller.LabelFacts(f, sch);
    var finished := Finish(f, lab, sch);
    var ex := finished.value;
    if f.op.None? {
      var none := Reconstruct(sch, ex, f.lits, None);
      return none.None?, {};
    }
    RowIff(f, sch, f.op.value, lab.pairs, ex.op, None);
    var params := Reconstruct(sch, ex, f.lits, None);
    ok, bad := CompareParams(params.value, AllGold(f));
  }
}
