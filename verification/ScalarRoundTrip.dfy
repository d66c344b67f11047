/** A scalar comes back from its pointers, or from its class. */
module ScalarRoundTrip {
  import opened Corpus
  import opened Decimals
  import opened Decoding
  import opened KeptLabels
  import opened Labels
  import opened Maps
  import opened Matching
  import opened Options

  // ---- one candidate

  lemma PointsOfPair(m: Mark, n: Mark)
    ensures Points([m]) == (if m.role.Point? then [m] else [])
    ensures Points([m, n]) == (if m.role.Point? then [m] else []) + (if n.role.Point? then [n] else [])
  {
    assert [m, n][..1] == [m];
    assert Points([m]) == (if m.role.Point? then [] + [m] else []);
  }

  lemma RolesOfPair(m: Mark, n: Mark, role: Role)
    ensures WithRole([m], role) == (if m.role == role then [m] else [])
    ensures WithRole([m, n], role) == (if m.role == role then [m] else []) + (if n.role == role then [n] else [])
  {
    assert [m, n][..1] == [m];
    assert WithRole([m], role) == (if m.role == role then [] + [m] else []);
  }

  lemma BestOfOne(m: Mark, slot: string, vocab: seq<Pair>, scores: Scores)
    ensures Best([m], slot, vocab, scores) == m
  {
  }

  /** A lone pointer through a one-literal map yields that map's value. */
  lemma PointDecodes(m: Mark, lits: seq<Lit>, slot: string, vocab: seq<Pair>, scores: Scores)
    requires m.lit < |lits| && m.role.Point?
    ensures ScalarFromMarks([m], lits, slot, vocab, scores) == Some(UnaryValue(m.role.m, lits[m.lit].value))
  {
    hide UnaryValue;
    PointsOfPair(m, m);
    BestOfOne(m, slot, vocab, scores);
  }

  /** Both operands yield the two-literal map's value, whichever comes first in the text. */
  lemma OperandsDecode(x: Mark, y: Mark, op: Binary, lits: seq<Lit>, slot: string, vocab: seq<Pair>, scores: Scores)
    requires x.lit < |lits| && y.lit < |lits| && x.role == OperandA(op) && y.role == OperandB(op)
    ensures var v := Some(BinaryValue(op, lits[x.lit].value, lits[y.lit].value));
            && ScalarFromMarks([x, y], lits, slot, vocab, scores) == v
            && ScalarFromMarks([y, x], lits, slot, vocab, scores) == v
  {
    hide UnaryValue, BinaryValue;
    BestOfOne(x, slot, vocab, scores);
    BestOfOne(y, slot, vocab, scores);
    PointsOfPair(x, y);
    PointsOfPair(y, x);
    RolesOfPair(x, y, OperandA(op));
    RolesOfPair(x, y, OperandB(op));
    RolesOfPair(y, x, OperandA(op));
    RolesOfPair(y, x, OperandB(op));
  }

  /** One operand without the other yields nothing. */
  lemma LoneOperand(m: Mark, lits: seq<Lit>, slot: string, vocab: seq<Pair>, scores: Scores)
    requires m.lit < |lits| && (m.role.OperandA? || m.role.OperandB?)
    ensures ScalarFromMarks([m], lits, slot, vocab, scores) == None
  {
    hide UnaryValue, BinaryValue;
    PointsOfPair(m, m);
    RolesOfPair(m, m, OperandA(m.role.op));
    RolesOfPair(m, m, OperandB(m.role.op));
    assert BinaryFromMarks([m], 1, lits, slot, vocab, scores) == None;
  }

  lemma NoMarks(lits: seq<Lit>, slot: string, vocab: seq<Pair>, scores: Scores)
    ensures ScalarFromMarks([], lits, slot, vocab, scores) == None
  {
  }

  lemma InVocabPair(m: Mark, n: Mark, slot: string, vocab: seq<Pair>)
    ensures InVocab([m, n], slot, vocab) ==
            if Pair(slot, m.role) in vocab then if Pair(slot, n.role) in vocab then [m, n] else [m]
            else if Pair(slot, n.role) in vocab then [n] else []
    ensures InVocab([m], slot, vocab) == if Pair(slot, m.role) in vocab then [m] else []
    ensures AllKept([m, n], slot, vocab) <==> Pair(slot, m.role) in vocab && Pair(slot, n.role) in vocab
    ensures AllKept([m], slot, vocab) <==> Pair(slot, m.role) in vocab
  {
    assert m in [m, n] && n in [m, n] && m in [m];
    assert [m, n][..1] == [m];
    assert InVocab([m], slot, vocab) == if Pair(slot, m.role) in vocab then [] + [m] else [];
    assert [m] + [n] == [m, n] && [] + [n] == [n];
  }

  /** A sound candidate whose pairs were all kept decodes to the gold; with a pair dropped
      it decodes to nothing. */
  lemma CandDecodes(v: Decimal, c: Cand, lits: seq<Lit>, slot: string, vocab: seq<Pair>, scores: Scores)
    requires Sound(v, lits, c)
    ensures InOrder(CandMarks(c), |lits|) && CandMarks(c) != []
    ensures forall m :: m in InVocab(CandMarks(c), slot, vocab) ==> m.lit < |lits|
    ensures var r := ScalarFromMarks(InVocab(CandMarks(c), slot, vocab), lits, slot, vocab, scores);
            if AllKept(CandMarks(c), slot, vocab) then r.Some? && NumEq(r.value, v) else r == None
  {
    hide UnaryValue, BinaryValue, UnaryMap, BinaryMap, NumEq, ScalarFromMarks, InVocab, AllKept;
    var ms := CandMarks(c);
    NoMarks(lits, slot, vocab, scores);
    if c.One? {
      assert ms == [ms[0]];
      InVocabPair(ms[0], ms[0], slot, vocab);
      PointDecodes(ms[0], lits, slot, vocab, scores);
    } else {
      var x, y := Mark(c.a, OperandA(BinaryMap(c.q))), Mark(c.b, OperandB(BinaryMap(c.q)));
      assert ms == if c.a < c.b then [x, y] else [y, x];
      InVocabPair(x, y, slot, vocab);
      InVocabPair(y, x, slot, vocab);
      OperandsDecode(x, y, BinaryMap(c.q), lits, slot, vocab, scores);
      LoneOperand(x, lits, slot, vocab, scores);
      LoneOperand(y, lits, slot, vocab, scores);
      ExactIsEqual(BinaryValue(BinaryMap(c.q), lits[c.a].value, lits[c.b].value), v);
    }
  }

  lemma ExactIsEqual(x: real, v: Decimal)
    requires x == Value(v)
    ensures NumEq(x, v)
  {
  }

  // ---- the field's candidate

  lemma {:induction false} EntryOrigin(f: Facts, sch: Schema, n: nat, plain: bool, e: Entry)
    requires n <= |f.fields| && e in Entries(f, sch, n, plain)
    ensures e.order < n && e.name == f.fields[e.order].Name() && e.cand in Candidates(f, sch, e.order, plain)
    decreases n
  {
    hide Candidates;
    if e in Entries(f, sch, n - 1, plain) {
      EntryOrigin(f, sch, n - 1, plain, e);
    } else {
      var cs := Candidates(f, sch, n - 1, plain);
      var es := EntriesOf(f, sch, n - 1, cs);
      var i :| 0 <= i < |es| && es[i] == e;
      assert e.cand == cs[i];
    }
  }

  /** With distinct names, an entry's candidate is one of its own field's. */
  lemma {:induction false} EntryOfField(f: Facts, sch: Schema, plain: bool, e: Entry, k: nat)
    requires DistinctNames(f) && k < |f.fields| && e in Ranked(f, sch, plain) && e.name == f.fields[k].Name()
    ensures e.order == k && e.cand in Candidates(f, sch, k, plain)
  {
    hide Candidates;
    SameEntries(Entries(f, sch, |f.fields|, plain), e);
    EntryOrigin(f, sch, |f.fields|, plain, e);
  }

  lemma {:induction false} ChosenIsCandidate(f: Facts, sch: Schema, k: nat)
    requires DistinctNames(f) && k < |f.fields|
    ensures var n := f.fields[k].Name();
            && (n in BothPasses(f, sch).chosen ==> BothPasses(f, sch).chosen[n] in Candidates(f, sch, k, true))
            && (n in Conventions(f, sch).chosen ==> Conventions(f, sch).chosen[n] in Candidates(f, sch, k, false))
  {
    hide Candidates, Ranked, Claim, ShareOut;
    var n := f.fields[k].Name();
    var es, cs := Ranked(f, sch, true), Ranked(f, sch, false);
    if n in BothPasses(f, sch).chosen {
      ShareTotal(es, FirstPass(f, sch), n);
      if n in FirstPass(f, sch).chosen {
        var i := ClaimOrigin(es, ArrayClaims(f, sch, |f.fields|), n);
        EntryOfField(f, sch, true, es[i], k);
      } else {
        EntryOfField(f, sch, true, es[First(es, n)], k);
      }
    }
    if n in Conventions(f, sch).chosen {
      var i := ClaimOrigin(cs, BothPasses(f, sch).claimed, n);
      EntryOfField(f, sch, false, cs[i], k);
    }
  }

  /** A number's marks, when it has any, are those of one sound candidate. */
  lemma {:induction false} NumberMarks(f: Facts, sch: Schema, k: nat) returns (c: Cand)
    requires DistinctNames(f) && k < |f.fields| && f.fields[k].gold.Num?
    ensures FieldMarks(f, sch, k) != [] ==>
      FieldMarks(f, sch, k) == CandMarks(c) && Sound(f.fields[k].gold.d, f.lits, c)
  {
    hide Candidates, BothPasses, Conventions, Sound;
    ChosenIsCandidate(f, sch, k);
    var n := f.fields[k].Name();
    c := if n in BothPasses(f, sch).chosen then BothPasses(f, sch).chosen[n]
         else if n in Conventions(f, sch).chosen then Conventions(f, sch).chosen[n] else One(0, 0, true, 0.0);
  }

  lemma {:induction false} EntryExists(f: Facts, sch: Schema, n: nat, plain: bool, k: nat)
    requires k < n <= |f.fields| && Candidates(f, sch, k, plain) != []
    ensures exists e :: e in Entries(f, sch, n, plain) && e.name == f.fields[k].Name()
    decreases n
  {
    hide Candidates;
    if k == n - 1 {
      var es := EntriesOf(f, sch, k, Candidates(f, sch, k, plain));
      assert es[0] in Entries(f, sch, n, plain);
    } else {
      EntryExists(f, sch, n - 1, plain, k);
      var e :| e in Entries(f, sch, n - 1, plain) && e.name == f.fields[k].Name();
      assert e in Entries(f, sch, n, plain);
    }
  }

  /** A plain number is pointed at exactly when it has candidates; a convention value is
      never part of the two passes, and a plain value never of the last. */
  lemma {:induction false} ChosenExactly(f: Facts, sch: Schema, k: nat)
    requires DistinctNames(f) && k < |f.fields| && f.fields[k].gold.Num?
    ensures var n := f.fields[k].Name();
            && (n in BothPasses(f, sch).chosen <==> Candidates(f, sch, k, true) != [])
            && (IsPlain(f, sch, k) ==> n !in Conventions(f, sch).chosen)
            && (!IsPlain(f, sch, k) ==> n !in BothPasses(f, sch).chosen)
  {
    hide BothPasses, Conventions, Tier, Pool, IsPlain;
    ChosenIsCandidate(f, sch, k);
    if Candidates(f, sch, k, true) != [] {
      CandidateChosen(f, sch, k);
    }
  }

  lemma {:induction false} CandidateChosen(f: Facts, sch: Schema, k: nat)
    requires DistinctNames(f) && k < |f.fields| && Candidates(f, sch, k, true) != []
    ensures f.fields[k].Name() in BothPasses(f, sch).chosen
  {
    hide Candidates, Ranked, Claim, ShareOut, First;
    var n := f.fields[k].Name();
    EntryExists(f, sch, |f.fields|, true, k);
    var e :| e in Entries(f, sch, |f.fields|, true) && e.name == n;
    RankedHas(f, sch, e);
    ShareTotal(Ranked(f, sch, true), FirstPass(f, sch), n);
  }

  lemma RankedHas(f: Facts, sch: Schema, e: Entry)
    requires e in Entries(f, sch, |f.fields|, true)
    ensures First(Ranked(f, sch, true), e.name) < |Ranked(f, sch, true)|
  {
    hide Entries;
    SameEntries(Entries(f, sch, |f.fields|, true), e);
  }
}
