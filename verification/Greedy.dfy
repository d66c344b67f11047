/** The greedy matching seen from one row: total, stable, and sharing only when it must. */
module Greedy {
  import opened Corpus
  import opened Labels
  import opened Maps
  import opened Matching
  import opened ScalarRoundTrip

  // ---- entries and candidates

  lemma {:induction false} EntryShape(f: Facts, sch: Schema, n: nat, plain: bool, e: Entry)
    requires n <= |f.fields| && e in Entries(f, sch, n, plain)
    ensures e.order < n && InRange(e.cand, |f.lits|) && e == EntryOf(f, sch, e.order, e.cand)
    decreases n
  {
    hide Candidates, EntryOf;
    if e in Entries(f, sch, n - 1, plain) {
      EntryShape(f, sch, n - 1, plain, e);
    } else {
      var cs := Candidates(f, sch, n - 1, plain);
      var i :| 0 <= i < |cs| && EntriesOf(f, sch, n - 1, cs)[i] == e;
      assert cs[i] in cs;
      assert EntriesOf(f, sch, n - 1, cs)[i] == EntryOf(f, sch, n - 1, cs[i]);
    }
  }

  lemma {:induction false} EntryListed(f: Facts, sch: Schema, n: nat, plain: bool, k: nat, c: Cand)
    requires k < n <= |f.fields| && c in Candidates(f, sch, k, plain)
    ensures InRange(c, |f.lits|) && EntryOf(f, sch, k, c) in Entries(f, sch, n, plain)
    decreases n
  {
    hide Candidates, EntryOf;
    if k == n - 1 {
      var cs := Candidates(f, sch, k, plain);
      var i :| 0 <= i < |cs| && cs[i] == c;
      assert EntriesOf(f, sch, k, cs)[i] == EntryOf(f, sch, k, c);
    } else {
      EntryListed(f, sch, n - 1, plain, k, c);
    }
  }

  /** The place of a candidate in the ranking. */
  lemma RankOf(f: Facts, sch: Schema, plain: bool, k: nat, c: Cand) returns (i: nat)
    requires k < |f.fields| && c in Candidates(f, sch, k, plain)
    ensures InRange(c, |f.lits|) && i < |Ranked(f, sch, plain)| && Ranked(f, sch, plain)[i] == EntryOf(f, sch, k, c)
  {
    hide Candidates, EntryOf, Entries;
    EntryListed(f, sch, |f.fields|, plain, k, c);
    SameEntries(Entries(f, sch, |f.fields|, plain), EntryOf(f, sch, k, c));
    i :| 0 <= i < |Ranked(f, sch, plain)| && Ranked(f, sch, plain)[i] == EntryOf(f, sch, k, c);
  }

  lemma EntryParts(f: Facts, sch: Schema, k: nat, c: Cand)
    requires k < |f.fields| && InRange(c, |f.lits|)
    ensures var e := EntryOf(f, sch, k, c); e.name == f.fields[k].Name() && e.cand == c && e.order == k
  {
    hide Affinity;
  }

  /** What an entry is ranked by: the smaller of its literals' shares in the field's use, its map's
      priority, its latest turn, its field's place and its earliest literal. */
  lemma EntryMeans(f: Facts, sch: Schema, k: nat, c: Cand)
    requires k < |f.fields| && InRange(c, |f.lits|)
    ensures var e, n := EntryOf(f, sch, k, c), f.fields[k].Name();
      && e.name == n && e.cand == c && e.order == k
      && if c.One? then
           var lit := f.lits[c.i];
           && e.affinity == UsageShare(sch, n, lit.tag, Point(UnaryMap(c.p)))
           && e.prio == c.p && e.turn == lit.seg && e.lit == c.i
         else
           var x, y := f.lits[c.a], f.lits[c.b];
           var s := UsageShare(sch, n, x.tag, OperandA(BinaryMap(c.q)));
           var t := UsageShare(sch, n, y.tag, OperandB(BinaryMap(c.q)));
           && e.affinity <= s && e.affinity <= t && (e.affinity == s || e.affinity == t)
           && e.turn >= x.seg && e.turn >= y.seg && (e.turn == x.seg || e.turn == y.seg)
           && e.lit <= c.a && e.lit <= c.b && (e.lit == c.a || e.lit == c.b)
           && e.prio == 100 + c.q
  {
    hide UsageShare, UnaryMap, BinaryMap;
  }

  /** With distinct names, a ranked entry of a field's name is that field's own. */
  lemma RankedField(f: Facts, sch: Schema, plain: bool, e: Entry, k: nat)
    requires DistinctNames(f) && k < |f.fields| && e in Ranked(f, sch, plain) && e.name == f.fields[k].Name()
    ensures e.cand in Candidates(f, sch, k, plain) && InRange(e.cand, |f.lits|) && e == EntryOf(f, sch, k, e.cand)
  {
    hide Candidates, EntryOf, Entries;
    EntryOfField(f, sch, plain, e, k);
    SameEntries(Entries(f, sch, |f.fields|, plain), e);
    EntryShape(f, sch, |f.fields|, plain, e);
  }

  // ---- every field with candidates gets exactly one

  /** The two passes choose for exactly the plain numbers that have candidates, one of
      their own candidates each, and the second pass never takes back a choice. */
  lemma MatchingTotal(f: Facts, sch: Schema, k: nat)
    requires DistinctNames(f) && k < |f.fields| && f.fields[k].gold.Num?
    ensures var n := f.fields[k].Name(); var both := BothPasses(f, sch).chosen; var first := FirstPass(f, sch).chosen;
      && (n in both <==> Candidates(f, sch, k, true) != [])
      && (n in both ==> both[n] in Candidates(f, sch, k, true))
      && (n in first ==> n in both && both[n] == first[n])
  {
    hide Candidates, Ranked, FirstPass, ShareOut;
    ChosenExactly(f, sch, k);
    ChosenIsCandidate(f, sch, k);
    ShareTotal(Ranked(f, sch, true), FirstPass(f, sch), f.fields[k].Name());
  }

  // ---- the first pass

  /** What a first-pass choice takes is claimed by no array and by no other first-pass choice. */
  lemma FirstPassApart(f: Facts, sch: Schema, m: string, n: string)
    requires n in FirstPass(f, sch).chosen
    ensures FirstPass(f, sch).chosen[n].Lits() !! ArrayClaims(f, sch, |f.fields|)
    ensures m in FirstPass(f, sch).chosen && m != n ==>
      FirstPass(f, sch).chosen[m].Lits() !! FirstPass(f, sch).chosen[n].Lits()
  {
    hide Ranked, Claim, ArrayClaims;
    ClaimApart(Ranked(f, sch, true), ArrayClaims(f, sch, |f.fields|), m, n);
  }

  /** `b` is the first-pass choice of its field, is not ranked after `e`, and uses literal `x`. */
  ghost predicate BlockedBy(f: Facts, sch: Schema, x: nat, e: Entry, b: Entry) {
    b in Ranked(f, sch, true) && !RankedBefore(e, b) && x in b.cand.Lits() &&
    b.name in FirstPass(f, sch).chosen && FirstPass(f, sch).chosen[b.name] == b.cand
  }

  /** Literal `x` is taken by an array, or by a first-pass choice not ranked after `e`. */
  ghost predicate TakenBefore(f: Facts, sch: Schema, x: nat, e: Entry) {
    x in ArrayClaims(f, sch, |f.fields|) || exists b :: BlockedBy(f, sch, x, e, b)
  }

  /** A candidate of which some literal is taken before its turn. */
  ghost predicate Clashes(f: Facts, sch: Schema, c: Cand, e: Entry) {
    exists x :: x in c.Lits() && TakenBefore(f, sch, x, e)
  }

  lemma NotBeforeItself(e: Entry)
    ensures !RankedBefore(e, e)
  {
  }

  /** Either the field's choice is listed no later than place `i`, or the candidate there clashes. */
  lemma PlaceDecides(f: Facts, sch: Schema, i: nat) returns (j: nat)
    requires i < |Ranked(f, sch, true)|
    ensures var es := Ranked(f, sch, true); var chosen := FirstPass(f, sch).chosen; var e := es[i];
      Clashes(f, sch, e.cand, e) || (j <= i && es[j].name == e.name && e.name in chosen &&
        chosen[e.name] == es[j].cand && !RankedBefore(e, es[j]))
  {
    hide Candidates, Entries, Claim, ArrayClaims, RankedBefore, Cand.Lits;
    var es, claimed := Ranked(f, sch, true), ArrayClaims(f, sch, |f.fields|);
    var e, chosen := es[i], FirstPass(f, sch).chosen;
    SortSorts(Entries(f, sch, |f.fields|, true));
    NotBeforeItself(e);
    ClaimStable(es, claimed, i);
    j := 0;
    if q :| 0 <= q <= i && es[q].name == e.name && e.name in chosen && chosen[e.name] == es[q].cand {
      j := q;
    } else {
      var x :| x in e.cand.Lits() && (x in claimed || exists q ::
        0 <= q < i && es[q].name in chosen && chosen[es[q].name] == es[q].cand && x in es[q].cand.Lits());
      if x !in claimed {
        var q :| 0 <= q < i && es[q].name in chosen && chosen[es[q].name] == es[q].cand && x in es[q].cand.Lits();
        assert BlockedBy(f, sch, x, e, es[q]);
      }
      assert TakenBefore(f, sch, x, e);
    }
  }

  /** Stability: whatever a field ranks above its first-pass choice, and everything a field
      without one has, uses a literal that an array or a choice ranked at least as high has
      taken. So a field shares literals only when all its candidates clash. */
  lemma FirstPassStable(f: Facts, sch: Schema, k: nat, c: Cand)
    requires DistinctNames(f) && k < |f.fields| && c in Candidates(f, sch, k, true)
    ensures InRange(c, |f.lits|)
    ensures var n := f.fields[k].Name(); var e := EntryOf(f, sch, k, c); var chosen := FirstPass(f, sch).chosen;
      (n in chosen ==> InRange(chosen[n], |f.lits|)) &&
      (n !in chosen || RankedBefore(e, EntryOf(f, sch, k, chosen[n])) ==> Clashes(f, sch, c, e))
  {
    hide Candidates, EntryOf, Ranked, Claim, ArrayClaims, RankedBefore, Cand.Lits, Clashes, FirstPass;
    var i := RankOf(f, sch, true, k, c);
    EntryParts(f, sch, k, c);
    ChosenInRange(f, sch, k);
    var j := PlaceDecides(f, sch, i);
    if !Clashes(f, sch, c, EntryOf(f, sch, k, c)) {
      RankedField(f, sch, true, Ranked(f, sch, true)[j], k);
    }
  }

  lemma ChosenInRange(f: Facts, sch: Schema, k: nat)
    requires DistinctNames(f) && k < |f.fields|
    ensures f.fields[k].Name() in FirstPass(f, sch).chosen ==>
      InRange(FirstPass(f, sch).chosen[f.fields[k].Name()], |f.lits|)
  {
    hide Candidates, Ranked, Claim, ArrayClaims, EntryOf;
    var n := f.fields[k].Name();
    if n in FirstPass(f, sch).chosen {
      var i := ClaimOrigin(Ranked(f, sch, true), ArrayClaims(f, sch, |f.fields|), n);
      RankedField(f, sch, true, Ranked(f, sch, true)[i], k);
    }
  }

  // ---- convention values

  /** A convention value points only at literals that no array and no choice of either pass
      uses, and no other convention value points at. */
  lemma ConventionsFree(f: Facts, sch: Schema, m: string, n: string)
    requires n in Conventions(f, sch).chosen
    ensures var lits := Conventions(f, sch).chosen[n].Lits();
      && lits !! ArrayClaims(f, sch, |f.fields|)
      && (m in BothPasses(f, sch).chosen ==> lits !! BothPasses(f, sch).chosen[m].Lits())
      && (m in Conventions(f, sch).chosen && m != n ==> lits !! Conventions(f, sch).chosen[m].Lits())
  {
    hide Ranked, Claim, ShareOut, ArrayClaims;
    ClaimApart(Ranked(f, sch, false), BothPasses(f, sch).claimed, m, n);
    AllClaimed(Ranked(f, sch, true), ArrayClaims(f, sch, |f.fields|), m);
  }
}
