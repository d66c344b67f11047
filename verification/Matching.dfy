/** Which literal answers which scalar field: a global greedy matching in two passes. */
module Matching {
  import opened Corpus

  /** One (field, candidate) choice with its rank: higher affinity first, then simpler
      maps, later turns, earlier fields, earlier literals. */
  datatype Entry = Entry(name: string, cand: Cand, affinity: real, prio: nat, turn: nat, order: nat, lit: nat)

  predicate RankedBefore(x: Entry, y: Entry) {
    if x.affinity != y.affinity then x.affinity > y.affinity
    else if x.prio != y.prio then x.prio < y.prio
    else if x.turn != y.turn then x.turn > y.turn
    else if x.order != y.order then x.order < y.order
    else x.lit < y.lit
  }

  ghost predicate Sorted(es: seq<Entry>) {
    forall i, j :: 0 <= i < j < |es| ==> !RankedBefore(es[j], es[i])
  }

  lemma RankTransitive(x: Entry, y: Entry, z: Entry)
    ensures !RankedBefore(y, x) && !RankedBefore(z, y) ==> !RankedBefore(z, x)
    ensures RankedBefore(x, y) ==> !RankedBefore(y, x)
  {
  }

  /** The place of `e`: after everything that is not ranked after it. */
  function PlaceOf(es: seq<Entry>, e: Entry): (k: nat)
    ensures k <= |es| && (k > 0 ==> !RankedBefore(e, es[k - 1]))
    ensures forall j :: k <= j < |es| ==> RankedBefore(e, es[j])
  {
    if es == [] || !RankedBefore(e, es[|es| - 1]) then |es| else PlaceOf(es[..|es| - 1], e)
  }

  /** The stable sort by rank. */
  function Sort(es: seq<Entry>): (r: seq<Entry>)
    ensures |r| == |es|
  {
    if es == [] then []
    else
      var e, r := es[|es| - 1], Sort(es[..|es| - 1]);
      var k := PlaceOf(r, e);
      r[..k] + [e] + r[k..]
  }

  lemma InsertSorts(r: seq<Entry>, e: Entry)
    requires Sorted(r)
    ensures var k := PlaceOf(r, e); Sorted(r[..k] + [e] + r[k..])
  {
    var k := PlaceOf(r, e);
    forall i | 0 <= i < k ensures !RankedBefore(e, r[i]) {
      RankTransitive(r[i], r[k - 1], e);
    }
    forall j | k <= j < |r| ensures !RankedBefore(r[j], e) {
      RankTransitive(e, r[j], e);
    }
  }

  lemma {:induction false} SortSorts(es: seq<Entry>)
    ensures Sorted(Sort(es))
  {
    if es != [] {
      SortSorts(es[..|es| - 1]);
      InsertSorts(Sort(es[..|es| - 1]), es[|es| - 1]);
    }
  }

  /** Field by field: the sorted entries fall in affinity; among equals the map gets less simple,
      then the turn earlier, then the field later, then the literal later. */
  lemma SortOrders(es: seq<Entry>, i: nat, j: nat)
    requires i < j < |es|
    ensures var x, y := Sort(es)[i], Sort(es)[j];
      && x.affinity >= y.affinity
      && (x.affinity == y.affinity ==> x.prio <= y.prio)
      && (x.affinity == y.affinity && x.prio == y.prio ==> x.turn >= y.turn)
      && (x.affinity == y.affinity && x.prio == y.prio && x.turn == y.turn ==> x.order <= y.order)
      && (x.affinity == y.affinity && x.prio == y.prio && x.turn == y.turn && x.order == y.order ==> x.lit <= y.lit)
  {
    hide Sort;
    SortSorts(es);
    assert !RankedBefore(Sort(es)[j], Sort(es)[i]);
  }

  /** The entries that rank exactly as `e`. */
  function OfRank(es: seq<Entry>, e: Entry): seq<Entry> {
    if es == [] then []
    else
      var rest, x := OfRank(es[..|es| - 1], e), es[|es| - 1];
      if x.(name := e.name, cand := e.cand) == e then rest + [x] else rest
  }

  lemma {:induction false} OfRankConcat(a: seq<Entry>, b: seq<Entry>, e: Entry)
    ensures OfRank(a + b, e) == OfRank(a, e) + OfRank(b, e)
    decreases |b|
  {
    if b == [] {
      assert a + b == a;
    } else {
      OfRankConcat(a, b[..|b| - 1], e);
      assert (a + b)[..|a + b| - 1] == a + b[..|b| - 1];
    }
  }

  lemma {:induction false} NoneOfRank(es: seq<Entry>, x: Entry, e: Entry)
    requires x.(name := e.name, cand := e.cand) == e && forall i :: 0 <= i < |es| ==> RankedBefore(x, es[i])
    ensures OfRank(es, e) == []
    decreases |es|
  {
    if es != [] {
      NoneOfRank(es[..|es| - 1], x, e);
    }
  }

  lemma OfRankOne(x: Entry, e: Entry)
    ensures OfRank([x], e) == if x.(name := e.name, cand := e.cand) == e then [x] else []
  {
    assert [] + [x] == [x];
  }

  /** Ties keep the order they had: entries of one rank are listed as before. */
  lemma {:induction false} SortStable(es: seq<Entry>, e: Entry)
    ensures OfRank(Sort(es), e) == OfRank(es, e)
    decreases |es|
  {
    hide Sort, OfRank, RankedBefore, PlaceOf;
    SortStep(es);
    if es != [] {
      var init, x := es[..|es| - 1], es[|es| - 1];
      var r := Sort(init);
      var k := PlaceOf(r, x);
      SortStable(init, e);
      assert es == init + [x];
      OfRankInserted(init, r, x, e);
    }
  }

  /** An entry inserted at its place comes after all of its rank. */
  lemma OfRankInserted(init: seq<Entry>, r: seq<Entry>, x: Entry, e: Entry)
    requires OfRank(r, e) == OfRank(init, e)
    ensures var k := PlaceOf(r, x); OfRank(r[..k] + [x] + r[k..], e) == OfRank(init + [x], e)
  {
    hide OfRank, RankedBefore, PlaceOf;
    var k := PlaceOf(r, x);
    assert r == r[..k] + r[k..];
    if x.(name := e.name, cand := e.cand) == e {
      AfterPlace(r, x);
      NoneOfRank(r[k..], x, e);
    }
    OfRankOne(x, e);
    OfRankMiddle(r[..k], x, r[k..], e);
    OfRankConcat(init, [x], e);
  }

  lemma AfterPlace(r: seq<Entry>, x: Entry)
    ensures PlaceOf(r, x) <= |r| && forall y :: y in r[PlaceOf(r, x)..] ==> RankedBefore(x, y)
  {
  }

  lemma OfRankMiddle(a: seq<Entry>, x: Entry, b: seq<Entry>, e: Entry)
    requires OfRank(b, e) == [] || OfRank([x], e) == []
    ensures OfRank(a + [x] + b, e) == OfRank(a + b, e) + OfRank([x], e)
  {
    hide OfRank;
    OfRankConcat(a, b, e);
    OfRankConcat(a + [x], b, e);
    OfRankConcat(a, [x], e);
  }

  lemma {:induction false} SortPermutes(es: seq<Entry>)
    ensures multiset(Sort(es)) == multiset(es)
  {
    hide Sort, PlaceOf;
    SortStep(es);
    if es != [] {
      var init, e := es[..|es| - 1], es[|es| - 1];
      SortPermutes(init);
      InsertKeeps(Sort(init), e, PlaceOf(Sort(init), e));
      assert es == init + [e];
    }
  }

  lemma SortStep(es: seq<Entry>)
    ensures Sort(es) ==
      if es == [] then []
      else
        var r, e := Sort(es[..|es| - 1]), es[|es| - 1];
        r[..PlaceOf(r, e)] + [e] + r[PlaceOf(r, e)..]
  {
    hide PlaceOf;
  }

  lemma InsertKeeps(r: seq<Entry>, e: Entry, k: nat)
    requires k <= |r|
    ensures multiset(r[..k] + [e] + r[k..]) == multiset(r) + multiset{e}
  {
    assert r == r[..k] + r[k..];
  }

  lemma SameEntries(es: seq<Entry>, x: Entry)
    ensures x in Sort(es) <==> x in es
  {
    SortPermutes(es);
    assert x in multiset(Sort(es)) <==> x in multiset(es);
  }

  datatype Match = Match(chosen: map<string, Cand>, claimed: set<nat>)

  function Take(s: Match, e: Entry): Match {
    Match(s.chosen[e.name := e.cand], s.claimed + e.cand.Lits())
  }

  /** First pass: the best candidate whose literals nobody has claimed. */
  function Claim(es: seq<Entry>, claimed: set<nat>): Match {
    if es == [] then Match(map[], claimed)
    else
      var s, e := Claim(es[..|es| - 1], claimed), es[|es| - 1];
      if e.name !in s.chosen && e.cand.Lits() !! s.claimed then Take(s, e) else s
  }

  /** Second pass: a field that found none shares its best candidate. */
  function ShareOut(es: seq<Entry>, s0: Match): Match {
    if es == [] then s0
    else
      var s, e := ShareOut(es[..|es| - 1], s0), es[|es| - 1];
      if e.name !in s.chosen then Take(s, e) else s
  }

  // ---- what the two passes guarantee

  lemma {:induction false} ClaimGrows(es: seq<Entry>, claimed: set<nat>, i: nat)
    requires i <= |es|
    ensures var s, t := Claim(es[..i], claimed), Claim(es, claimed);
            && s.claimed <= t.claimed
            && forall n :: n in s.chosen ==> n in t.chosen && t.chosen[n] == s.chosen[n]
    decreases |es|
  {
    if i < |es| {
      ClaimGrows(es[..|es| - 1], claimed, i);
      assert es[..|es| - 1][..i] == es[..i];
    } else {
      assert es[..i] == es;
    }
  }

  /** Every literal claimed in the first pass was claimed beforehand or by a choice. */
  lemma {:induction false} ClaimedBy(es: seq<Entry>, claimed: set<nat>)
    ensures var s := Claim(es, claimed);
            && claimed <= s.claimed
            && (forall x :: x in s.claimed <==> x in claimed || exists n :: n in s.chosen && x in s.chosen[n].Lits())
  {
    if es != [] {
      ClaimedBy(es[..|es| - 1], claimed);
      var s, e := Claim(es[..|es| - 1], claimed), es[|es| - 1];
      if e.name !in s.chosen && e.cand.Lits() !! s.claimed {
        var t := Take(s, e);
        forall x | x in t.claimed ensures x in claimed || exists n :: n in t.chosen && x in t.chosen[n].Lits() {
          if x in e.cand.Lits() {
            assert e.name in t.chosen && x in t.chosen[e.name].Lits();
          } else if x !in claimed {
            var n :| n in s.chosen && x in s.chosen[n].Lits();
            assert n in t.chosen && x in t.chosen[n].Lits();
          }
        }
        forall n | n in t.chosen ensures t.chosen[n].Lits() <= t.claimed {
          if n != e.name {
            assert forall x :: x in s.chosen[n].Lits() ==> x in s.claimed;
          }
        }
      }
    }
  }

  /** First-pass choices come from the entries. */
  lemma {:induction false} ClaimOrigin(es: seq<Entry>, claimed: set<nat>, n: string) returns (i: nat)
    requires n in Claim(es, claimed).chosen
    ensures i < |es| && es[i].name == n && es[i].cand == Claim(es, claimed).chosen[n]
    decreases |es|
  {
    var init, e := es[..|es| - 1], es[|es| - 1];
    var s, t := Claim(init, claimed), Claim(es, claimed);
    if n in s.chosen && t.chosen[n] == s.chosen[n] {
      i := ClaimOrigin(init, claimed, n);
    } else {
      i := |es| - 1;
    }
  }

  /** First-pass choices avoid what was claimed before, and are pairwise disjoint. */
  lemma {:induction false} ClaimDisjoint(es: seq<Entry>, claimed: set<nat>)
    ensures var s := Claim(es, claimed);
            && (forall n :: n in s.chosen ==> s.chosen[n].Lits() !! claimed)
            && (forall m, n :: m in s.chosen && n in s.chosen && m != n ==> s.chosen[m].Lits() !! s.chosen[n].Lits())
  {
    if es != [] {
      var s := Claim(es[..|es| - 1], claimed);
      ClaimDisjoint(es[..|es| - 1], claimed);
      ClaimedBy(es[..|es| - 1], claimed);
      assert forall n :: n in s.chosen ==> s.chosen[n].Lits() <= s.claimed;
    }
  }

  lemma ClaimApart(es: seq<Entry>, claimed: set<nat>, m: string, n: string)
    requires n in Claim(es, claimed).chosen
    ensures Claim(es, claimed).chosen[n].Lits() !! claimed
    ensures m in Claim(es, claimed).chosen && m != n ==>
      Claim(es, claimed).chosen[n].Lits() !! Claim(es, claimed).chosen[m].Lits()
  {
    hide Claim;
    ClaimDisjoint(es, claimed);
  }

  /** Stability: a candidate ranked above its field's first-pass choice, or any candidate of
      a field with no choice, uses a literal that was claimed beforehand or by a choice
      ranked above that candidate. */
  lemma {:induction false} ClaimStable(es: seq<Entry>, claimed: set<nat>, i: nat)
    requires i < |es|
    ensures var s := Claim(es, claimed);
            || (exists k ::
              0 <= k <= i && es[k].name == es[i].name && es[i].name in s.chosen && s.chosen[es[i].name] == es[k].cand)
            || (exists x :: x in es[i].cand.Lits() &&
                 (x in claimed || exists k :: 0 <= k < i && es[k].name in s.chosen &&
                                              s.chosen[es[k].name] == es[k].cand && x in es[k].cand.Lits()))
  {
    var s, before, after := Claim(es, claimed), Claim(es[..i], claimed), Claim(es[..i + 1], claimed);
    var e := es[i];
    assert es[..i + 1][..i] == es[..i] && es[..i + 1][i] == e;
    ClaimGrows(es, claimed, i);
    ClaimGrows(es, claimed, i + 1);
    if e.name in before.chosen {
      var k := ClaimOrigin(es[..i], claimed, e.name);
      assert es[k].name == e.name && s.chosen[e.name] == es[k].cand;
    } else if e.cand.Lits() !! before.claimed {
      assert after.chosen[e.name] == e.cand;
    } else {
      var x :| x in e.cand.Lits() && x in before.claimed;
      ClaimedBy(es[..i], claimed);
      if x !in claimed {
        var n :| n in before.chosen && x in before.chosen[n].Lits();
        var k := ClaimOrigin(es[..i], claimed, n);
        assert es[k].name in s.chosen && s.chosen[es[k].name] == es[k].cand && x in es[k].cand.Lits();
      }
    }
  }

  /** The position of the best-ranked entry of field `n`, or the length when it has none. */
  function First(es: seq<Entry>, n: string): (k: nat)
    ensures k <= |es| && (k < |es| ==> es[k].name == n)
    ensures forall j :: 0 <= j < k ==> es[j].name != n
  {
    if es == [] then 0
    else
      var k := First(es[..|es| - 1], n);
      if k < |es| - 1 || es[|es| - 1].name == n then k else |es|
  }

  /** The second pass keeps every first-pass choice and gives each remaining field its
      best-ranked candidate, so every field with an entry ends up with exactly one. */
  lemma {:induction false} ShareTotal(es: seq<Entry>, s0: Match, n: string)
    ensures var s := ShareOut(es, s0);
            && (n in s.chosen <==> n in s0.chosen || First(es, n) < |es|)
            && (n in s.chosen ==> s.chosen[n] == if n in s0.chosen then s0.chosen[n] else es[First(es, n)].cand)
  {
    if es != [] {
      ShareTotal(es[..|es| - 1], s0, n);
    }
  }

  /** Claims only grow, and cover every choice the second pass adds. */
  lemma {:induction false} ShareClaims(es: seq<Entry>, s0: Match)
    ensures var s := ShareOut(es, s0);
            s0.claimed <= s.claimed && forall n :: n in s.chosen && n !in s0.chosen ==> s.chosen[n].Lits() <= s.claimed
  {
    if es != [] {
      ShareClaims(es[..|es| - 1], s0);
    }
  }

  /** After both passes everything an array or a choice uses is claimed. */
  lemma AllClaimed(es: seq<Entry>, claimed: set<nat>, n: string)
    ensures var both := ShareOut(es, Claim(es, claimed));
            claimed <= both.claimed && (n in both.chosen ==> both.chosen[n].Lits() <= both.claimed)
  {
    hide Claim, ShareOut;
    var first := Claim(es, claimed);
    ClaimedBy(es, claimed);
    ShareClaims(es, first);
    ShareTotal(es, first, n);
    if n in first.chosen {
      assert forall x :: x in first.chosen[n].Lits() ==> x in first.claimed;
    }
  }
}
