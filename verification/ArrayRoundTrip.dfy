/** Arrays come back from their labels: the anchor always, a sibling exactly when its
    length and its zeros fit the anchor's groups. */
module ArrayRoundTrip {
  import opened Corpus
  import opened Decimals
  import opened Decoding
  import opened KeptLabels
  import opened Labels
  import opened Maps
  import opened Options

  // ---- the anchor

  function RunValue(r: Run, lits: seq<Lit>): real
    requires r.lit < |lits|
  {
    UnaryValue(UnaryMap(r.p), lits[r.lit].value)
  }

  /** The elements that runs stand for. */
  ghost function Expand(runs: seq<Run>, lits: seq<Lit>): seq<Option<real>>
    requires forall k :: 0 <= k < |runs| ==> runs[k].lit < |lits|
  {
    if runs == [] then []
    else
      var r := runs[|runs| - 1];
      Expand(runs[..|runs| - 1], lits) + Copies(Some(RunValue(r, lits)), r.times)
  }

  ghost function Exactly(els: seq<Decimal>): seq<Option<real>> {
    seq(|els|, i requires 0 <= i < |els| => Some(Value(els[i])))
  }

  lemma {:induction false} ExtendExpands(before: seq<Run>, hit: Option<Hit>, repeats: bool, lits: seq<Lit>, v: real)
    requires RunsFit(before, |lits|) && (hit.Some? ==> NextLit(before) <= hit.value.lit < |lits|)
    requires hit.Some? ==> RunValue(Run(hit.value.lit, hit.value.p, 1), lits) == v
    requires repeats && before != [] ==> RunValue(before[|before| - 1], lits) == v
    ensures var r := Extend(before, hit, repeats, |lits|);
            && (r.Some? ==> r.value != [] && RunValue(r.value[|r.value| - 1], lits) == v)
            && (r.Some? ==> Expand(r.value, lits) == Expand(before, lits) + [Some(v)])
  {
    hide UnaryValue;
    var r := Extend(before, hit, repeats, |lits|);
    if hit.Some? {
      assert r.value[..|before|] == before;
    } else if r.Some? {
      LengthenLast(before, r.value, lits);
    }
  }

  /** The runs read off an array expand to exactly that array. */
  lemma {:induction false} RunsExpand(els: seq<Decimal>, lits: seq<Lit>, slot: string, sch: Schema)
    requires Runs(els, lits, slot, sch).Some?
    ensures var runs := Runs(els, lits, slot, sch).value;
            && Expand(runs, lits) == Exactly(els)
            && (els == [] <==> runs == [])
            && (els != [] ==> RunValue(runs[|runs| - 1], lits) == Value(els[|els| - 1]))
    decreases |els|
  {
    hide UnaryValue, Runs, Extend, Expand, Find, Value, Exactly;
    RunsStep(els, lits, slot, sch);
    if els == [] {
      NothingExpands(lits);
    } else {
      var init, e := els[..|els| - 1], els[|els| - 1];
      RunsExpand(init, lits, slot, sch);
      var before := Runs(init, lits, slot, sch).value;
      var hit := if Value(e) == 0.0 then None else Find(e, lits, NextLit(before), |lits|, slot, sch);
      if |els| > 1 {
        assert init[|init| - 1] == els[|els| - 2];
      }
      ExtendExpands(before, hit, |els| > 1 && Value(e) == Value(els[|els| - 2]), lits, Value(e));
      ExactlySnoc(init, e);
      assert els == init + [e];
    }
  }

  lemma NothingExpands(lits: seq<Lit>)
    ensures Expand([], lits) == Exactly([])
  {
  }

  lemma ExactlySnoc(init: seq<Decimal>, e: Decimal)
    ensures Exactly(init + [e]) == Exactly(init) + [Some(Value(e))]
  {
    hide Value;
  }

  /** One more element either starts a run or lengthens the last one. */
  lemma RunsStep(els: seq<Decimal>, lits: seq<Lit>, slot: string, sch: Schema)
    ensures els == [] ==> Runs(els, lits, slot, sch) == Some([])
    ensures els != [] && Runs(els, lits, slot, sch).Some? ==>
      var init, e := els[..|els| - 1], els[|els| - 1];
      && Runs(init, lits, slot, sch).Some?
      && var before := Runs(init, lits, slot, sch).value;
      var hit := if Value(e) == 0.0 then None else Find(e, lits, NextLit(before), |lits|, slot, sch);
      && (hit.Some? ==> ExactHit(e, lits[hit.value.lit], hit.value.p))
      && Runs(els, lits, slot, sch) == Extend(before, hit, |els| > 1 && Value(e) == Value(els[|els| - 2]), |lits|)
  {
    hide Value, Extend, UnaryValue;
  }

  lemma {:induction false} LengthenLast(before: seq<Run>, after: seq<Run>, lits: seq<Lit>)
    requires before != [] && forall k :: 0 <= k < |before| ==> before[k].lit < |lits|
    requires var last := before[|before| - 1]; after == before[|before| - 1 := last.(times := last.times + 1)]
    ensures Expand(after, lits) == Expand(before, lits) + [Some(RunValue(before[|before| - 1], lits))]
  {
    hide UnaryValue;
    assert after[..|after| - 1] == before[..|before| - 1];
  }

  lemma {:induction false} AnchorSnoc(ms: seq<Mark>, m: Mark, lits: seq<Lit>)
    requires (forall x :: x in ms ==> x.lit < |lits|) && m.lit < |lits|
    ensures AnchorValues(ms + [m], lits) ==
            if AnchorValues(ms, lits).None? || UnaryOf(m, lits).None? then None
            else Some(AnchorValues(ms, lits).value + Copies(UnaryOf(m, lits), TimesOf(m.role)))
  {
    hide UnaryValue;
    assert (ms + [m])[..|ms|] == ms;
  }

  /** With every pair kept, the decoder expands the anchor's runs. */
  lemma {:induction false} RunsDecode(runs: seq<Run>, lits: seq<Lit>)
    requires RunsFit(runs, |lits|)
    ensures AnchorValues(RunMarks(runs), lits) == Some(Expand(runs, lits))
    decreases |runs|
  {
    hide UnaryValue;
    if runs != [] {
      var init, last := runs[..|runs| - 1], runs[|runs| - 1];
      RunsDecode(init, lits);
      AnchorSnoc(RunMarks(init), Mark(last.lit, RunRole(last)), lits);
    }
  }

  function GroupsOf(runs: seq<Run>): (r: seq<Group>)
    ensures |r| == |runs| && forall k :: 0 <= k < |r| ==> r[k] == Group(runs[k].lit, runs[k].times)
  {
    if runs == [] then []
    else
      var last := runs[|runs| - 1];
      GroupsOf(runs[..|runs| - 1]) + [Group(last.lit, last.times)]
  }

  lemma {:induction false} GroupsSnoc(ms: seq<Mark>, m: Mark)
    requires var gs := Groups(ms); gs != [] ==> gs[|gs| - 1].lit != m.lit
    ensures Groups(ms + [m]) == Groups(ms) + [Group(m.lit, TimesOf(m.role))]
  {
    assert (ms + [m])[..|ms|] == ms;
  }

  /** It also sees one group per run. */
  lemma {:induction false} RunsGroups(runs: seq<Run>, n: nat)
    requires RunsFit(runs, n)
    ensures Groups(RunMarks(runs)) == GroupsOf(runs)
    decreases |runs|
  {
    hide UnaryMap, Groups, RunMarks, GroupsOf;
    RunsSnoc(runs);
    if runs != [] {
      var init, last := runs[..|runs| - 1], runs[|runs| - 1];
      RunsGroups(init, n);
      GroupsSnoc(RunMarks(init), Mark(last.lit, RunRole(last)));
    }
  }

  lemma RunsSnoc(runs: seq<Run>)
    ensures runs == [] ==> Groups(RunMarks(runs)) == GroupsOf(runs)
    ensures runs != [] ==>
      var init, last := runs[..|runs| - 1], runs[|runs| - 1];
      RunMarks(runs) == RunMarks(init) + [Mark(last.lit, RunRole(last))] &&
        GroupsOf(runs) == GroupsOf(init) + [Group(last.lit, last.times)]
  {
    hide UnaryMap;
  }

  /** Marks that each stand for at least one element. */
  ghost predicate AllRuns(ms: seq<Mark>, n: nat) {
    forall m :: m in ms ==> m.lit < n && (m.role.Point? || (m.role.Repeat? && m.role.times >= 1))
  }

  function SumTimes(ms: seq<Mark>): nat {
    if ms == [] then 0 else SumTimes(ms[..|ms| - 1]) + TimesOf(ms[|ms| - 1].role)
  }

  lemma {:induction false} AnchorLength(ms: seq<Mark>, lits: seq<Lit>)
    requires AllRuns(ms, |lits|)
    ensures AnchorValues(ms, lits).Some? && |AnchorValues(ms, lits).value| == SumTimes(ms)
    decreases |ms|
  {
    hide UnaryValue;
    if ms != [] {
      AnchorLength(ms[..|ms| - 1], lits);
    }
  }

  lemma {:induction false} KeptTimes(ms: seq<Mark>, slot: string, vocab: seq<Pair>, n: nat)
    requires AllRuns(ms, n)
    ensures AllRuns(InVocab(ms, slot, vocab), n)
    ensures SumTimes(InVocab(ms, slot, vocab)) <= SumTimes(ms)
    ensures !AllKept(ms, slot, vocab) ==> SumTimes(InVocab(ms, slot, vocab)) < SumTimes(ms)
    decreases |ms|
  {
    hide UnaryValue;
    if ms != [] {
      var init, m := ms[..|ms| - 1], ms[|ms| - 1];
      KeptTimes(init, slot, vocab, n);
      var rest := InVocab(init, slot, vocab);
      assert (rest + [m])[..|rest|] == rest;
      assert ms == init + [m];
    }
  }

  /** The anchor is reproduced if and only if the vocabulary kept all its pairs, and then
      element for element. */
  lemma {:induction false} AnchorIff(els: seq<Decimal>, lits: seq<Lit>, slot: string, sch: Schema)
    requires Runs(els, lits, slot, sch).Some?
    ensures var ms := RunMarks(Runs(els, lits, slot, sch).value);
            var kept := InVocab(ms, slot, sch.pairs);
            && (forall m :: m in kept ==> m.lit < |lits|)
            && AnchorValues(kept, lits).Some?
            && (Reproduces(AnchorValues(kept, lits).value, els) <==> AllKept(ms, slot, sch.pairs))
            && (AllKept(ms, slot, sch.pairs) ==> AnchorValues(kept, lits).value == Exactly(els))
  {
    hide UnaryValue, AnchorValues, InVocab, SumTimes, Expand;
    var runs := Runs(els, lits, slot, sch).value;
    RunsExpand(els, lits, slot, sch);
    RunsDecode(runs, lits);
    KeptTimes(RunMarks(runs), slot, sch.pairs, |lits|);
    AnchorLength(RunMarks(runs), lits);
    AnchorLength(InVocab(RunMarks(runs), slot, sch.pairs), lits);
    AllOrFewer(RunMarks(runs), slot, sch.pairs);
  }

  /** An unexplained anchor is not empty, so the empty array rebuilt for it is wrong. */
  lemma {:induction false} UnexplainedAnchor(els: seq<Decimal>, lits: seq<Lit>, slot: string, sch: Schema)
    requires Runs(els, lits, slot, sch).None?
    ensures !Reproduces([], els)
  {
  }

  // ---- one group of a sibling

  /** The elements a literal must state. */
  function Nonzeros(els: seq<Decimal>): (r: seq<Decimal>)
    ensures |r| <= |els|
  {
    if els == [] then []
    else if Value(els[0]) == 0.0 then Nonzeros(els[1..])
    else [els[0]] + Nonzeros(els[1..])
  }

  predicate ZerosTrail(els: seq<Decimal>) {
    forall i, j :: 0 <= i < j < |els| && Value(els[i]) == 0.0 ==> Value(els[j]) == 0.0
  }

  /** If every element from `c` on is zero, at most `c` are not; and if exactly `c` are
      not, they are the first `c`. */
  lemma {:induction false} LeadingNonzeros(els: seq<Decimal>, c: nat)
    requires forall i :: c <= i < |els| ==> Value(els[i]) == 0.0
    ensures |Nonzeros(els)| <= c
    ensures |Nonzeros(els)| == c ==> c <= |els| && Nonzeros(els) == els[..c] && forall i ::
      0 <= i < c ==> Value(els[i]) != 0.0
    decreases |els|
  {
    if els != [] {
      if Value(els[0]) != 0.0 {
        LeadingNonzeros(els[1..], c - 1);
        assert |Nonzeros(els)| == c ==> els[..c] == [els[0]] + els[1..][..c - 1];
      } else {
        LeadingNonzeros(els[1..], if c > 0 then c - 1 else 0);
      }
    }
  }

  /** With trailing zeros the non-zero elements lead. */
  lemma {:induction false} TrailingZeros(els: seq<Decimal>)
    requires ZerosTrail(els)
    ensures forall i :: |Nonzeros(els)| <= i < |els| ==> Value(els[i]) == 0.0
    decreases |els|
  {
    if els != [] {
      assert ZerosTrail(els[1..]);
      TrailingZeros(els[1..]);
      if Value(els[0]) == 0.0 {
        assert forall i :: 0 < i < |els| ==> Value(els[i]) == 0.0;
      }
    }
  }

  function HitValue(h: Hit, lits: seq<Lit>): real
    requires h.lit < |lits|
  {
    UnaryValue(UnaryMap(h.p), lits[h.lit].value)
  }

  /** Hits in text order inside a window, with the values of the elements. */
  ghost predicate HitsState(hs: seq<Hit>, els: seq<Decimal>, lits: seq<Lit>, lo: nat, hi: nat)
    requires hi <= |lits|
  {
    && |hs| == |els|
    && (forall c :: 0 <= c < |hs| ==> lo <= hs[c].lit < hi && HitValue(hs[c], lits) == Value(els[c]))
    && (forall b, c :: 0 <= b < c < |hs| ==> hs[b].lit < hs[c].lit)
  }

  lemma {:induction false} HitsCons(h: Hit, hs: seq<Hit>, e: Decimal, els: seq<Decimal>, lits: seq<Lit>, lo: nat,
      hi: nat)
    requires hi <= |lits| && lo <= h.lit < hi && HitValue(h, lits) == Value(e)
    requires HitsState(hs, els, lits, h.lit + 1, hi)
    ensures HitsState([h] + hs, [e] + els, lits, lo, hi)
  {
    hide UnaryValue;
  }

  /** One hit per non-zero element. */
  lemma {:induction false} GroupHitsSound(els: seq<Decimal>, lits: seq<Lit>, lo: nat, hi: nat, slot: string,
      sch: Schema)
    requires hi <= |lits| && GroupHits(els, lits, lo, hi, slot, sch).Some?
    ensures HitsState(GroupHits(els, lits, lo, hi, slot, sch).value, Nonzeros(els), lits, lo, hi)
    decreases |els|
  {
    hide UnaryValue;
    if els != [] {
      if Value(els[0]) == 0.0 {
        GroupHitsSound(els[1..], lits, lo, hi, slot, sch);
      } else {
        var h := Find(els[0], lits, lo, hi, slot, sch).value;
        GroupHitsSound(els[1..], lits, h.lit + 1, hi, slot, sch);
        HitsCons(h, GroupHits(els[1..], lits, h.lit + 1, hi, slot, sch).value, els[0], Nonzeros(els[1..]), lits, lo,
          hi);
      }
    }
  }

  lemma {:induction false} ZeroMatches(g: Decimal)
    ensures NumEq(0.0, g) <==> Value(g) == 0.0
  {
    ShiftZero(-g.exp);
    ShiftZero(g.exp);
  }

  lemma {:induction false} KeptInRange(ms: seq<Mark>, slot: string, vocab: seq<Pair>, n: nat)
    requires forall m :: m in ms ==> m.lit < n
    ensures forall m :: m in InVocab(ms, slot, vocab) ==> m.lit < n
    decreases |ms|
  {
    if ms != [] {
      KeptInRange(ms[..|ms| - 1], slot, vocab, n);
    }
  }

  lemma {:induction false} FillOnlyIf(els: seq<Decimal>, kept: seq<Mark>, lits: seq<Lit>)
    requires forall m :: m in kept ==> m.lit < |lits|
    requires |kept| <= |Nonzeros(els)| && Reproduces(Filled(kept, |els|, lits), els)
    ensures |kept| == |Nonzeros(els)| && ZerosTrail(els)
  {
    hide UnaryValue;
    forall i | |kept| <= i < |els| ensures Value(els[i]) == 0.0 {
      assert Filled(kept, |els|, lits)[i] == Some(0.0);
      ZeroMatches(els[i]);
    }
    LeadingNonzeros(els, |kept|);
  }

  lemma {:induction false} FillIf(els: seq<Decimal>, hs: seq<Hit>, lits: seq<Lit>, lo: nat, hi: nat)
    requires hi <= |lits| && HitsState(hs, Nonzeros(els), lits, lo, hi) && ZerosTrail(els)
    ensures forall m :: m in HitMarks(hs) ==> m.lit < |lits|
    ensures Filled(HitMarks(hs), |els|, lits) == Exactly(els)
  {
    hide UnaryValue;
    TrailingZeros(els);
    LeadingNonzeros(els, |hs|);
    forall i | 0 <= i < |els| ensures Filled(HitMarks(hs), |els|, lits)[i] == Some(Value(els[i])) {
      if i < |hs| {
        assert HitMarks(hs)[i] == Mark(hs[i].lit, Point(UnaryMap(hs[i].p)));
      }
    }
  }

  /** A group is reproduced if and only if its pairs were kept and its zeros trail. */
  lemma {:induction false} FillIff(els: seq<Decimal>, lits: seq<Lit>, lo: nat, hi: nat, slot: string, sch: Schema)
    requires hi <= |lits| && GroupHits(els, lits, lo, hi, slot, sch).Some?
    ensures var ms := HitMarks(GroupHits(els, lits, lo, hi, slot, sch).value);
            var kept := InVocab(ms, slot, sch.pairs);
            && (forall m :: m in kept ==> m.lit < |lits|)
            && (Reproduces(Filled(kept, |els|, lits), els) <==> AllKept(ms, slot, sch.pairs) && ZerosTrail(els))
  {
    hide UnaryValue;
    var hs := GroupHits(els, lits, lo, hi, slot, sch).value;
    GroupHitsSound(els, lits, lo, hi, slot, sch);
    AllOrFewer(HitMarks(hs), slot, sch.pairs);
    KeptInRange(HitMarks(hs), slot, sch.pairs, |lits|);
    var kept := InVocab(HitMarks(hs), slot, sch.pairs);
    if Reproduces(Filled(kept, |els|, lits), els) {
      FillOnlyIf(els, kept, lits);
    }
    if AllKept(HitMarks(hs), slot, sch.pairs) && ZerosTrail(els) {
      FillIf(els, hs, lits, lo, hi);
    }
  }
}
