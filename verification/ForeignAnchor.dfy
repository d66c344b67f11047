/** Rows whose first array is not the operation's anchor: the labeller measures the other
    arrays against the first one, the decoder against the anchor. */
module ForeignAnchor {
  import opened ArrayRoundTrip
  import opened Corpus
  import opened Decimals
  import opened Decoding
  import opened KeptLabels
  import opened Labels
  import opened Maps
  import opened Options
  import opened ScalarRoundTrip
  import opened SiblingRoundTrip

  // ---- when the two readings agree

  ghost predicate NoRepeats(runs: seq<Run>) {
    forall k :: 0 <= k < |runs| ==> runs[k].times == 1
  }

  ghost predicate NoZeros(els: seq<Decimal>) {
    forall i :: 0 <= i < |els| ==> Value(els[i]) != 0.0
  }

  /** The marks stand on the literals of the runs, one by one. */
  ghost predicate SameLiterals(ms: seq<Mark>, runs: seq<Run>) {
    |ms| == |runs| && forall k :: 0 <= k < |runs| ==> ms[k].lit == runs[k].lit
  }

  /** What a caller checks about a first array, read as `runs`, and the anchor `els`: nothing
      repeats, nothing is zero, and both arrays point at the same literals in the same order,
      with no pair lost. */
  ghost predicate Aligned(runs: seq<Run>, first: string, els: seq<Decimal>, anchor: string, lits: seq<Lit>, sch: Schema)
    requires RunsFit(runs, |lits|)
  {
    var ms := SiblingMarks(els, runs, lits, anchor, sch);
    && SiblingHits(els, runs, lits, anchor, sch).Some?
    && NoRepeats(runs) && NoZeros(els) && SameLiterals(ms, runs)
    && AllKept(RunMarks(runs), first, sch.pairs) && AllKept(ms, anchor, sch.pairs)
  }

  // ---- runs and hits

  /** A labelled first array has no zero, and as many runs as elements only if none repeats. */
  lemma {:induction false} RunsNonzero(els: seq<Decimal>, lits: seq<Lit>, slot: string, sch: Schema)
    requires Runs(els, lits, slot, sch).Some?
    ensures var runs := Runs(els, lits, slot, sch).value;
            |runs| <= |els| && NoZeros(els) && (|runs| == |els| ==> NoRepeats(runs))
    decreases |els|
  {
    hide Value, Find;
    if els != [] {
      var init := els[..|els| - 1];
      RunsNonzero(init, lits, slot, sch);
      assert forall i :: 0 <= i < |init| ==> init[i] == els[i];
    }
  }

  lemma {:induction false} TotalOnes(runs: seq<Run>)
    requires NoRepeats(runs)
    ensures Total(runs) == |runs|
    decreases |runs|
  {
    if runs != [] {
      TotalOnes(runs[1..]);
    }
  }

  lemma {:induction false} OnesTrail(els: seq<Decimal>, runs: seq<Run>, k: nat)
    requires k <= |runs| && NoRepeats(runs) && |els| == |runs| - k
    ensures GroupsTrail(els, runs, k)
    decreases |runs| - k
  {
    if k < |runs| {
      OnesTrail(els[1..], runs, k + 1);
    }
  }

  /** Each element's hit lies at or after its run and has its value. */
  ghost predicate Placed(hits: seq<Hit>, els: seq<Decimal>, runs: seq<Run>, k: nat, lits: seq<Lit>) {
    && |hits| == |els| == |runs| - k
    && forall j :: 0 <= j < |hits| ==>
      runs[k + j].lit <= hits[j].lit < |lits| && HitValue(hits[j], lits) == Value(els[j])
  }

  lemma PlacedCons(h: Hit, hits: seq<Hit>, els: seq<Decimal>, runs: seq<Run>, k: nat, lits: seq<Lit>)
    requires k < |runs| && els != [] && Placed(hits, els[1..], runs, k + 1, lits)
    requires runs[k].lit <= h.lit < |lits| && HitValue(h, lits) == Value(els[0])
    ensures Placed([h] + hits, els, runs, k, lits)
  {
    hide HitValue, Value;
    forall j | 0 <= j < |els|
      ensures runs[k + j].lit <= ([h] + hits)[j].lit < |lits| && HitValue(([h] + hits)[j], lits) == Value(els[j])
    {
      if j > 0 {
        assert ([h] + hits)[j] == hits[j - 1] && els[j] == els[1..][j - 1];
      }
    }
  }

  lemma OneHit(e: Decimal, lits: seq<Lit>, lo: nat, hi: nat, slot: string, sch: Schema)
    requires hi <= |lits| && GroupHits([e], lits, lo, hi, slot, sch).Some?
    ensures var hs := GroupHits([e], lits, lo, hi, slot, sch).value;
            if Value(e) == 0.0 then hs == [] else |hs| == 1 && lo <= hs[0].lit < hi && HitValue(hs[0], lits) == Value(e)
  {
    hide Value, UnaryValue;
    assert [e][1..] == [];
  }

  /** One element a run: a hit each, unless an element is zero. */
  lemma {:induction false} PerRunHits(els: seq<Decimal>, runs: seq<Run>, k: nat, lits: seq<Lit>, slot: string,
      sch: Schema)
    requires k <= |runs| && RunsFit(runs, |lits|) && |els| == |runs| - k
    requires HitsFrom(els, runs, k, true, lits, slot, sch).Some?
    ensures var hits := HitsFrom(els, runs, k, true, lits, slot, sch).value;
            |hits| <= |els| && (|hits| == |els| <==> NoZeros(els)) && (|hits| == |els| ==>
              Placed(hits, els, runs, k, lits))
    decreases |runs| - k
  {
    hide Value, GroupHits, HitValue, Find, Placed;
    if k == |runs| {
      PlacedNothing(els, runs, lits);
    } else {
      var lo, hi := Start(runs, k, true), Bound(runs, k + 1, |lits|);
      assert els[..1] == [els[0]];
      OneHit(els[0], lits, lo, hi, slot, sch);
      PerRunHits(els[1..], runs, k + 1, lits, slot, sch);
      var rest := HitsFrom(els[1..], runs, k + 1, true, lits, slot, sch).value;
      NoZerosCons(els);
      if NoZeros(els) {
        var h := GroupHits([els[0]], lits, lo, hi, slot, sch).value[0];
        PlacedCons(h, rest, els, runs, k, lits);
        assert GroupHits([els[0]], lits, lo, hi, slot, sch).value == [h];
      }
    }
  }

  lemma PlacedNothing(els: seq<Decimal>, runs: seq<Run>, lits: seq<Lit>)
    requires els == []
    ensures Placed([], els, runs, |runs|, lits)
  {
  }

  lemma NoZerosCons(els: seq<Decimal>)
    requires els != []
    ensures NoZeros(els) <==> Value(els[0]) != 0.0 && NoZeros(els[1..])
  {
    hide Value;
    if NoZeros(els[1..]) {
      forall i | 0 < i < |els| ensures Value(els[i]) != 0.0 {
        assert els[i] == els[1..][i - 1];
      }
    }
  }

  // ---- marks in text order

  /** Marks at or after `lo`. */
  function From(ms: seq<Mark>, lo: nat): seq<Mark> {
    Window(ms, lo, NO_BOUND)
  }

  lemma {:induction false} WindowParts(ms: seq<Mark>, lo: nat, mid: nat)
    requires lo <= mid <= NO_BOUND
    ensures |From(ms, lo)| == |Window(ms, lo, mid)| + |From(ms, mid)|
    decreases |ms|
  {
    if ms != [] {
      WindowParts(ms[..|ms| - 1], lo, mid);
    }
  }

  /** Marks up to one that lies before `lo` are not among those from `lo` on. */
  lemma {:induction false} FromLater(ms: seq<Mark>, lo: nat, k: nat, n: nat)
    requires InOrder(ms, n) && k <= |ms| && (k > 0 ==> ms[k - 1].lit < lo)
    ensures |From(ms, lo)| <= |ms| - k
    decreases |ms|
  {
    if ms != [] {
      var init := ms[..|ms| - 1];
      FromLater(init, lo, if k < |ms| then k else k - 1, n);
    }
  }

  lemma {:induction false} KeptInOrder(ms: seq<Mark>, slot: string, vocab: seq<Pair>, n: nat)
    requires InOrder(ms, n)
    ensures InOrder(InVocab(ms, slot, vocab), n) && forall m :: m in InVocab(ms, slot, vocab) ==> m in ms
    decreases |ms|
  {
    if ms != [] {
      var init, m := ms[..|ms| - 1], ms[|ms| - 1];
      KeptInOrder(init, slot, vocab, n);
      var rest := InVocab(init, slot, vocab);
      forall x | x in rest ensures x.lit < m.lit {
        var i :| 0 <= i < |init| && init[i] == x;
        assert ms[i] == x;
      }
    }
  }

  lemma RunMarksInOrder(runs: seq<Run>, n: nat)
    requires RunsFit(runs, n)
    ensures InOrder(RunMarks(runs), n)
  {
    hide UnaryMap;
  }

  lemma SiblingMarksInOrder(els: seq<Decimal>, runs: seq<Run>, lits: seq<Lit>, slot: string, sch: Schema)
    requires RunsFit(runs, |lits|)
    ensures InOrder(SiblingMarks(els, runs, lits, slot, sch), |lits|)
    ensures AllPoint(SiblingMarks(els, runs, lits, slot, sch))
  {
    hide UnaryMap, HitsFrom;
    if SiblingHits(els, runs, lits, slot, sch).Some? {
      HitsInside(els, runs, 0, |els| == |runs|, lits, slot, sch);
    }
  }

  ghost predicate AllPoint(ms: seq<Mark>) {
    forall m :: m in ms ==> m.role.Point?
  }

  // ---- groups of point marks

  ghost predicate PointGroups(gs: seq<Group>, ms: seq<Mark>) {
    |gs| == |ms| && forall k :: 0 <= k < |ms| ==> gs[k] == Group(ms[k].lit, 1)
  }

  /** The decoder makes one group of each literal that is pointed at once. */
  lemma {:induction false} GroupsOfPoints(ms: seq<Mark>, n: nat)
    requires InOrder(ms, n) && AllPoint(ms)
    ensures PointGroups(Groups(ms), ms)
    decreases |ms|
  {
    hide Groups, PointGroups, InOrder, AllPoint;
    if ms == [] {
      NoGroups();
    } else {
      var init, m := ms[..|ms| - 1], ms[|ms| - 1];
      assert init + [m] == ms;
      PointsInit(init, m, n);
      GroupsOfPoints(init, n);
      PointGroupsSnoc(Groups(init), init, m, n);
      GroupsSnoc(init, m);
    }
  }

  lemma NoGroups()
    ensures PointGroups(Groups([]), [])
  {
  }

  lemma PointsInit(init: seq<Mark>, m: Mark, n: nat)
    requires InOrder(init + [m], n) && AllPoint(init + [m])
    ensures InOrder(init, n) && AllPoint(init) && m.role.Point?
    ensures init != [] ==> init[|init| - 1].lit < m.lit
  {
    assert forall i :: 0 <= i < |init| ==> (init + [m])[i] == init[i] && init[i] in init + [m];
    assert (init + [m])[|init|] == m && m in init + [m];
  }

  lemma PointGroupsSnoc(gs: seq<Group>, init: seq<Mark>, m: Mark, n: nat)
    requires PointGroups(gs, init) && m.role.Point? && (init != [] ==> init[|init| - 1].lit < m.lit)
    ensures gs != [] ==> gs[|gs| - 1].lit != m.lit
    ensures PointGroups(gs + [Group(m.lit, TimesOf(m.role))], init + [m])
  {
  }

  /** Marks read against their own groups give one value each. */
  lemma {:induction false} OwnWindows(ms: seq<Mark>, gs: seq<Group>, k: nat, lits: seq<Lit>)
    requires k <= |ms| && InOrder(ms, |lits|) && PointGroups(gs, ms) && |lits| <= NO_BOUND
    ensures |SiblingValues(ms, gs, k, lits)| == |ms| - k
    ensures forall i :: 0 <= i < |ms| - k ==> SiblingValues(ms, gs, k, lits)[i] == UnaryOf(ms[k + i], lits)
    decreases |ms| - k
  {
    hide UnaryOf, GroupWindow;
    if k < |ms| {
      OwnWindows(ms, gs, k + 1, lits);
      OwnWindow(ms, gs, k, |lits|);
      var here, rest := Filled([ms[k]], 1, lits), SiblingValues(ms, gs, k + 1, lits);
      assert SiblingValues(ms, gs, k, lits) == here + rest;
      assert forall i :: 0 < i < |ms| - k ==> (here + rest)[i] == rest[i - 1] && k + i == k + 1 + (i - 1);
    }
  }

  lemma OwnWindow(ms: seq<Mark>, gs: seq<Group>, k: nat, n: nat)
    requires k < |ms| && InOrder(ms, n) && PointGroups(gs, ms) && n <= NO_BOUND
    ensures GroupWindow(ms, gs, k) == [ms[k]]
  {
    var pre, post := ms[..k], ms[k + 1..];
    assert ms == pre + [ms[k]] + post;
    WindowMiddle(pre, [ms[k]], post, gs[k].lit, if k + 1 < |gs| then gs[k + 1].lit else NO_BOUND);
  }

  /** The anchor array has one value for each mark that points once. */
  lemma {:induction false} PointValues(ms: seq<Mark>, lits: seq<Lit>)
    requires Within(ms, |lits|) && AllPoint(ms)
    ensures AnchorValues(ms, lits).Some? && |AnchorValues(ms, lits).value| == |ms|
    ensures forall i :: 0 <= i < |ms| ==> AnchorValues(ms, lits).value[i] == UnaryOf(ms[i], lits)
    decreases |ms|
  {
    hide UnaryValue;
    if ms != [] {
      PointValues(ms[..|ms| - 1], lits);
    }
  }

  // ---- the first array comes back only when aligned

  /** Groups of one element each, in text order. */
  ghost predicate Singles(gs: seq<Group>) {
    (forall k :: 0 <= k < |gs| ==> gs[k].times == 1 && gs[k].lit < NO_BOUND) &&
    forall j, k :: 0 <= j < k < |gs| ==> gs[j].lit <= gs[k].lit
  }

  /** One value a group, so a value that is not zero needs a mark in its group's window. */
  lemma {:induction false} MarksNeeded(ms: seq<Mark>, gs: seq<Group>, k: nat, lits: seq<Lit>, els: seq<Decimal>)
    requires k <= |gs| && Singles(gs) && Within(ms, |lits|)
    requires Reproduces(SiblingValues(ms, gs, k, lits), els) && NoZeros(els)
    ensures |els| == |gs| - k
    ensures forall j :: k <= j < |gs| ==> |From(ms, gs[j].lit)| >= |gs| - j
    decreases |gs| - k
  {
    hide Value, NumEq, Window;
    if k < |gs| {
      var here, rest := Filled(GroupWindow(ms, gs, k), gs[k].times, lits), SiblingValues(ms, gs, k + 1, lits);
      var vs := here + rest;
      assert |here| == 1 && |els| == |vs|;
      assert forall i :: 0 <= i < |els| - 1 ==> rest[i] == vs[i + 1] && els[1..][i] == els[i + 1];
      MarksNeeded(ms, gs, k + 1, lits, els[1..]);
      if GroupWindow(ms, gs, k) == [] {
        assert vs[0] == Some(0.0);
        ZeroMatches(els[0]);
      }
      if k + 1 < |gs| {
        WindowParts(ms, gs[k].lit, gs[k + 1].lit);
      }
    }
  }

  /** A mark for every group, in order: the groups start no later than the marks. */
  lemma MarksNotBefore(ms: seq<Mark>, gs: seq<Group>, n: nat)
    requires InOrder(ms, n) && |ms| <= |gs|
    requires forall j :: 0 <= j < |gs| ==> |From(ms, gs[j].lit)| >= |gs| - j
    ensures gs != [] ==> |ms| == |gs|
    ensures forall j :: 0 <= j < |ms| ==> gs[j].lit <= ms[j].lit
  {
    hide From;
    if gs != [] {
      FromLater(ms, gs[0].lit, 0, n);
    }
    forall j | 0 <= j < |ms| ensures gs[j].lit <= ms[j].lit {
      if ms[j].lit < gs[j].lit {
        FromLater(ms, gs[j].lit, j + 1, n);
      }
    }
  }

  /** The pairs of a first array and of the anchor that the vocabulary kept. */
  function KeptRuns(runs: seq<Run>, first: string, sch: Schema): seq<Mark> {
    InVocab(RunMarks(runs), first, sch.pairs)
  }

  function KeptHits(els: seq<Decimal>, runs: seq<Run>, lits: seq<Lit>, anchor: string, sch: Schema): seq<Mark>
    requires RunsFit(runs, |lits|)
  {
    InVocab(SiblingMarks(els, runs, lits, anchor, sch), anchor, sch.pairs)
  }

  lemma KeptFacts(runs: seq<Run>, first: string, els: seq<Decimal>, anchor: string, lits: seq<Lit>, sch: Schema)
    requires RunsFit(runs, |lits|)
    ensures InOrder(KeptRuns(runs, first, sch), |lits|) && Within(KeptRuns(runs, first, sch), |lits|)
    ensures |KeptRuns(runs, first, sch)| <= |runs|
    ensures |KeptRuns(runs, first, sch)| == |runs| ==>
      AllKept(RunMarks(runs), first, sch.pairs) && KeptRuns(runs, first, sch) == RunMarks(runs)
    ensures AllKept(RunMarks(runs), first, sch.pairs) ==> KeptRuns(runs, first, sch) == RunMarks(runs)
    ensures var ms, kept := SiblingMarks(els, runs, lits, anchor, sch), KeptHits(els, runs, lits, anchor, sch);
      && InOrder(kept, |lits|) && AllPoint(kept) && |kept| <= |ms| && Within(kept, |lits|)
      && (|kept| == |ms| ==> AllKept(ms, anchor, sch.pairs) && kept == ms)
      && (AllKept(ms, anchor, sch.pairs) ==> kept == ms)
  {
    hide InVocab, SiblingMarks, AllKept;
    var ms := SiblingMarks(els, runs, lits, anchor, sch);
    RunMarksInOrder(runs, |lits|);
    KeptInOrder(RunMarks(runs), first, sch.pairs, |lits|);
    AllOrFewer(RunMarks(runs), first, sch.pairs);
    SiblingMarksInOrder(els, runs, lits, anchor, sch);
    KeptInOrder(ms, anchor, sch.pairs, |lits|);
    AllOrFewer(ms, anchor, sch.pairs);
  }

  /** As many hits as runs, each at or after its run. */
  lemma HitsOfOnes(els: seq<Decimal>, runs: seq<Run>, lits: seq<Lit>, slot: string, sch: Schema)
    requires RunsFit(runs, |lits|) && NoRepeats(runs)
    ensures var ms := SiblingMarks(els, runs, lits, slot, sch);
      && |ms| <= |runs| && (|ms| == |runs| && runs != [] ==> SiblingHits(els, runs, lits, slot, sch).Some?)
      && (SiblingHits(els, runs, lits, slot, sch).Some? ==> |els| == |runs| && (|ms| == |runs| <==> NoZeros(els)))
      && (SiblingHits(els, runs, lits, slot, sch).Some? && |ms| == |runs| ==> MarksPlaced(ms, els, runs, lits))
  {
    hide HitsFrom, NoZeros, UnaryMap, Value;
    TotalOnes(runs);
    if SiblingHits(els, runs, lits, slot, sch).Some? {
      PerRunHits(els, runs, 0, lits, slot, sch);
    }
  }

  /** One point mark an element, at or after the element's run, with the element's value. */
  ghost predicate MarksPlaced(ms: seq<Mark>, els: seq<Decimal>, runs: seq<Run>, lits: seq<Lit>) {
    && |ms| == |els| == |runs|
    && forall j :: 0 <= j < |ms| ==> runs[j].lit <= ms[j].lit < |lits| && UnaryOf(ms[j], lits) == Some(Value(els[j]))
  }

  lemma {:induction false} OnlyAligned(elsR: seq<Decimal>, first: string, els: seq<Decimal>, anchor: string,
      lits: seq<Lit>, sch: Schema)
    requires Runs(elsR, lits, first, sch).Some? && elsR != [] && |lits| <= NO_BOUND
    requires var runs := Runs(elsR, lits, first, sch).value;
      var kept, gs := KeptRuns(runs, first, sch), Groups(KeptHits(els, runs, lits, anchor, sch));
      Within(kept, |lits|) && Reproduces(SiblingValues(kept, gs, 0, lits), elsR)
    ensures Aligned(Runs(elsR, lits, first, sch).value, first, els, anchor, lits, sch)
  {
    hide Value, Runs, KeptRuns, KeptHits, Groups, SiblingValues, Reproduces, RunMarks, SiblingMarks, SiblingHits,
      From, AllKept, NoRepeats, NoZeros;
    var runs := Runs(elsR, lits, first, sch).value;
    var kept, hits := KeptRuns(runs, first, sch), KeptHits(els, runs, lits, anchor, sch);
    var gs := Groups(hits);
    RunsNonzero(elsR, lits, first, sch);
    KeptFacts(runs, first, els, anchor, lits, sch);
    GroupsOfPoints(hits, |lits|);
    MarksNeeded(kept, gs, 0, lits, elsR);
    MarksNotBefore(kept, gs, |lits|);
    HitsOfOnes(els, runs, lits, anchor, sch);
  }

  lemma {:induction false} WhenAligned(elsR: seq<Decimal>, first: string, els: seq<Decimal>, anchor: string,
      lits: seq<Lit>, sch: Schema)
    requires Runs(elsR, lits, first, sch).Some? && |lits| <= NO_BOUND
    requires Aligned(Runs(elsR, lits, first, sch).value, first, els, anchor, lits, sch)
    ensures var runs := Runs(elsR, lits, first, sch).value;
      var kept, hits := KeptRuns(runs, first, sch), KeptHits(els, runs, lits, anchor, sch);
      && Groups(hits) == GroupsOf(runs)
      && Within(kept, |lits|) && Reproduces(SiblingValues(kept, GroupsOf(runs), 0, lits), elsR)
      && Within(hits, |lits|) && AnchorValues(hits, lits).Some? && Reproduces(AnchorValues(hits, lits).value, els)
      && SiblingCovered(els, runs, lits, anchor, sch)
  {
    hide Value, Runs, Groups, SiblingValues, RunMarks, SiblingMarks, SiblingHits, AllKept, NoZeros, AnchorValues,
      KeptRuns, KeptHits, UnaryOf, NumEq, GroupsTrail;
    var runs := Runs(elsR, lits, first, sch).value;
    var kept, hits := KeptRuns(runs, first, sch), KeptHits(els, runs, lits, anchor, sch);
    KeptFacts(runs, first, els, anchor, lits, sch);
    HitsOfOnes(els, runs, lits, anchor, sch);
    GroupsOfPoints(hits, |lits|);
    assert Groups(hits) == GroupsOf(runs);
    FirstAligned(elsR, first, lits, sch);
    PointValues(hits, lits);
    ExactReproduces(AnchorValues(hits, lits).value, els);
    TotalOnes(runs);
    OnesTrail(els, runs, 0);
  }

  /** A first array that repeats nothing is read back through its own groups. */
  lemma {:induction false} FirstAligned(els: seq<Decimal>, first: string, lits: seq<Lit>, sch: Schema)
    requires Runs(els, lits, first, sch).Some? && |lits| <= NO_BOUND && NoRepeats(Runs(els, lits, first, sch).value)
    ensures var runs := Runs(els, lits, first, sch).value;
      Within(RunMarks(runs), |lits|) && Reproduces(SiblingValues(RunMarks(runs), GroupsOf(runs), 0, lits), els)
  {
    hide Value, Runs, SiblingValues, AnchorValues, UnaryOf, NumEq, UnaryMap, Expand;
    var runs := Runs(els, lits, first, sch).value;
    var ms := RunMarks(runs);
    RunMarksInOrder(runs, |lits|);
    RunsDecode(runs, lits);
    RunsExpand(els, lits, first, sch);
    PointValues(ms, lits);
    OwnWindows(ms, GroupsOf(runs), 0, lits);
    ExactReproduces(SiblingValues(ms, GroupsOf(runs), 0, lits), els);
  }

  lemma ExactReproduces(vs: seq<Option<real>>, els: seq<Decimal>)
    requires |vs| == |els| && forall i :: 0 <= i < |els| ==> vs[i] == Some(Value(els[i]))
    ensures Reproduces(vs, els)
  {
    hide Value, NumEq;
    forall i | 0 <= i < |els| ensures NumEq(vs[i].value, els[i]) {
      ExactIsEqual(vs[i].value, els[i]);
    }
  }

  /** A first array that is not the anchor comes back if and only if the two are aligned. */
  lemma {:induction false} FirstIff(elsR: seq<Decimal>, first: string, els: seq<Decimal>, anchor: string,
      lits: seq<Lit>, sch: Schema)
    requires Runs(elsR, lits, first, sch).Some? && elsR != [] && |lits| <= NO_BOUND
    ensures var runs := Runs(elsR, lits, first, sch).value;
      var kept, gs := KeptRuns(runs, first, sch), Groups(KeptHits(els, runs, lits, anchor, sch));
      Within(kept, |lits|) && (Reproduces(SiblingValues(kept, gs, 0, lits), elsR) <==>
        Aligned(runs, first, els, anchor, lits, sch))
  {
    hide Runs, KeptRuns, KeptHits, Groups, SiblingValues, Reproduces, Aligned;
    var runs := Runs(elsR, lits, first, sch).value;
    var gs := Groups(KeptHits(els, runs, lits, anchor, sch));
    KeptFacts(runs, first, els, anchor, lits, sch);
    if Aligned(runs, first, els, anchor, lits, sch) {
      WhenAligned(elsR, first, els, anchor, lits, sch);
    } else if Reproduces(SiblingValues(KeptRuns(runs, first, sch), gs, 0, lits), elsR) {
      OnlyAligned(elsR, first, els, anchor, lits, sch);
    }
  }

  /** An empty first array leaves no groups, so the other arrays come back only if empty too. */
  lemma EmptyFirst(els: seq<Decimal>, anchor: string, lits: seq<Lit>, sch: Schema)
    ensures KeptHits(els, [], lits, anchor, sch) == [] && Groups([]) == GroupsOf([]) == []
    ensures AnchorValues([], lits) == Some([])
    ensures SiblingCovered(els, [], lits, anchor, sch) <==> els == []
    ensures Reproduces([], els) <==> els == []
  {
  }
}
