/** A sibling array comes back exactly when its length and its zeros fit the anchor's groups. */
module SiblingRoundTrip {
  import opened ArrayRoundTrip
  import opened Corpus
  import opened Decimals
  import opened Decoding
  import opened KeptLabels
  import opened Labels
  import opened Maps
  import opened Options

  // ---- windows

  ghost predicate Inside(ms: seq<Mark>, lo: int, hi: int) {
    forall m :: m in ms ==> lo <= m.lit < hi
  }

  lemma {:induction false} WindowOfConcat(a: seq<Mark>, b: seq<Mark>, lo: int, hi: int)
    ensures Window(a + b, lo, hi) == Window(a, lo, hi) + Window(b, lo, hi)
    decreases |b|
  {
    if b == [] {
      assert a + b == a;
    } else {
      WindowOfConcat(a, b[..|b| - 1], lo, hi);
      assert (a + b)[..|a + b| - 1] == a + b[..|b| - 1];
    }
  }

  lemma {:induction false} WindowAll(ms: seq<Mark>, lo: int, hi: int)
    requires Inside(ms, lo, hi)
    ensures Window(ms, lo, hi) == ms
    decreases |ms|
  {
    if ms != [] {
      WindowAll(ms[..|ms| - 1], lo, hi);
      assert ms == ms[..|ms| - 1] + [ms[|ms| - 1]];
    }
  }

  lemma {:induction false} WindowNone(ms: seq<Mark>, lo: int, hi: int)
    requires forall m :: m in ms ==> !(lo <= m.lit < hi)
    ensures Window(ms, lo, hi) == []
    decreases |ms|
  {
    if ms != [] {
      WindowNone(ms[..|ms| - 1], lo, hi);
    }
  }

  /** The middle stretch is what its own window shows. */
  lemma {:induction false} WindowMiddle(a: seq<Mark>, b: seq<Mark>, c: seq<Mark>, lo: int, hi: int)
    requires Inside(b, lo, hi)
    requires forall m :: m in a ==> m.lit < lo
    requires forall m :: m in c ==> hi <= m.lit
    ensures Window(a + b + c, lo, hi) == b
  {
    WindowOfConcat(a + b, c, lo, hi);
    WindowOfConcat(a, b, lo, hi);
    WindowNone(a, lo, hi);
    WindowAll(b, lo, hi);
    WindowNone(c, lo, hi);
  }

  // ---- kept marks

  lemma {:induction false} KeptOfConcat(a: seq<Mark>, b: seq<Mark>, slot: string, vocab: seq<Pair>)
    ensures InVocab(a + b, slot, vocab) == InVocab(a, slot, vocab) + InVocab(b, slot, vocab)
    ensures AllKept(a + b, slot, vocab) <==> AllKept(a, slot, vocab) && AllKept(b, slot, vocab)
    decreases |b|
  {
    if b == [] {
      assert a + b == a;
    } else {
      KeptOfConcat(a, b[..|b| - 1], slot, vocab);
      assert (a + b)[..|a + b| - 1] == a + b[..|b| - 1];
    }
  }

  lemma {:induction false} KeptInside(ms: seq<Mark>, slot: string, vocab: seq<Pair>, lo: int, hi: int)
    requires Inside(ms, lo, hi)
    ensures Inside(InVocab(ms, slot, vocab), lo, hi)
    decreases |ms|
  {
    if ms != [] {
      KeptInside(ms[..|ms| - 1], slot, vocab, lo, hi);
    }
  }

  // ---- from group k on

  ghost predicate GroupsTrail(els: seq<Decimal>, runs: seq<Run>, k: nat)
    requires k <= |runs|
    decreases |runs| - k
  {
    k == |runs| ||
    var n := if runs[k].times <= |els| then runs[k].times else |els|;
    ZerosTrail(els[..n]) && GroupsTrail(els[n..], runs, k + 1)
  }

  /** Where the hits of the groups from `k` on may lie. */
  ghost function LowEnd(runs: seq<Run>, k: nat, perRun: bool, n: nat): nat
    requires k <= |runs|
  {
    if k < |runs| then Start(runs, k, perRun) else n
  }

  /** Two ordered stretches, one before the other, make an ordered whole. */
  lemma {:induction false} JoinInOrder(a: seq<Mark>, b: seq<Mark>, lo: nat, mid: nat, n: nat)
    requires lo <= mid <= n && InOrder(a, mid) && Inside(a, lo, mid) && InOrder(b, n) && Inside(b, mid, n)
    ensures InOrder(a + b, n) && Inside(a + b, lo, n)
  {
  }

  lemma {:induction false} HitMarksInside(hs: seq<Hit>, els: seq<Decimal>, lits: seq<Lit>, lo: nat, hi: nat)
    requires hi <= |lits| && HitsState(hs, els, lits, lo, hi)
    ensures InOrder(HitMarks(hs), hi) && Inside(HitMarks(hs), lo, hi)
  {
    hide UnaryValue;
  }

  lemma {:induction false} HitMarksConcat(a: seq<Hit>, b: seq<Hit>)
    ensures HitMarks(a + b) == HitMarks(a) + HitMarks(b)
  {
    hide UnaryMap;
  }

  lemma {:induction false} HitsInside(els: seq<Decimal>, runs: seq<Run>, k: nat, perRun: bool, lits: seq<Lit>,
      slot: string, sch: Schema)
    requires k <= |runs| && RunsFit(runs, |lits|)
    requires HitsFrom(els, runs, k, perRun, lits, slot, sch).Some?
    ensures var ms := HitMarks(HitsFrom(els, runs, k, perRun, lits, slot, sch).value);
            InOrder(ms, |lits|) && Inside(ms, LowEnd(runs, k, perRun, |lits|), |lits|)
    decreases |runs| - k
  {
    hide UnaryValue, UnaryMap, HitMarks, InOrder, Inside, HitsState;
    if k < |runs| {
      var n := if Size(runs, k, perRun) <= |els| then Size(runs, k, perRun) else |els|;
      var lo, hi := Start(runs, k, perRun), Bound(runs, k + 1, |lits|);
      var hs := GroupHits(els[..n], lits, lo, hi, slot, sch).value;
      var rest := HitsFrom(els[n..], runs, k + 1, perRun, lits, slot, sch).value;
      GroupHitsSound(els[..n], lits, lo, hi, slot, sch);
      HitMarksInside(hs, Nonzeros(els[..n]), lits, lo, hi);
      HitsInside(els[n..], runs, k + 1, perRun, lits, slot, sch);
      HitMarksConcat(hs, rest);
      JoinInOrder(HitMarks(hs), HitMarks(rest), lo, hi, |lits|);
    } else {
      EmptyInOrder(|lits|);
    }
  }

  lemma EmptyInOrder(n: nat)
    ensures HitMarks([]) == [] && InOrder([], n) && Inside([], n, n)
  {
  }

  // ---- the decoder's side

  lemma {:induction false} SplitReproduces(a: seq<Option<real>>, b: seq<Option<real>>, els: seq<Decimal>, n: nat)
    requires |a| == n <= |els|
    ensures Reproduces(a + b, els) <==> Reproduces(a, els[..n]) && Reproduces(b, els[n..])
  {
    hide NumEq;
    if Reproduces(a + b, els) {
      forall i | 0 <= i < n ensures a[i].Some? && NumEq(a[i].value, els[..n][i]) {
        assert (a + b)[i] == a[i];
      }
      forall i | 0 <= i < |b| ensures b[i].Some? && NumEq(b[i].value, els[n..][i]) {
        assert (a + b)[n + i] == b[i];
      }
    }
    if Reproduces(a, els[..n]) && Reproduces(b, els[n..]) {
      forall i | 0 <= i < |els| ensures (a + b)[i].Some? && NumEq((a + b)[i].value, els[i]) {
        if i < n {
          assert els[..n][i] == els[i];
        } else {
          assert els[n..][i - n] == els[i];
        }
      }
    }
  }

  /** Every run owns as many sibling elements as it has copies. */
  ghost predicate SizesAgree(runs: seq<Run>, perRun: bool) {
    && (perRun ==> forall k :: 0 <= k < |runs| ==> runs[k].times == 1)
    && (!perRun && |runs| == 1 ==> runs[0].times > 1)
  }

  /** The decoder's window for group `k` shows what that group's elements were labelled with. */
  lemma {:induction false} GroupSeen(runs: seq<Run>, k: nat, perRun: bool, pre: seq<Mark>, here: seq<Mark>,
      rest: seq<Mark>, n: nat)
    requires k < |runs| && RunsFit(runs, n) && n <= NO_BOUND && SizesAgree(runs, perRun)
    requires Inside(here, Start(runs, k, perRun), Bound(runs, k + 1, n))
    requires Inside(rest, LowEnd(runs, k + 1, perRun, n), n)
    requires forall m :: m in pre ==> m.lit < runs[k].lit
    requires |runs| == 1 ==> pre == []
    ensures GroupWindow(pre + here + rest, GroupsOf(runs), k) == here
  {
    var gs := GroupsOf(runs);
    var lo := if |gs| == 1 && gs[0].times > 1 then -1 else gs[k].lit;
    var hi := if k + 1 < |gs| then gs[k + 1].lit else NO_BOUND;
    WindowMiddle(pre, here, rest, lo, hi);
  }

  lemma {:induction false} SiblingLength(ms: seq<Mark>, runs: seq<Run>, k: nat, lits: seq<Lit>)
    requires k <= |runs| && forall m :: m in ms ==> m.lit < |lits|
    ensures |SiblingValues(ms, GroupsOf(runs), k, lits)| == Total(runs[k..])
    decreases |runs| - k
  {
    hide UnaryValue;
    if k < |runs| {
      SiblingLength(ms, runs, k + 1, lits);
      assert runs[k..][1..] == runs[k + 1..];
    } else {
      assert runs[k..] == [];
    }
  }

  lemma {:induction false} TotalStep(runs: seq<Run>, k: nat)
    requires k < |runs|
    ensures Total(runs[k..]) == runs[k].times + Total(runs[k + 1..])
  {
    assert runs[k..][1..] == runs[k + 1..];
  }

  ghost predicate Before(pre: seq<Mark>, runs: seq<Run>, k: nat)
    requires k <= |runs|
  {
    k < |runs| ==> (forall m :: m in pre ==> m.lit < runs[k].lit) && (|runs| == 1 ==> pre == [])
  }

  ghost predicate Within(ms: seq<Mark>, n: nat) {
    forall m :: m in ms ==> m.lit < n
  }

  /** From group `k` on, whatever came before: reproduced if and only if every pair was
      kept and the zeros of every group trail. */
  lemma {:induction false} SiblingFrom(els: seq<Decimal>, runs: seq<Run>, k: nat, perRun: bool, pre: seq<Mark>,
      lits: seq<Lit>, slot: string, sch: Schema)
    requires k <= |runs| && RunsFit(runs, |lits|) && |lits| <= NO_BOUND && SizesAgree(runs, perRun)
    requires |els| == Total(runs[k..]) && Before(pre, runs, k) && Within(pre, |lits|)
    requires HitsFrom(els, runs, k, perRun, lits, slot, sch).Some?
    ensures var ms := HitMarks(HitsFrom(els, runs, k, perRun, lits, slot, sch).value);
            var kept := pre + InVocab(ms, slot, sch.pairs);
            && Within(kept, |lits|)
            && (Reproduces(SiblingValues(kept, GroupsOf(runs), k, lits), els) <==>
              AllKept(ms, slot, sch.pairs) && GroupsTrail(els, runs, k))
    decreases |runs| - k
  {
    hide UnaryValue, UnaryMap, NumEq, HitMarks, InVocab, Reproduces, ZerosTrail, GroupHits, AllKept, GroupWindow,
      GroupsOf, Filled;
    if k == |runs| {
      EmptyGroups(pre, slot, sch.pairs, els);
    } else {
      TotalStep(runs, k);
      var n := runs[k].times;
      var lo, hi := Start(runs, k, perRun), Bound(runs, k + 1, |lits|);
      var hs := GroupHits(els[..n], lits, lo, hi, slot, sch).value;
      var rest := HitsFrom(els[n..], runs, k + 1, perRun, lits, slot, sch).value;
      var here, after := InVocab(HitMarks(hs), slot, sch.pairs), InVocab(HitMarks(rest), slot, sch.pairs);
      var ms := pre + here + after;
      // what group k and the groups after it were labelled with
      GroupHitsSound(els[..n], lits, lo, hi, slot, sch);
      HitMarksInside(hs, Nonzeros(els[..n]), lits, lo, hi);
      KeptInside(HitMarks(hs), slot, sch.pairs, lo, hi);
      HitsInside(els[n..], runs, k + 1, perRun, lits, slot, sch);
      KeptInside(HitMarks(rest), slot, sch.pairs, LowEnd(runs, k + 1, perRun, |lits|), |lits|);
      HitMarksConcat(hs, rest);
      KeptOfConcat(HitMarks(hs), HitMarks(rest), slot, sch.pairs);
      assert pre + (here + after) == ms;
      // what the decoder makes of them
      GroupSeen(runs, k, perRun, pre, here, after, |lits|);
      SiblingFrom(els[n..], runs, k + 1, perRun, pre + here, lits, slot, sch);
      FillIff(els[..n], lits, lo, hi, slot, sch);
      GroupsOfAt(runs, k);
      FilledLength(here, n, lits);
      SplitReproduces(Filled(here, n, lits), SiblingValues(ms, GroupsOf(runs), k + 1, lits), els, n);
    }
  }

  lemma EmptyGroups(pre: seq<Mark>, slot: string, vocab: seq<Pair>, els: seq<Decimal>)
    ensures HitMarks([]) == [] && InVocab([], slot, vocab) == [] && AllKept([], slot, vocab) && pre + [] == pre
    ensures els == [] ==> Reproduces([], els)
  {
  }

  lemma GroupsOfAt(runs: seq<Run>, k: nat)
    requires k < |runs|
    ensures |GroupsOf(runs)| == |runs| && GroupsOf(runs)[k].times == runs[k].times
  {
  }

  lemma FilledLength(hit: seq<Mark>, n: nat, lits: seq<Lit>)
    requires forall m :: m in hit ==> m.lit < |lits|
    ensures |Filled(hit, n, lits)| == n
  {
  }

  // ---- the whole sibling

  lemma {:induction false} TotalAtLeast(runs: seq<Run>, n: nat)
    requires RunsFit(runs, n)
    ensures Total(runs) >= |runs|
    ensures Total(runs) == |runs| ==> forall k :: 0 <= k < |runs| ==> runs[k].times == 1
    decreases |runs|
  {
    if runs != [] {
      var tail := runs[1..];
      TotalAtLeast(tail, n);
      if Total(runs) == |runs| {
        forall k | 0 <= k < |runs| ensures runs[k].times == 1 {
          if k > 0 {
            assert runs[k] == tail[k - 1];
          }
        }
      }
    }
  }

  lemma {:induction false} NoHits(els: seq<Decimal>, lits: seq<Lit>, lo: nat, hi: nat, slot: string, sch: Schema)
    requires hi <= |lits| && GroupHits(els, lits, lo, hi, slot, sch).None?
    ensures exists i :: 0 <= i < |els| && Value(els[i]) != 0.0
    decreases |els|
  {
    if Value(els[0]) == 0.0 {
      NoHits(els[1..], lits, lo, hi, slot, sch);
      var i :| 0 <= i < |els| - 1 && Value(els[1..][i]) != 0.0;
      assert Value(els[i + 1]) != 0.0;
    }
  }

  /** An unexplained sibling has an element that is not zero. */
  lemma {:induction false} NoHitsFrom(els: seq<Decimal>, runs: seq<Run>, k: nat, perRun: bool, lits: seq<Lit>,
      slot: string, sch: Schema)
    requires k <= |runs| && RunsFit(runs, |lits|)
    requires HitsFrom(els, runs, k, perRun, lits, slot, sch).None?
    ensures exists i :: 0 <= i < |els| && Value(els[i]) != 0.0
    decreases |runs| - k
  {
    hide UnaryValue, GroupHits;
    var n := if Size(runs, k, perRun) <= |els| then Size(runs, k, perRun) else |els|;
    var lo, hi := Start(runs, k, perRun), Bound(runs, k + 1, |lits|);
    if GroupHits(els[..n], lits, lo, hi, slot, sch).None? {
      NoHits(els[..n], lits, lo, hi, slot, sch);
      var i :| 0 <= i < n && Value(els[..n][i]) != 0.0;
      assert Value(els[i]) != 0.0;
    } else {
      NoHitsFrom(els[n..], runs, k + 1, perRun, lits, slot, sch);
      var i :| 0 <= i < |els| - n && Value(els[n..][i]) != 0.0;
      assert Value(els[n + i]) != 0.0;
    }
  }

  lemma {:induction false} NoMarksAllZero(gs: seq<Group>, k: nat, lits: seq<Lit>)
    requires k <= |gs|
    ensures forall v :: v in SiblingValues([], gs, k, lits) ==> v == Some(0.0)
    decreases |gs| - k
  {
    hide UnaryValue;
    if k < |gs| {
      NoMarksAllZero(gs, k + 1, lits);
      assert GroupWindow([], gs, k) == [];
    }
  }

  /** The marks of a sibling; none when it is unexplained. */
  function SiblingMarks(els: seq<Decimal>, runs: seq<Run>, lits: seq<Lit>, slot: string, sch: Schema): seq<Mark>
    requires RunsFit(runs, |lits|)
  {
    match SiblingHits(els, runs, lits, slot, sch) case None => [] case Some(hits) => HitMarks(hits)
  }

  /** What a caller checks: the sibling was labelled, nothing was dropped, it has an element
      for each copy of the anchor's elements, and in each group the zeros come last. */
  ghost predicate SiblingCovered(els: seq<Decimal>, runs: seq<Run>, lits: seq<Lit>, slot: string, sch: Schema)
    requires RunsFit(runs, |lits|)
  {
    && SiblingHits(els, runs, lits, slot, sch).Some?
    && AllKept(SiblingMarks(els, runs, lits, slot, sch), slot, sch.pairs)
    && |els| == Total(runs)
    && GroupsTrail(els, runs, 0)
  }

  /** A sibling array is reproduced if and only if it is covered. In particular one that is
      as long as the number of runs is labelled, yet never reproduced when a run repeats. */
  lemma {:induction false} SiblingIff(els: seq<Decimal>, runs: seq<Run>, lits: seq<Lit>, slot: string, sch: Schema)
    requires RunsFit(runs, |lits|) && |lits| <= NO_BOUND
    ensures var kept := InVocab(SiblingMarks(els, runs, lits, slot, sch), slot, sch.pairs);
            && Within(kept, |lits|)
            && (Reproduces(SiblingValues(kept, GroupsOf(runs), 0, lits), els) <==>
              SiblingCovered(els, runs, lits, slot, sch))
  {
    hide UnaryValue, UnaryMap, NumEq, HitMarks, InVocab, SiblingValues, HitsFrom, GroupsOf, GroupsTrail, AllKept;
    var kept := InVocab(SiblingMarks(els, runs, lits, slot, sch), slot, sch.pairs);
    var perRun := |els| == |runs|;
    assert runs[0..] == runs;
    TotalAtLeast(runs, |lits|);
    EmptyGroups(kept, slot, sch.pairs, els);
    assert [] + kept == kept;
    if SiblingHits(els, runs, lits, slot, sch).Some? {
      HitsInside(els, runs, 0, perRun, lits, slot, sch);
      KeptInside(SiblingMarks(els, runs, lits, slot, sch), slot, sch.pairs, LowEnd(runs, 0, perRun, |lits|), |lits|);
    }
    SiblingLength(kept, runs, 0, lits);
    if |els| == Total(runs) {
      if HitsFrom(els, runs, 0, perRun, lits, slot, sch).Some? {
        SiblingFrom(els, runs, 0, perRun, [], lits, slot, sch);
      } else {
        NoHitsFrom(els, runs, 0, perRun, lits, slot, sch);
        NoMarksAllZero(GroupsOf(runs), 0, lits);
        var i :| 0 <= i < |els| && Value(els[i]) != 0.0;
        ZeroMatches(els[i]);
        assert SiblingValues(kept, GroupsOf(runs), 0, lits)[i] in SiblingValues(kept, GroupsOf(runs), 0, lits);
      }
    }
  }
}
