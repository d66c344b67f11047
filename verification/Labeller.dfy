/** The label builder itself: loops that fill each literal's pairs in place, proved to
    produce the labels described in `Labels`. */
module Labeller {
  import opened Corpus
  import opened Decimals
  import opened KeptLabels
  import opened Labels
  import opened Matching
  import opened Options
  import RowRoundTrip
  import opened ScalarRoundTrip

  // ---- one element

  method FindLiteral(e: Decimal, lits: seq<Lit>, lo: nat, hi: nat, slot: string, sch: Schema) returns (r: Option<Hit>)
    requires lo <= hi <= |lits|
    ensures r == Find(e, lits, lo, hi, slot, sch)
  {
    hide ExactHit, Known;
    var fallback: Option<Hit> := None;
    for j := lo to hi
      invariant FindFrom(e, lits, lo, hi, slot, sch, true) == FindFrom(e, lits, j, hi, slot, sch, true)
      invariant FindFrom(e, lits, lo, hi, slot, sch, false) ==
                if fallback.Some? then fallback else FindFrom(e, lits, j, hi, slot, sch, false)
    {
      var known := Simplest(e, lits[j], slot, sch, true, 0);
      if known.Some? {
        return Some(Hit(j, known.value));
      }
      if fallback.None? {
        var any := Simplest(e, lits[j], slot, sch, false, 0);
        if any.Some? {
          fallback := Some(Hit(j, any.value));
        }
      }
    }
    return fallback;
  }

  // ---- pairs, literal by literal

  /** Every literal carries exactly the pairs of the slots done so far. */
  ghost predicate Holds(pairs: seq<set<Pair>>, done: map<string, seq<Mark>>) {
    forall li, p :: 0 <= li < |pairs| ==> (p in pairs[li] <==> p.slot in done && Mark(li, p.role) in done[p.slot])
  }

  method AddMarks(pairs: array<set<Pair>>, slot: string, ms: seq<Mark>, ghost done: map<string, seq<Mark>>)
    requires slot !in done && Holds(pairs[..], done)
    requires forall m :: m in ms ==> m.lit < pairs.Length
    modifies pairs
    ensures Holds(pairs[..], done[slot := ms])
  {
    for i := 0 to |ms|
      invariant Holds(pairs[..], done[slot := ms[..i]])
    {
      var m := ms[i];
      ghost var before := pairs[..];
      pairs[m.lit] := pairs[m.lit] + {Pair(slot, m.role)};
      PairsPut(before, pairs[..], done, slot, ms, i);
    }
    assert ms[..|ms|] == ms;
  }

  lemma PairsPut(before: seq<set<Pair>>, after: seq<set<Pair>>, done: map<string, seq<Mark>>, slot: string,
      ms: seq<Mark>, i: nat)
    requires i < |ms| && ms[i].lit < |before| && Holds(before, done[slot := ms[..i]])
    requires after == before[ms[i].lit := before[ms[i].lit] + {Pair(slot, ms[i].role)}]
    ensures Holds(after, done[slot := ms[..i + 1]])
  {
    var m := ms[i];
    forall li, p | 0 <= li < |after|
      ensures p in after[li] <==>
        p.slot in done[slot := ms[..i + 1]] && Mark(li, p.role) in done[slot := ms[..i + 1]][p.slot]
    {
      assert ms[..i + 1] == ms[..i] + [m];
      assert p == Pair(p.slot, p.role);
      assert (li == m.lit && p == Pair(slot, m.role)) <==> (p.slot == slot && Mark(li, p.role) == m);
    }
  }

  // ---- arrays

  lemma {:induction false} RunsOfPrefix(els: seq<Decimal>, lits: seq<Lit>, slot: string, sch: Schema, i: nat)
    requires i <= |els| && Runs(els[..i], lits, slot, sch).None?
    ensures Runs(els, lits, slot, sch).None?
    decreases |els| - i
  {
    if i == |els| {
      assert els[..i] == els;
    } else {
      assert els[..i + 1][..i] == els[..i];
      RunsOfPrefix(els, lits, slot, sch, i + 1);
    }
  }

  method ReadAnchor(els: seq<Decimal>, lits: seq<Lit>, slot: string, sch: Schema) returns (r: Option<seq<Run>>)
    ensures r == Runs(els, lits, slot, sch)
  {
    hide Runs, Extend, Find, Known, ExactHit, Value;
    EmptyRead(lits, slot, sch);
    var runs: seq<Run>, ptr := [], 0;
    for i := 0 to |els|
      invariant Runs(els[..i], lits, slot, sch) == Some(runs) && ptr == NextLit(runs) <= |lits|
    {
      RunsNext(els, i, runs, lits, slot, sch);
      var hit := None;
      if Value(els[i]) != 0.0 {
        hit := FindLiteral(els[i], lits, ptr, |lits|, slot, sch);
      }
      Extending(runs, hit, i > 0 && Value(els[i]) == Value(els[i - 1]), |lits|);
      if hit.Some? {
        runs := runs + [Run(hit.value.lit, hit.value.p, 1)];
        ptr := hit.value.lit + 1;
      } else if i > 0 && runs != [] && Value(els[i]) == Value(els[i - 1]) {
        var last := runs[|runs| - 1];
        runs := runs[|runs| - 1 := last.(times := last.times + 1)];
      } else {
        RunsOfPrefix(els, lits, slot, sch, i + 1);
        return None;
      }
    }
    assert els[..|els|] == els;
    return Some(runs);
  }

  lemma EmptyRead(lits: seq<Lit>, slot: string, sch: Schema)
    ensures Runs([], lits, slot, sch) == Some([])
  {
  }

  lemma RunsNext(els: seq<Decimal>, i: nat, runs: seq<Run>, lits: seq<Lit>, slot: string, sch: Schema)
    requires i < |els| && Runs(els[..i], lits, slot, sch) == Some(runs)
    ensures RunsFit(runs, |lits|) && NextLit(runs) <= |lits|
    ensures var hit := if Value(els[i]) == 0.0 then None else Find(els[i], lits, NextLit(runs), |lits|, slot, sch);
      Runs(els[..i + 1], lits, slot, sch) == Extend(runs, hit, i > 0 && Value(els[i]) == Value(els[i - 1]), |lits|)
  {
    hide Value, Find, Extend;
    assert els[..i + 1][..i] == els[..i];
  }

  lemma Extending(runs: seq<Run>, hit: Option<Hit>, repeats: bool, n: nat)
    requires RunsFit(runs, n) && (hit.Some? ==> NextLit(runs) <= hit.value.lit < n)
    ensures Extend(runs, hit, repeats, n) ==
      if hit.Some? then Some(runs + [Run(hit.value.lit, hit.value.p, 1)])
      else if repeats && runs != [] then
        var last := runs[|runs| - 1];
        Some(runs[|runs| - 1 := last.(times := last.times + 1)])
      else None
  {
  }

  /** What has been found so far, then the rest. */
  function Then(found: seq<Hit>, rest: Option<seq<Hit>>): Option<seq<Hit>> {
    match rest case None => None case Some(hs) => Some(found + hs)
  }

  lemma ThenEnds(a: seq<Hit>, rest: Option<seq<Hit>>)
    ensures Then([], rest) == rest && Then(a, Some([])) == Some(a)
  {
    assert a + [] == a;
    if rest.Some? {
      assert [] + rest.value == rest.value;
    }
  }

  lemma ThenThen(a: seq<Hit>, h: Hit, rest: Option<seq<Hit>>)
    ensures Then(a, Then([h], rest)) == Then(a + [h], rest)
  {
    if rest.Some? {
      assert a + ([h] + rest.value) == (a + [h]) + rest.value;
    }
  }

  /** One group: its non-zero elements at the next literals of the window. */
  method LabelGroup(els: seq<Decimal>, lits: seq<Lit>, start: nat, hi: nat, slot: string, sch: Schema)
    returns (r: Option<seq<Hit>>)
    requires start <= hi <= |lits|
    ensures r == GroupHits(els, lits, start, hi, slot, sch)
  {
    hide FindFrom, Known, ExactHit, Find;
    var found: seq<Hit>, lo: nat := [], start;
    assert els[0..] == els;
    ThenEnds(found, GroupHits(els, lits, lo, hi, slot, sch));
    for i := 0 to |els|
      invariant lo <= hi
      invariant GroupHits(els, lits, start, hi, slot, sch) == Then(found, GroupHits(els[i..], lits, lo, hi, slot, sch))
    {
      assert els[i..][1..] == els[i + 1..];
      if Value(els[i]) != 0.0 {
        var hit := FindLiteral(els[i], lits, lo, hi, slot, sch);
        if hit.None? {
          return None;
        }
        ThenThen(found, hit.value, GroupHits(els[i + 1..], lits, hit.value.lit + 1, hi, slot, sch));
        FindInWindow(els[i], lits, lo, hi, slot, sch);
        found := found + [hit.value];
        lo := hit.value.lit + 1;
      }
    }
    ThenEnds(found, None);
    return Some(found);
  }

  lemma FindInWindow(e: Decimal, lits: seq<Lit>, lo: nat, hi: nat, slot: string, sch: Schema)
    requires hi <= |lits|
    ensures var r := Find(e, lits, lo, hi, slot, sch); r.Some? ==> lo <= r.value.lit < hi
  {
  }

  lemma ThenGroup(a: seq<Hit>, b: seq<Hit>, rest: Option<seq<Hit>>)
    ensures Then(a, Then(b, rest)) == Then(a + b, rest)
  {
    if rest.Some? {
      assert a + (b + rest.value) == (a + b) + rest.value;
    }
  }

  /** Every other array, group by group. */
  method LabelSibling(els: seq<Decimal>, runs: seq<Run>, lits: seq<Lit>, slot: string, sch: Schema)
    returns (r: Option<seq<Hit>>)
    requires RunsFit(runs, |lits|)
    ensures r == SiblingHits(els, runs, lits, slot, sch)
  {
    hide GroupHits;
    var total := 0;
    for k := 0 to |runs|
      invariant total + Total(runs[k..]) == Total(runs)
    {
      assert runs[k..][1..] == runs[k + 1..];
      total := total + runs[k].times;
    }
    assert runs[|runs|..] == [] && Total(runs) == total;
    if |els| != |runs| && |els| != total {
      return None;
    }
    var perRun := |els| == |runs|;
    var found: seq<Hit>, rest := [], els;
    ThenEnds(found, HitsFrom(els, runs, 0, perRun, lits, slot, sch));
    for k := 0 to |runs|
      invariant HitsFrom(els, runs, 0, perRun, lits, slot, sch) ==
        Then(found, HitsFrom(rest, runs, k, perRun, lits, slot, sch))
    {
      var n := if Size(runs, k, perRun) <= |rest| then Size(runs, k, perRun) else |rest|;
      var hits := LabelGroup(rest[..n], lits, Start(runs, k, perRun), Bound(runs, k + 1, |lits|), slot, sch);
      if hits.None? {
        return None;
      }
      ThenGroup(found, hits.value, HitsFrom(rest[n..], runs, k + 1, perRun, lits, slot, sch));
      found := found + hits.value;
      rest := rest[n..];
    }
    ThenEnds(found, None);
    return Some(found);
  }

  // ---- progress over the fields

  /** The slots done so far hold their final marks, and every field in `ks` with marks is done. */
  ghost predicate DoneFor(f: Facts, sch: Schema, done: map<string, seq<Mark>>, ks: set<nat>) {
    && (forall slot :: slot in done ==> FieldNamed(f.fields, slot) in ks && done[slot] == MarksOf(f, sch, slot))
    && (forall k :: k in ks ==> k < |f.fields| && (FieldMarks(f, sch, k) != [] ==> f.fields[k].Name() in done))
  }

  /** The fields in `ks`, and only they, have the route they are to have. */
  ghost predicate RoutesFor(f: Facts, sch: Schema, route: map<string, Route>, ks: set<nat>) {
    forall n :: var k := FieldNamed(f.fields, n);
      && (n in route <==> k < |f.fields| && k in ks && RouteOf(f, sch, k).Some?)
      && (n in route ==> route[n] == RouteOf(f, sch, k).value)
  }

  lemma NamedAt(f: Facts, k: nat)
    requires DistinctNames(f) && k < |f.fields|
    ensures FieldNamed(f.fields, f.fields[k].Name()) == k
  {
  }

  lemma {:induction false} OneMoreRoute(f: Facts, sch: Schema, route: map<string, Route>, ks: set<nat>, k: nat)
    requires DistinctNames(f) && k < |f.fields| && k !in ks
    requires RoutesFor(f, sch, route, ks)
    ensures RouteOf(f, sch, k).Some? ==>
      RoutesFor(f, sch, route[f.fields[k].Name() := RouteOf(f, sch, k).value], ks + {k})
    ensures RouteOf(f, sch, k).None? ==> RoutesFor(f, sch, route, ks + {k})
  {
    hide RouteOf;
    NamedAt(f, k);
  }

  lemma {:induction false} OneMoreDone(f: Facts, sch: Schema, done: map<string, seq<Mark>>, ks: set<nat>, k: nat)
    requires DistinctNames(f) && k < |f.fields| && k !in ks && DoneFor(f, sch, done, ks)
    ensures f.fields[k].Name() !in done
    ensures DoneFor(f, sch, done[f.fields[k].Name() := FieldMarks(f, sch, k)], ks + {k})
    ensures FieldMarks(f, sch, k) == [] ==> DoneFor(f, sch, done, ks + {k})
  {
    hide FieldMarks;
    NamedAt(f, k);
  }

  /** The fields in `ks` are labelled and routed, and nothing else is. */
  ghost predicate Progress(f: Facts, sch: Schema, pairs: seq<set<Pair>>, route: map<string, Route>, ks: set<nat>) {
    |pairs| == |f.lits| && RoutesFor(f, sch, route, ks) && exists done ::
      Holds(pairs, done) && DoneFor(f, sch, done, ks)
  }

  /** Labels one more field. */
  method PlaceField(f: Facts, sch: Schema, k: nat, ms: seq<Mark>, r: Route, pairs: array<set<Pair>>,
      route: map<string, Route>, ghost ks: set<nat>)
    returns (route': map<string, Route>)
    requires DistinctNames(f) && k < |f.fields| && k !in ks && Progress(f, sch, pairs[..], route, ks)
    requires ms == FieldMarks(f, sch, k) && RouteOf(f, sch, k) == Some(r)
    modifies pairs
    ensures Progress(f, sch, pairs[..], route', ks + {k})
  {
    hide FieldMarks, RouteOf, Holds, DoneFor, RoutesFor, InOrder;
    ghost var done :| Holds(pairs[..], done) && DoneFor(f, sch, done, ks);
    OneMoreDone(f, sch, done, ks, k);
    OneMoreRoute(f, sch, route, ks, k);
    RowRoundTrip.FieldMarksInOrder(f, sch, k);
    OrderInRange(ms, |f.lits|);
    AddMarks(pairs, f.fields[k].Name(), ms, done);
    route' := route[f.fields[k].Name() := r];
  }

  lemma OrderInRange(ms: seq<Mark>, n: nat)
    requires InOrder(ms, n)
    ensures forall m :: m in ms ==> m.lit < n
  {
  }

  /** A field without pairs only gets its route, if any. */
  lemma {:induction false} RouteOnly(f: Facts, sch: Schema, k: nat, pairs: seq<set<Pair>>, route: map<string, Route>,
      ks: set<nat>)
    requires DistinctNames(f) && k < |f.fields| && k !in ks && Progress(f, sch, pairs, route, ks)
    requires FieldMarks(f, sch, k) == []
    ensures RouteOf(f, sch, k).Some? ==>
      Progress(f, sch, pairs, route[f.fields[k].Name() := RouteOf(f, sch, k).value], ks + {k})
    ensures RouteOf(f, sch, k).None? ==> Progress(f, sch, pairs, route, ks + {k})
  {
    hide FieldMarks, RouteOf, Holds, DoneFor, RoutesFor;
    var done :| Holds(pairs, done) && DoneFor(f, sch, done, ks);
    OneMoreDone(f, sch, done, ks, k);
    OneMoreRoute(f, sch, route, ks, k);
  }

  /** Once every field is placed, the row is labelled. */
  lemma {:induction false} AllPlaced(f: Facts, sch: Schema, pairs: seq<set<Pair>>, route: map<string, Route>,
      ks: set<nat>)
    requires DistinctNames(f) && Progress(f, sch, pairs, route, ks) && forall k: nat :: k < |f.fields| ==> k in ks
    ensures Labelled(f, sch, pairs)
  {
    hide FieldMarks, RouteOf;
    var done :| Holds(pairs, done) && DoneFor(f, sch, done, ks);
    forall slot, li, r | 0 <= li < |pairs|
      ensures Pair(slot, r) in pairs[li] <==> Mark(li, r) in MarksOf(f, sch, slot)
    {
      assert Pair(slot, r) in pairs[li] <==> slot in done && Mark(li, r) in done[slot];
      var k := FieldNamed(f.fields, slot);
      assert k < |f.fields| ==> k in ks;
    }
  }

  // ---- all arrays of a row

  ghost function Arrays(f: Facts, n: nat): set<nat> {
    set k: nat | k < n && k < |f.fields| && f.fields[k].gold.Arr?
  }

  method LabelArrays(f: Facts, sch: Schema, pairs: array<set<Pair>>, route: map<string, Route>)
    returns (route': map<string, Route>)
    requires DistinctNames(f) && FirstArray(f.fields) < |f.fields| && Progress(f, sch, pairs[..], route, {})
    modifies pairs
    ensures Progress(f, sch, pairs[..], route', Arrays(f, |f.fields|))
  {
    hide Progress, Runs, HitsFrom, IsPlain, BothPasses, Conventions, DistinctNames;
    route' := route;
    var a := FirstArray(f.fields);
    var anchor := f.fields[a];
    var read := ReadAnchor(anchor.gold.els, f.lits, anchor.Name(), sch);
    assert Arrays(f, a) == {};
    for k := a to |f.fields|
      invariant Progress(f, sch, pairs[..], route', Arrays(f, k))
    {
      var fd := f.fields[k];
      assert Arrays(f, k + 1) == if fd.gold.Arr? then Arrays(f, k) + {k} else Arrays(f, k);
      if fd.gold.Arr? {
        if read.None? {
          RouteOnly(f, sch, k, pairs[..], route', Arrays(f, k));
          if k == a {
            route' := route'[fd.Name() := Unexplained];
          }
        } else if k == a {
          route' := PlaceField(f, sch, k, RunMarks(read.value), AnchorArray, pairs, route', Arrays(f, k));
        } else {
          var hits := LabelSibling(fd.gold.els, read.value, f.lits, fd.Name(), sch);
          if hits.None? {
            RouteOnly(f, sch, k, pairs[..], route', Arrays(f, k));
            route' := route'[fd.Name() := Unexplained];
          } else {
            route' := PlaceField(f, sch, k, HitMarks(hits.value), GroupArray, pairs, route', Arrays(f, k));
          }
        }
      }
    }
  }

  // ---- what the arrays claim

  lemma {:induction false} ArrayClaimsAre(f: Facts, sch: Schema, n: nat, i: nat)
    requires n <= |f.fields|
    ensures i in ArrayClaims(f, sch, n) <==> exists k ::
      0 <= k < n && f.fields[k].gold.Arr? && i in MarkLits(FieldMarks(f, sch, k))
    decreases n
  {
    hide ArrayMarks, BothPasses, Conventions;
    if n > 0 {
      ArrayClaimsAre(f, sch, n - 1, i);
      if i in ArrayClaims(f, sch, n) && i !in ArrayClaims(f, sch, n - 1) {
        assert i in MarkLits(FieldMarks(f, sch, n - 1));
      }
    }
  }

  lemma {:induction false} ClaimedLiterals(f: Facts, sch: Schema, pairs: seq<set<Pair>>, route: map<string, Route>,
      i: nat)
    requires DistinctNames(f) && Progress(f, sch, pairs, route, Arrays(f, |f.fields|)) && i < |pairs|
    ensures pairs[i] != {} <==> i in ArrayClaims(f, sch, |f.fields|)
  {
    hide FieldMarks, RoutesFor, ArrayClaims, Fact.Name;
    ArrayClaimsAre(f, sch, |f.fields|, i);
    var done :| Holds(pairs, done) && DoneFor(f, sch, done, Arrays(f, |f.fields|));
    if pairs[i] != {} {
      var p :| p in pairs[i];
      var k := FieldNamed(f.fields, p.slot);
      assert k in Arrays(f, |f.fields|) && Mark(i, p.role) in FieldMarks(f, sch, k);
      assert i in MarkLits(FieldMarks(f, sch, k));
    }
    if k :| 0 <= k < |f.fields| && f.fields[k].gold.Arr? && i in MarkLits(FieldMarks(f, sch, k)) {
      var m :| m in FieldMarks(f, sch, k) && m.lit == i;
      NamedAt(f, k);
      assert k in Arrays(f, |f.fields|);
      assert Pair(f.fields[k].Name(), m.role) in pairs[i];
    }
  }

  lemma {:induction false} ClaimsInRange(f: Facts, sch: Schema, n: nat)
    requires DistinctNames(f) && n <= |f.fields|
    ensures forall i :: i in ArrayClaims(f, sch, n) ==> i < |f.lits|
    decreases n
  {
    hide ArrayMarks, BothPasses, Conventions, InOrder;
    if n > 0 {
      ClaimsInRange(f, sch, n - 1);
      RowRoundTrip.FieldMarksInOrder(f, sch, n - 1);
      OrderInRange(FieldMarks(f, sch, n - 1), |f.lits|);
    }
  }

  // ---- a row

  /** The fields settled once the first `n` have been looked at: arrays, categories and
      plain numbers that nothing explains. */
  ghost function Settled(f: Facts, sch: Schema, n: nat): set<nat> {
    set k: nat | k < |f.fields| && (f.fields[k].gold.Arr? || (k < n && SettledAtOnce(f, sch, k)))
  }

  ghost predicate SettledAtOnce(f: Facts, sch: Schema, k: nat)
    requires k < |f.fields|
  {
    f.fields[k].gold.Cat? || (f.fields[k].gold.Num? && IsPlain(f, sch, k) && Candidates(f, sch, k, true) == [])
  }

  /** Then the plain numbers among the first `n`. */
  ghost function Pointed(f: Facts, sch: Schema, n: nat): set<nat> {
    Settled(f, sch, |f.fields|) + set k: nat | k < n && k < |f.fields| && f.fields[k].gold.Num? && IsPlain(f, sch, k)
  }

  /** Then the convention values that point, and those among the first `n` that do not. */
  ghost function Finished(f: Facts, sch: Schema, chosen: map<string, Cand>, n: nat): set<nat> {
    Pointed(f, sch, |f.fields|) +
    set k: nat | k < |f.fields| && f.fields[k].gold.Num? && !IsPlain(f, sch, k) &&
      (f.fields[k].Name() in chosen || k < n)
  }

  /** The labels of fields that need no matching, and the ranked choices of the others. */
  method Collect(f: Facts, sch: Schema, pairs: array<set<Pair>>, route: map<string, Route>)
    returns (route': map<string, Route>, conv: map<string, ClassText>, plain: seq<Entry>, convs: seq<Entry>)
    requires DistinctNames(f) && Progress(f, sch, pairs[..], route, Arrays(f, |f.fields|))
    ensures Progress(f, sch, pairs[..], route', Settled(f, sch, |f.fields|))
    ensures conv == ClassLabels(f, sch, |f.fields|)
    ensures plain == Entries(f, sch, |f.fields|, true) && convs == Entries(f, sch, |f.fields|, false)
  {
    hide Progress, FieldMarks, RouteOf, Candidates, DistinctNames, IsConvention, EntriesOf, ClassOf;
    route', conv, plain, convs := route, map[], [], [];
    assert Settled(f, sch, 0) == Arrays(f, |f.fields|);
    for k := 0 to |f.fields|
      invariant Progress(f, sch, pairs[..], route', Settled(f, sch, k))
      invariant conv == ClassLabels(f, sch, k)
      invariant plain == Entries(f, sch, k, true) && convs == Entries(f, sch, k, false)
    {
      var fd := f.fields[k];
      NothingToAdd(f, sch, k);
      assert Settled(f, sch, k + 1) ==
        if SettledAtOnce(f, sch, k) then Settled(f, sch, k) + {k} else Settled(f, sch, k);
      if SettledAtOnce(f, sch, k) {
        AtOnce(f, sch, k);
        RouteOnly(f, sch, k, pairs[..], route', Settled(f, sch, k));
      }
      if fd.gold.Cat? {
        conv := conv[fd.Name() := ClassOf(fd.gold)];
        route' := route'[fd.Name() := CategoryClass];
      } else if fd.gold.Num? {
        if IsConvention(sch, fd.Name(), ClassOf(fd.gold)) {
          conv := conv[fd.Name() := ClassOf(fd.gold)];
          convs := convs + EntriesOf(f, sch, k, Candidates(f, sch, k, false));
        } else {
          var cands := Candidates(f, sch, k, true);
          plain := plain + EntriesOf(f, sch, k, cands);
          if cands == [] {
            route' := route'[fd.Name() := Unexplained];
          }
        }
      }
    }
  }

  lemma {:induction false} AtOnce(f: Facts, sch: Schema, k: nat)
    requires DistinctNames(f) && k < |f.fields| && SettledAtOnce(f, sch, k)
    ensures k !in Settled(f, sch, k) && FieldMarks(f, sch, k) == []
    ensures RouteOf(f, sch, k) == Some(if f.fields[k].gold.Cat? then CategoryClass else Unexplained)
  {
    hide BothPasses, Conventions, Candidates, IsPlain, ArrayMarks;
    if f.fields[k].gold.Num? {
      ChosenExactly(f, sch, k);
    }
  }

  lemma NothingToAdd(f: Facts, sch: Schema, k: nat)
    requires k < |f.fields|
    ensures !(f.fields[k].gold.Num? && IsPlain(f, sch, k)) ==> EntriesOf(f, sch, k, Candidates(f, sch, k, true)) == []
    ensures !(f.fields[k].gold.Num? && !IsPlain(f, sch, k)) ==> EntriesOf(f, sch, k, Candidates(f, sch, k, false)) == []
  {
  }

  /** First and second pass over the ranked choices. */
  method ChooseAll(es: seq<Entry>, arrays: set<nat>) returns (s: Match)
    ensures s == ShareOut(es, Claim(es, arrays))
  {
    s := Match(map[], arrays);
    for i := 0 to |es|
      invariant s == Claim(es[..i], arrays)
    {
      assert es[..i + 1][..i] == es[..i];
      if es[i].name !in s.chosen && es[i].cand.Lits() !! s.claimed {
        s := Take(s, es[i]);
      }
    }
    assert es[..|es|] == es;
    for i := 0 to |es|
      invariant s == ShareOut(es[..i], Claim(es, arrays))
    {
      assert es[..i + 1][..i] == es[..i];
      if es[i].name !in s.chosen {
        s := Take(s, es[i]);
      }
    }
  }

  lemma NothingPlaced(f: Facts, sch: Schema, pairs: seq<set<Pair>>)
    requires pairs == seq(|f.lits|, _ => {})
    ensures Progress(f, sch, pairs, map[], {})
  {
    assert Holds(pairs, map[]) && DoneFor(f, sch, map[], {});
  }

  lemma {:induction false} ArrayLiterals(f: Facts, sch: Schema, pairs: seq<set<Pair>>, route: map<string, Route>,
      claimed: set<nat>)
    requires DistinctNames(f) && Progress(f, sch, pairs, route, Arrays(f, |f.fields|))
    requires forall i: nat :: i in claimed <==> i < |pairs| && pairs[i] != {}
    ensures claimed == ArrayClaims(f, sch, |f.fields|)
  {
    hide ArrayClaims, RoutesFor, Holds, DoneFor;
    ClaimsInRange(f, sch, |f.fields|);
    forall i: nat ensures i in claimed <==> i in ArrayClaims(f, sch, |f.fields|) {
      if i < |pairs| {
        ClaimedLiterals(f, sch, pairs, route, i);
      }
    }
  }

  /** The choices of both passes become pairs. */
  method PlacePlain(f: Facts, sch: Schema, chosen: map<string, Cand>, pairs: array<set<Pair>>, route: map<string,
      Route>)
    returns (route': map<string, Route>)
    requires DistinctNames(f) && chosen == BothPasses(f, sch).chosen
    requires Progress(f, sch, pairs[..], route, Settled(f, sch, |f.fields|))
    modifies pairs
    ensures Progress(f, sch, pairs[..], route', Pointed(f, sch, |f.fields|))
  {
    hide Progress, ArrayMarks, BothPasses, Conventions, Candidates, DistinctNames, IsPlain, CandMarks;
    route' := route;
    assert Pointed(f, sch, 0) == Settled(f, sch, |f.fields|);
    for k := 0 to |f.fields|
      invariant Progress(f, sch, pairs[..], route', Pointed(f, sch, k))
    {
      var n := f.fields[k].Name();
      if f.fields[k].gold.Num? {
        ChosenExactly(f, sch, k);
      }
      if f.fields[k].gold.Num? && n in chosen {
        assert Pointed(f, sch, k + 1) == Pointed(f, sch, k) + {k};
        route' := PlaceField(f, sch, k, CandMarks(chosen[n]), PointedAt(chosen[n].Exact(), chosen[n].Two?), pairs,
          route', Pointed(f, sch, k));
      } else {
        assert Pointed(f, sch, k + 1) == Pointed(f, sch, k);
      }
    }
  }

  lemma {:induction false} ConventionEntry(f: Facts, sch: Schema, es: seq<Entry>, claimed: set<nat>, i: nat)
    requires DistinctNames(f) && es == Ranked(f, sch, false) && claimed == BothPasses(f, sch).claimed && i < |es|
    ensures var e := es[i];
            && e.order < |f.fields| && e.name == f.fields[e.order].Name()
            && f.fields[e.order].gold.Num? && !IsPlain(f, sch, e.order)
            && (var m := Claim(es[..i], claimed);
                e.name !in m.chosen && e.cand.Lits() !! m.claimed ==>
                  e.name in Conventions(f, sch).chosen && Conventions(f, sch).chosen[e.name] == e.cand)
    ensures forall n :: n in Claim(es[..i], claimed).chosen ==> n in Conventions(f, sch).chosen
  {
    hide Entries, BothPasses, IsPlain, Tier, Pool, Sort;
    SameEntries(Entries(f, sch, |f.fields|, false), es[i]);
    EntryOrigin(f, sch, |f.fields|, false, es[i]);
    ClaimGrows(es, claimed, i);
    ClaimGrows(es, claimed, i + 1);
    assert es[..i + 1][..i] == es[..i];
  }

  /** Convention values point at what is still free. */
  method PlaceFree(f: Facts, sch: Schema, es: seq<Entry>, claimed: set<nat>, pairs: array<set<Pair>>,
      route: map<string, Route>)
    returns (m: Match, route': map<string, Route>)
    requires DistinctNames(f) && es == Ranked(f, sch, false) && claimed == BothPasses(f, sch).claimed
    requires Progress(f, sch, pairs[..], route, Pointed(f, sch, |f.fields|))
    modifies pairs
    ensures m == Conventions(f, sch) && Progress(f, sch, pairs[..], route', Finished(f, sch, m.chosen, 0))
  {
    hide Progress, ArrayMarks, BothPasses, Ranked, Candidates, IsPlain, CandMarks, Pointed, Finished, Claim;
    route' := route;
    m := Match(map[], claimed);
    NothingFinished(f, sch);
    NothingClaimed(es, claimed);
    for i := 0 to |es|
      invariant m == Claim(es[..i], claimed)
      invariant Progress(f, sch, pairs[..], route', Finished(f, sch, m.chosen, 0))
    {
      var e := es[i];
      ClaimStep(es, claimed, i);
      ConventionEntry(f, sch, es, claimed, i);
      if e.name !in m.chosen && e.cand.Lits() !! m.claimed {
        ChosenExactly(f, sch, e.order);
        OneMoreFinished(f, sch, m.chosen, e);
        route' := PlaceField(f, sch, e.order, CandMarks(e.cand), NumberClassAndPoint, pairs, route',
          Finished(f, sch, m.chosen, 0));
        m := Take(m, e);
      }
    }
    assert es[..|es|] == es;
  }

  lemma NothingFinished(f: Facts, sch: Schema)
    ensures Finished(f, sch, map[], 0) == Pointed(f, sch, |f.fields|)
  {
    hide IsPlain;
  }

  lemma NothingClaimed(es: seq<Entry>, claimed: set<nat>)
    ensures Claim(es[..0], claimed) == Match(map[], claimed)
  {
  }

  lemma ClaimStep(es: seq<Entry>, claimed: set<nat>, i: nat)
    requires i < |es|
    ensures var s, e := Claim(es[..i], claimed), es[i];
      Claim(es[..i + 1], claimed) == if e.name !in s.chosen && e.cand.Lits() !! s.claimed then Take(s, e) else s
  {
    assert es[..i + 1][..i] == es[..i];
  }

  /** Convention values point at what is still free, and keep their class either way. */
  method PlaceConventions(f: Facts, sch: Schema, es: seq<Entry>, claimed: set<nat>, pairs: array<set<Pair>>,
      route: map<string, Route>)
    returns (route': map<string, Route>)
    requires DistinctNames(f) && es == Ranked(f, sch, false) && claimed == BothPasses(f, sch).claimed
    requires Progress(f, sch, pairs[..], route, Pointed(f, sch, |f.fields|))
    modifies pairs
    ensures Progress(f, sch, pairs[..], route', Finished(f, sch, Conventions(f, sch).chosen, |f.fields|))
  {
    hide Progress, ArrayMarks, BothPasses, Ranked, Candidates, IsPlain, CandMarks, Pointed, Claim;
    var m;
    m, route' := PlaceFree(f, sch, es, claimed, pairs, route);
    for k := 0 to |f.fields|
      invariant Progress(f, sch, pairs[..], route', Finished(f, sch, m.chosen, k))
    {
      var fd := f.fields[k];
      if fd.gold.Num? && !IsPlain(f, sch, k) && fd.Name() !in m.chosen {
        assert Finished(f, sch, m.chosen, k + 1) == Finished(f, sch, m.chosen, k) + {k};
        NotFinished(f, sch, m.chosen, k);
        ChosenExactly(f, sch, k);
        RouteOnly(f, sch, k, pairs[..], route', Finished(f, sch, m.chosen, k));
        route' := route'[fd.Name() := NumberClass];
      } else {
        assert Finished(f, sch, m.chosen, k + 1) == Finished(f, sch, m.chosen, k);
      }
    }
  }

  lemma {:induction false} OneMoreFinished(f: Facts, sch: Schema, chosen: map<string, Cand>, e: Entry)
    requires DistinctNames(f) && e.order < |f.fields| && e.name == f.fields[e.order].Name() && e.name !in chosen
    requires f.fields[e.order].gold.Num? && !IsPlain(f, sch, e.order)
    ensures e.order !in Finished(f, sch, chosen, 0)
    ensures Finished(f, sch, chosen[e.name := e.cand], 0) == Finished(f, sch, chosen, 0) + {e.order}
  {
    hide IsPlain, Candidates;
  }

  lemma NotFinished(f: Facts, sch: Schema, chosen: map<string, Cand>, k: nat)
    requires k < |f.fields| && f.fields[k].gold.Num? && !IsPlain(f, sch, k) && f.fields[k].Name() !in chosen
    ensures k !in Finished(f, sch, chosen, k)
  {
    hide IsPlain, Candidates;
  }

  lemma {:induction false} EveryFieldFinished(f: Facts, sch: Schema, chosen: map<string, Cand>)
    ensures forall k: nat :: k < |f.fields| ==> k in Finished(f, sch, chosen, |f.fields|)
  {
    hide IsPlain, Candidates;
  }

  lemma {:induction false} RouteAt(f: Facts, sch: Schema, pairs: seq<set<Pair>>, route: map<string, Route>,
      ks: set<nat>, k: nat)
    requires DistinctNames(f) && Progress(f, sch, pairs, route, ks) && k < |f.fields| && k in ks
    ensures var n := f.fields[k].Name();
      (n in route <==> RouteOf(f, sch, k).Some?) && (n in route ==> route[n] == RouteOf(f, sch, k).value)
  {
    hide RouteOf, Holds, DoneFor;
    NamedAt(f, k);
  }

  lemma PassesAre(f: Facts, sch: Schema)
    ensures BothPasses(f, sch) == ShareOut(Sort(Entries(f, sch, |f.fields|, true)),
      Claim(Sort(Entries(f, sch, |f.fields|, true)), ArrayClaims(f, sch, |f.fields|)))
    ensures Ranked(f, sch, false) == Sort(Entries(f, sch, |f.fields|, false))
  {
  }

  /** Name-level labels for one row. */
  method LabelFacts(f: Facts, sch: Schema) returns (lab: RawLabels)
    requires DistinctNames(f)
    ensures f.op.None? ==> lab == RawLabels(seq(|f.lits|, _ => {}), map[], map[])
    ensures f.op.Some? ==> Labelled(f, sch, lab.pairs) && lab.conv == ClassLabels(f, sch, |f.fields|)
    ensures f.op.Some? ==> forall k :: 0 <= k < |f.fields| ==>
              var n := f.fields[k].Name();
              && (n in lab.route <==> RouteOf(f, sch, k).Some?)
              && (n in lab.route ==> lab.route[n] == RouteOf(f, sch, k).value)
  {
    hide Progress, ArrayClaims, BothPasses, Conventions, Labelled, ClassLabels, RouteOf, Entries, Candidates, IsPlain;
    var pairs := new set<Pair>[|f.lits|](_ => {});
    assert pairs[..] == seq(|f.lits|, _ => {});
    if f.op.None? {
      return RawLabels(pairs[..], map[], map[]);
    }
    var route: map<string, Route> := map[];
    NothingPlaced(f, sch, pairs[..]);
    if FirstArray(f.fields) < |f.fields| {
      route := LabelArrays(f, sch, pairs, route);
    }
    assert FirstArray(f.fields) == |f.fields| ==> Arrays(f, |f.fields|) == {};
    var arrays := set i | 0 <= i < pairs.Length && pairs[i] != {};
    ArrayLiterals(f, sch, pairs[..], route, arrays);

    var conv, plain, convs;
    route, conv, plain, convs := Collect(f, sch, pairs, route);
    var s := ChooseAll(Sort(plain), arrays);
    PassesAre(f, sch);
    route := PlacePlain(f, sch, s.chosen, pairs, route);
    route := PlaceConventions(f, sch, Sort(convs), s.claimed, pairs, route);
    ghost var ks := Finished(f, sch, Conventions(f, sch).chosen, |f.fields|);
    EveryFieldFinished(f, sch, Conventions(f, sch).chosen);
    AllPlaced(f, sch, pairs[..], route, ks);
    forall k | 0 <= k < |f.fields|
      ensures var n := f.fields[k].Name();
        (n in route <==> RouteOf(f, sch, k).Some?) && (n in route ==> route[n] == RouteOf(f, sch, k).value)
    {
      RouteAt(f, sch, pairs[..], route, ks, k);
    }
    lab := RawLabels(pairs[..], conv, route);
  }
}
