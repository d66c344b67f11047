/** How the labeller reads arrays: which element starts a run at which literal, which literals a
    group of a sibling gets, and that it fails only when an element has none. */
module ArrayReading {
  import opened Corpus
  import opened Decimals
  import opened Labels
  import opened Options

  // ---- the anchor

  /** Element `i` is read from the first literal from `from` on that gives it, as `Find` decides. */
  predicate ReadFrom(els: seq<Decimal>, i: nat, lits: seq<Lit>, from: nat, hi: nat, slot: string, sch: Schema, h: Hit)
    requires i < |els| && hi <= |lits|
  {
    Value(els[i]) != 0.0 && Find(els[i], lits, from, hi, slot, sch) == Some(h)
  }

  /** No literal from `from` on states element `i`; a zero is stated by none. */
  predicate NotRead(els: seq<Decimal>, i: nat, lits: seq<Lit>, from: nat, hi: nat, slot: string, sch: Schema)
    requires i < |els| && hi <= |lits|
  {
    Value(els[i]) != 0.0 ==> Find(els[i], lits, from, hi, slot, sch) == None
  }

  /** Element `i` repeats the one before it and no literal after `last` states it. */
  predicate Repeats(els: seq<Decimal>, i: nat, lits: seq<Lit>, last: nat, slot: string, sch: Schema)
    requires i < |els|
  {
    i > 0 && Value(els[i]) == Value(els[i - 1]) && NotRead(els, i, lits, last + 1, |lits|, slot, sch)
  }

  /** One past the literal of run `k - 1`. */
  function After(runs: seq<Run>, k: nat): nat
    requires k <= |runs|
  {
    if k == 0 then 0 else runs[k - 1].lit + 1
  }

  /** Where run `k` ends, when run `j` starts at element `at[j]`. */
  function EndOf(at: seq<nat>, k: nat, n: nat): nat
    requires k < |at|
  {
    if k + 1 < |at| then at[k + 1] else n
  }

  /** Run `k` starts at its element and the rest of it repeats that one without a literal. */
  ghost predicate RunAt(els: seq<Decimal>, lits: seq<Lit>, slot: string, sch: Schema, runs: seq<Run>, at: seq<nat>,
      k: nat)
    requires |at| == |runs| && k < |runs|
  {
    && at[k] < EndOf(at, k, |els|) <= |els| && at[k] + runs[k].times == EndOf(at, k, |els|)
    && ReadFrom(els, at[k], lits, After(runs, k), |lits|, slot, sch, Hit(runs[k].lit, runs[k].p))
    && forall i :: at[k] < i < EndOf(at, k, |els|) ==> Repeats(els, i, lits, runs[k].lit, slot, sch)
  }

  ghost predicate ReadAs(els: seq<Decimal>, lits: seq<Lit>, slot: string, sch: Schema, runs: seq<Run>, at: seq<nat>) {
    && |at| == |runs| && (els == [] <==> runs == []) && (runs != [] ==> at[0] == 0)
    && forall k :: 0 <= k < |runs| ==> RunAt(els, lits, slot, sch, runs, at, k)
  }

  lemma FindPrefix(els: seq<Decimal>, init: seq<Decimal>, i: nat, lits: seq<Lit>, from: nat, slot: string, sch: Schema)
    requires i < |init| && init <= els
    ensures els[i] == init[i]
    ensures NotRead(els, i, lits, from, |lits|, slot, sch) == NotRead(init, i, lits, from, |lits|, slot, sch)
    ensures forall h ::
      ReadFrom(els, i, lits, from, |lits|, slot, sch, h) == ReadFrom(init, i, lits, from, |lits|, slot, sch, h)
  {
    hide Find, Value;
  }

  /** An earlier run is not touched by one more element. */
  lemma RunStays(els: seq<Decimal>, init: seq<Decimal>, lits: seq<Lit>, slot: string, sch: Schema, runs: seq<Run>,
      at: seq<nat>, runs': seq<Run>, at': seq<nat>, k: nat)
    requires |at| == |runs| && |at'| == |runs'| && k < |runs| && k < |runs'|
    requires RunAt(init, lits, slot, sch, runs, at, k)
    requires init <= els && runs'[..k + 1] == runs[..k + 1] && at'[..k + 1] == at[..k + 1]
    requires EndOf(at', k, |els|) == EndOf(at, k, |init|)
    ensures RunAt(els, lits, slot, sch, runs', at', k)
  {
    hide ReadFrom, NotRead, Value;
    assert runs'[k] == runs'[..k + 1][k] && at'[k] == at'[..k + 1][k];
    assert After(runs', k) == After(runs, k) by {
      if k > 0 {
        assert runs'[k - 1] == runs'[..k + 1][k - 1] == runs[k - 1];
      }
    }
    FindPrefix(els, init, at[k], lits, After(runs, k), slot, sch);
    forall i | at[k] < i < EndOf(at, k, |init|) ensures Repeats(els, i, lits, runs[k].lit, slot, sch) {
      assert Repeats(init, i, lits, runs[k].lit, slot, sch);
      FindPrefix(els, init, i, lits, runs[k].lit + 1, slot, sch);
      FindPrefix(els, init, i - 1, lits, runs[k].lit + 1, slot, sch);
    }
  }

  /** An anchor that is read is read left to right: an element from the first literal after the last
      run's that gives it, else as one more copy of the element before. */
  lemma {:induction false} AnchorRead(els: seq<Decimal>, lits: seq<Lit>, slot: string, sch: Schema)
    returns (at: seq<nat>)
    requires Runs(els, lits, slot, sch).Some?
    ensures ReadAs(els, lits, slot, sch, Runs(els, lits, slot, sch).value, at)
    decreases |els|
  {
    hide Find, Value, ReadAs;
    at := [];
    if els == [] {
      NothingRead(lits, slot, sch);
    } else {
      var n := |els| - 1;
      var init, e := els[..n], els[n];
      at := AnchorRead(init, lits, slot, sch);
      var runs := Runs(init, lits, slot, sch).value;
      var hit := if Value(e) == 0.0 then None else Find(e, lits, NextLit(runs), |lits|, slot, sch);
      if hit.Some? {
        OneRunMore(els, lits, slot, sch, runs, at, hit.value);
        at := at + [n];
      } else {
        OneCopyMore(els, lits, slot, sch, runs, at);
      }
    }
  }

  lemma NothingRead(lits: seq<Lit>, slot: string, sch: Schema)
    ensures ReadAs([], lits, slot, sch, [], [])
  {
  }

  /** One more element that a literal states. */
  lemma OneRunMore(els: seq<Decimal>, lits: seq<Lit>, slot: string, sch: Schema, runs: seq<Run>, at: seq<nat>, h: Hit)
    requires els != [] && ReadAs(els[..|els| - 1], lits, slot, sch, runs, at)
    requires ReadFrom(els, |els| - 1, lits, After(runs, |runs|), |lits|, slot, sch, h)
    ensures ReadAs(els, lits, slot, sch, runs + [Run(h.lit, h.p, 1)], at + [|els| - 1])
  {
    hide Find, Value, RunAt, ReadFrom;
    var n := |els| - 1;
    var now, at' := runs + [Run(h.lit, h.p, 1)], at + [n];
    assert After(now, |runs|) == After(runs, |runs|);
    forall k | 0 <= k < |now| ensures RunAt(els, lits, slot, sch, now, at', k) {
      if k < |runs| {
        RunStays(els, els[..n], lits, slot, sch, runs, at, now, at', k);
      } else {
        NewRun(els, lits, slot, sch, now, at');
      }
    }
  }

  /** One more copy of the element before. */
  lemma OneCopyMore(els: seq<Decimal>, lits: seq<Lit>, slot: string, sch: Schema, runs: seq<Run>, at: seq<nat>)
    requires |els| > 1 && runs != [] && ReadAs(els[..|els| - 1], lits, slot, sch, runs, at)
    requires Repeats(els, |els| - 1, lits, runs[|runs| - 1].lit, slot, sch)
    ensures ReadAs(els, lits, slot, sch, runs[|runs| - 1 := runs[|runs| - 1].(times := runs[|runs| - 1].times + 1)], at)
  {
    hide Find, Value, RunAt, Repeats;
    var last := |runs| - 1;
    var now := runs[last := runs[last].(times := runs[last].times + 1)];
    forall k | 0 <= k < |now| ensures RunAt(els, lits, slot, sch, now, at, k) {
      if k < last {
        RunStays(els, els[..|els| - 1], lits, slot, sch, runs, at, now, at, k);
      } else {
        LongerRun(els, lits, slot, sch, runs, now, at);
      }
    }
  }

  lemma NewRun(els: seq<Decimal>, lits: seq<Lit>, slot: string, sch: Schema, runs: seq<Run>, at: seq<nat>)
    requires els != [] && |at| == |runs| > 0 && at[|at| - 1] == |els| - 1 && runs[|runs| - 1].times == 1
    requires var r := runs[|runs| - 1];
      ReadFrom(els, |els| - 1, lits, After(runs, |runs| - 1), |lits|, slot, sch, Hit(r.lit, r.p))
    ensures RunAt(els, lits, slot, sch, runs, at, |runs| - 1)
  {
    hide ReadFrom, NotRead, Value;
  }

  lemma LongerRun(els: seq<Decimal>, lits: seq<Lit>, slot: string, sch: Schema, runs: seq<Run>, now: seq<Run>,
      at: seq<nat>)
    requires |els| > 1 && runs != [] && |at| == |runs| && RunAt(els[..|els| - 1], lits, slot, sch, runs, at, |runs| - 1)
    requires now == runs[|runs| - 1 := runs[|runs| - 1].(times := runs[|runs| - 1].times + 1)]
    requires Repeats(els, |els| - 1, lits, runs[|runs| - 1].lit, slot, sch)
    ensures RunAt(els, lits, slot, sch, now, at, |runs| - 1)
  {
    hide ReadFrom, NotRead, Value;
    var k, init := |runs| - 1, els[..|els| - 1];
    FindPrefix(els, init, at[k], lits, After(runs, k), slot, sch);
    forall i | at[k] < i < |els| ensures Repeats(els, i, lits, runs[k].lit, slot, sch) {
      if i < |init| {
        assert Repeats(init, i, lits, runs[k].lit, slot, sch);
        FindPrefix(els, init, i, lits, runs[k].lit + 1, slot, sch);
        FindPrefix(els, init, i - 1, lits, runs[k].lit + 1, slot, sch);
      }
    }
  }

  /** An anchor is refused only at an element that no literal after the last run's gives and that is
      no copy of the element before. */
  lemma {:induction false} AnchorRefused(els: seq<Decimal>, lits: seq<Lit>, slot: string, sch: Schema)
    returns (i: nat, at: seq<nat>, runs: seq<Run>)
    requires Runs(els, lits, slot, sch) == None
    ensures i < |els| && ReadAs(els[..i], lits, slot, sch, runs, at)
    ensures NotRead(els, i, lits, After(runs, |runs|), |lits|, slot, sch)
    ensures i == 0 || Value(els[i]) != Value(els[i - 1])
    decreases |els|
  {
    hide Find, Value, ReadAs;
    var init := els[..|els| - 1];
    if Runs(init, lits, slot, sch).None? {
      i, at, runs := AnchorRefused(init, lits, slot, sch);
      assert init[..i] == els[..i];
      assert els[i] == init[i] && (i > 0 ==> els[i - 1] == init[i - 1]);
    } else {
      i, runs := |els| - 1, Runs(init, lits, slot, sch).value;
      at := AnchorRead(init, lits, slot, sch);
      SomeRuns(init, lits, slot, sch, runs, at);
    }
  }

  lemma SomeRuns(els: seq<Decimal>, lits: seq<Lit>, slot: string, sch: Schema, runs: seq<Run>, at: seq<nat>)
    requires ReadAs(els, lits, slot, sch, runs, at)
    ensures els == [] <==> runs == []
  {
  }

  // ---- one group of a sibling

  /** The elements that are not zero, in order. */
  function NonZeros(els: seq<Decimal>): seq<Decimal> {
    if els == [] then [] else (if Value(els[0]) == 0.0 then [] else [els[0]]) + NonZeros(els[1..])
  }

  /** Where the literal of the next element is looked for. */
  function Next(hs: seq<Hit>, j: nat, lo: nat): nat
    requires j <= |hs|
  {
    if j == 0 then lo else hs[j - 1].lit + 1
  }

  /** Each element is read from the first literal after the one before it that gives it. */
  ghost predicate InTurn(nz: seq<Decimal>, lits: seq<Lit>, lo: nat, hi: nat, slot: string, sch: Schema, hs: seq<Hit>)
    requires hi <= |lits|
  {
    |hs| <= |nz| && forall j :: 0 <= j < |hs| ==> TurnAt(nz, lits, lo, hi, slot, sch, hs, j)
  }

  /** A group gets a literal for every element that is not zero, in turn within its window; it fails
      exactly when one of them has none. */
  lemma {:induction false} GroupRead(els: seq<Decimal>, lits: seq<Lit>, lo: nat, hi: nat, slot: string, sch: Schema)
    returns (hs: seq<Hit>)
    requires hi <= |lits|
    ensures InTurn(NonZeros(els), lits, lo, hi, slot, sch, hs)
    ensures var nz := NonZeros(els);
      match GroupHits(els, lits, lo, hi, slot, sch)
      case Some(r) => r == hs && |hs| == |nz|
      case None => |hs| < |nz| && Find(nz[|hs|], lits, Next(hs, |hs|, lo), hi, slot, sch) == None
    decreases |els|
  {
    hide Find, Value, InTurn, Next;
    hs := [];
    NoneInTurn(NonZeros(els), lits, lo, hi, slot, sch);
    if els != [] {
      var rest := els[1..];
      if Value(els[0]) == 0.0 {
        hs := GroupRead(rest, lits, lo, hi, slot, sch);
        assert [] + NonZeros(rest) == NonZeros(rest);
      } else {
        var h := Find(els[0], lits, lo, hi, slot, sch);
        if h.Some? {
          var more := GroupRead(rest, lits, h.value.lit + 1, hi, slot, sch);
          hs := [h.value] + more;
          TurnCons(els[0], NonZeros(rest), lits, lo, hi, slot, sch, h.value, more);
          NextCons(h.value, more, |more|, lo);
        }
      }
    }
  }

  lemma NoneInTurn(nz: seq<Decimal>, lits: seq<Lit>, lo: nat, hi: nat, slot: string, sch: Schema)
    requires hi <= |lits|
    ensures InTurn(nz, lits, lo, hi, slot, sch, []) && Next([], 0, lo) == lo
  {
  }

  lemma NextCons(h: Hit, more: seq<Hit>, j: nat, lo: nat)
    requires j <= |more|
    ensures Next([h] + more, j + 1, lo) == Next(more, j, h.lit + 1)
  {
  }

  predicate TurnAt(nz: seq<Decimal>, lits: seq<Lit>, lo: nat, hi: nat, slot: string, sch: Schema, hs: seq<Hit>, j: nat)
    requires hi <= |lits| && j < |hs| <= |nz|
  {
    Find(nz[j], lits, Next(hs, j, lo), hi, slot, sch) == Some(hs[j])
  }

  lemma TurnCons(e: Decimal, nz: seq<Decimal>, lits: seq<Lit>, lo: nat, hi: nat, slot: string, sch: Schema, h: Hit,
      more: seq<Hit>)
    requires hi <= |lits| && Find(e, lits, lo, hi, slot, sch) == Some(h)
    requires InTurn(nz, lits, h.lit + 1, hi, slot, sch, more)
    ensures InTurn([e] + nz, lits, lo, hi, slot, sch, [h] + more)
  {
    hide Find, Next;
    var all, hs := [e] + nz, [h] + more;
    forall j | 0 <= j < |hs| ensures TurnAt(all, lits, lo, hi, slot, sch, hs, j) {
      if j == 0 {
        FirstNext(hs, lo);
      } else {
        assert TurnAt(nz, lits, h.lit + 1, hi, slot, sch, more, j - 1);
        NextCons(h, more, j - 1, lo);
      }
    }
  }

  lemma FirstNext(hs: seq<Hit>, lo: nat)
    ensures Next(hs, 0, lo) == lo
  {
  }

  // ---- a sibling

  /** How many elements belong to the runs before run `k`: one each, or one a copy. */
  function Before(runs: seq<Run>, perRun: bool, k: nat): nat
    requires k <= |runs|
  {
    if k == 0 then 0 else Before(runs, perRun, k - 1) + if perRun then 1 else runs[k - 1].times
  }

  lemma {:induction false} BeforeGrows(runs: seq<Run>, perRun: bool, j: nat, k: nat)
    requires j <= k <= |runs|
    ensures Before(runs, perRun, j) <= Before(runs, perRun, k)
    decreases k - j
  {
    if j < k {
      BeforeGrows(runs, perRun, j, k - 1);
    }
  }

  lemma {:induction false} BeforeEach(runs: seq<Run>, k: nat)
    requires k <= |runs|
    ensures Before(runs, true, k) == k
  {
    if k > 0 {
      BeforeEach(runs, k - 1);
    }
  }

  lemma {:induction false} BeforeTotal(runs: seq<Run>, k: nat)
    requires k <= |runs|
    ensures Before(runs, false, k) + Total(runs[k..]) == Before(runs, false, |runs|)
    decreases |runs| - k
  {
    if k < |runs| {
      BeforeTotal(runs, k + 1);
      assert runs[k..][1..] == runs[k + 1..];
    } else {
      assert runs[k..] == [];
    }
  }

  /** The elements of run `k`, and its window: from its own literal, or from the first when it is the
      only run and owns several, to the next run's. */
  function Share(els: seq<Decimal>, runs: seq<Run>, perRun: bool, k: nat): seq<Decimal>
    requires k < |runs| && |els| == Before(runs, perRun, |runs|)
  {
    BeforeGrows(runs, perRun, k + 1, |runs|);
    els[Before(runs, perRun, k)..Before(runs, perRun, k + 1)]
  }

  function From(runs: seq<Run>, perRun: bool, k: nat): nat
    requires k < |runs|
  {
    if |runs| == 1 && !perRun then 0 else runs[k].lit
  }

  function Until(runs: seq<Run>, k: nat, n: nat): (hi: nat)
    requires k < |runs| && RunsFit(runs, n)
    ensures hi <= n
  {
    if k == |runs| - 1 then n else runs[k + 1].lit
  }

  function Joined(parts: seq<seq<Hit>>): seq<Hit> {
    if parts == [] then [] else parts[0] + Joined(parts[1..])
  }

  ghost predicate PartsOf(els: seq<Decimal>, runs: seq<Run>, perRun: bool, lits: seq<Lit>, slot: string, sch: Schema,
      k: nat, parts: seq<seq<Hit>>)
    requires k <= |runs| && RunsFit(runs, |lits|) && |els| == Before(runs, perRun, |runs|)
  {
    |parts| == |runs| - k && forall j :: 0 <= j < |parts| ==>
      GroupHits(Share(els, runs, perRun, k + j), lits, From(runs, perRun, k + j), Until(runs, k + j, |lits|), slot, sch)
        == Some(parts[j])
  }

  lemma {:induction false} RestRead(els: seq<Decimal>, runs: seq<Run>, perRun: bool, lits: seq<Lit>, slot: string,
      sch: Schema, k: nat)
    returns (parts: seq<seq<Hit>>, g: nat)
    requires k <= |runs| && RunsFit(runs, |lits|) && |els| == Before(runs, perRun, |runs|)
    ensures Before(runs, perRun, k) <= |els|
    ensures match HitsFrom(els[Before(runs, perRun, k)..], runs, k, perRun, lits, slot, sch)
      case Some(hs) => PartsOf(els, runs, perRun, lits, slot, sch, k, parts) && hs == Joined(parts)
      case None =>
        g < |runs| &&
        GroupHits(Share(els, runs, perRun, g), lits, From(runs, perRun, g), Until(runs, g, |lits|), slot, sch) == None
    decreases |runs| - k
  {
    hide GroupHits, RunsFit;
    parts, g := [], 0;
    BeforeGrows(runs, perRun, k, |runs|);
    if k < |runs| {
      BeforeGrows(runs, perRun, k + 1, |runs|);
      var b, c := Before(runs, perRun, k), Before(runs, perRun, k + 1);
      var here := els[b..];
      assert here[..c - b] == els[b..c] && here[c - b..] == els[c..];
      var r := GroupHits(els[b..c], lits, From(runs, perRun, k), Until(runs, k, |lits|), slot, sch);
      if r.None? {
        g := k;
      } else {
        parts, g := RestRead(els, runs, perRun, lits, slot, sch, k + 1);
        var more := parts;
        parts := [r.value] + more;
        assert parts[1..] == more;
        PartsCons(els, runs, perRun, lits, slot, sch, k, r.value, more);
      }
    }
  }

  lemma PartsCons(els: seq<Decimal>, runs: seq<Run>, perRun: bool, lits: seq<Lit>, slot: string, sch: Schema, k: nat,
      part: seq<Hit>, more: seq<seq<Hit>>)
    requires k < |runs| && RunsFit(runs, |lits|) && |els| == Before(runs, perRun, |runs|)
    requires var lo, hi := From(runs, perRun, k), Until(runs, k, |lits|);
      GroupHits(Share(els, runs, perRun, k), lits, lo, hi, slot, sch) == Some(part)
    ensures PartsOf(els, runs, perRun, lits, slot, sch, k + 1, more) ==>
      PartsOf(els, runs, perRun, lits, slot, sch, k, [part] + more)
  {
    hide GroupHits, RunsFit, Share, From, Until;
    var parts := [part] + more;
    if PartsOf(els, runs, perRun, lits, slot, sch, k + 1, more) {
      forall j | 0 <= j < |parts|
        ensures GroupHits(Share(els, runs, perRun, k + j), lits, From(runs, perRun, k + j), Until(runs, k + j, |lits|),
          slot, sch) == Some(parts[j])
      {
        if j > 0 {
          assert k + j == k + 1 + (j - 1) && parts[j] == more[j - 1];
        }
      }
    }
  }

  /** A sibling is read when it has an element for every run or for every copy, and then group by
      group; otherwise it is refused, and so it is when one of its groups is. */
  lemma SiblingRead(els: seq<Decimal>, runs: seq<Run>, lits: seq<Lit>, slot: string, sch: Schema)
    returns (parts: seq<seq<Hit>>, g: nat)
    requires RunsFit(runs, |lits|)
    ensures var perRun, r := |els| == |runs|, SiblingHits(els, runs, lits, slot, sch);
      if |els| != |runs| && |els| != Before(runs, false, |runs|) then r == None
      else
        && |els| == Before(runs, perRun, |runs|)
        && match r
           case Some(hs) => PartsOf(els, runs, perRun, lits, slot, sch, 0, parts) && hs == Joined(parts)
           case None =>
             g < |runs| && var lo, hi := From(runs, perRun, g), Until(runs, g, |lits|);
             GroupHits(Share(els, runs, perRun, g), lits, lo, hi, slot, sch) == None
  {
    hide GroupHits, HitsFrom, RunsFit;
    parts, g := [], 0;
    BeforeEach(runs, |runs|);
    BeforeTotal(runs, 0);
    assert runs[0..] == runs && els[0..] == els;
    if |els| == |runs| || |els| == Before(runs, false, |runs|) {
      parts, g := RestRead(els, runs, |els| == |runs|, lits, slot, sch, 0);
    }
  }

  // ---- what the arrays claim

  /** The arrays' literals are claimed, and no others. */
  lemma {:induction false} ClaimsAre(f: Facts, sch: Schema, n: nat, li: nat)
    requires n <= |f.fields|
    ensures li in ArrayClaims(f, sch, n) <==>
      exists k: nat, m :: k < n && f.fields[k].gold.Arr? && ArrayMarks(f, sch, k).Some? &&
        m in ArrayMarks(f, sch, k).value && m.lit == li
    decreases n
  {
    hide ArrayMarks;
    if n > 0 {
      ClaimsAre(f, sch, n - 1, li);
    }
  }
}
