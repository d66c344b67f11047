/** Labels read only a schema's usage shares and class vocabulary, so they are the same
    before and after the pair vocabulary is fixed. */
module SameLabels {
  import opened Corpus
  import opened Decimals
  import opened Labels
  import opened Maps
  import opened Matching

  /** The two schemas agree on everything labelling reads. */
  ghost predicate Agree(a: Schema, b: Schema) {
    a.compat == b.compat && a.convVocab == b.convVocab && a.constDefault == b.constDefault
  }

  lemma {:induction false} SameSimplest(e: Decimal, lit: Lit, slot: string, a: Schema, b: Schema, known: bool, p: nat)
    requires Agree(a, b) && p <= UNARY_MAPS
    ensures Simplest(e, lit, slot, a, known, p) == Simplest(e, lit, slot, b, known, p)
    decreases UNARY_MAPS - p
  {
    hide ExactHit;
    if p < UNARY_MAPS {
      SameSimplest(e, lit, slot, a, b, known, p + 1);
    }
  }

  lemma {:induction false} SameFindFrom(e: Decimal, lits: seq<Lit>, lo: nat, hi: nat, slot: string, a: Schema,
      b: Schema, known: bool)
    requires Agree(a, b) && hi <= |lits|
    ensures FindFrom(e, lits, lo, hi, slot, a, known) == FindFrom(e, lits, lo, hi, slot, b, known)
    decreases hi - lo
  {
    hide Simplest, ExactHit, Explains;
    if lo < hi {
      SameSimplest(e, lits[lo], slot, a, b, known, 0);
      SameFindFrom(e, lits, lo + 1, hi, slot, a, b, known);
    }
  }

  lemma {:induction false} SameFind(e: Decimal, lits: seq<Lit>, lo: nat, hi: nat, slot: string, a: Schema, b: Schema)
    requires Agree(a, b) && hi <= |lits|
    ensures Find(e, lits, lo, hi, slot, a) == Find(e, lits, lo, hi, slot, b)
  {
    hide FindFrom;
    SameFindFrom(e, lits, lo, hi, slot, a, b, true);
    SameFindFrom(e, lits, lo, hi, slot, a, b, false);
  }

  lemma {:induction false} SameRuns(els: seq<Decimal>, lits: seq<Lit>, slot: string, a: Schema, b: Schema)
    requires Agree(a, b)
    ensures Runs(els, lits, slot, a) == Runs(els, lits, slot, b)
    decreases |els|
  {
    hide Find;
    if els != [] {
      SameRuns(els[..|els| - 1], lits, slot, a, b);
      var before := Runs(els[..|els| - 1], lits, slot, a);
      if before.Some? {
        SameFind(els[|els| - 1], lits, NextLit(before.value), |lits|, slot, a, b);
      }
    }
  }

  lemma {:induction false} SameGroupHits(els: seq<Decimal>, lits: seq<Lit>, lo: nat, hi: nat, slot: string, a: Schema,
      b: Schema)
    requires Agree(a, b) && hi <= |lits|
    ensures GroupHits(els, lits, lo, hi, slot, a) == GroupHits(els, lits, lo, hi, slot, b)
    decreases |els|
  {
    hide Find;
    if els != [] {
      SameFind(els[0], lits, lo, hi, slot, a, b);
      var h := Find(els[0], lits, lo, hi, slot, a);
      SameGroupHits(els[1..], lits, lo, hi, slot, a, b);
      if h.Some? {
        SameGroupHits(els[1..], lits, h.value.lit + 1, hi, slot, a, b);
      }
    }
  }

  lemma {:induction false} SameHitsFrom(els: seq<Decimal>, runs: seq<Run>, k: nat, perRun: bool, lits: seq<Lit>,
      slot: string, a: Schema, b: Schema)
    requires Agree(a, b) && k <= |runs| && RunsFit(runs, |lits|)
    ensures HitsFrom(els, runs, k, perRun, lits, slot, a) == HitsFrom(els, runs, k, perRun, lits, slot, b)
    decreases |runs| - k
  {
    hide GroupHits;
    if k < |runs| {
      var n := if Size(runs, k, perRun) <= |els| then Size(runs, k, perRun) else |els|;
      SameGroupHits(els[..n], lits, Start(runs, k, perRun), Bound(runs, k + 1, |lits|), slot, a, b);
      SameHitsFrom(els[n..], runs, k + 1, perRun, lits, slot, a, b);
    }
  }

  lemma {:induction false} SameArrays(f: Facts, a: Schema, b: Schema, k: nat)
    requires Agree(a, b) && k < |f.fields| && f.fields[k].gold.Arr?
    ensures AnchorRuns(f, a) == AnchorRuns(f, b) && ArrayMarks(f, a, k) == ArrayMarks(f, b, k)
  {
    hide Runs, HitsFrom, HitMarks, RunMarks;
    var first := FirstArray(f.fields);
    SameRuns(f.fields[first].gold.els, f.lits, f.fields[first].Name(), a, b);
    var runs := AnchorRuns(f, a);
    if runs.Some? {
      var els := f.fields[k].gold.els;
      SameHitsFrom(els, runs.value, 0, |els| == |runs.value|, f.lits, f.fields[k].Name(), a, b);
    }
  }

  lemma {:induction false} SameClaims(f: Facts, a: Schema, b: Schema, n: nat)
    requires Agree(a, b) && n <= |f.fields|
    ensures ArrayClaims(f, a, n) == ArrayClaims(f, b, n)
    decreases n
  {
    hide ArrayMarks, AnchorRuns, MarkLits;
    if n > 0 {
      SameClaims(f, a, b, n - 1);
      if f.fields[n - 1].gold.Arr? {
        SameArrays(f, a, b, n - 1);
      }
    }
  }

  lemma {:induction false} SameKnownOnly(f: Facts, a: Schema, b: Schema, slot: string, cs: seq<Cand>)
    requires Agree(a, b) && forall c :: c in cs ==> c.One? && c.i < |f.lits|
    ensures KnownOnly(f, a, slot, cs) == KnownOnly(f, b, slot, cs)
    decreases |cs|
  {
    if cs != [] {
      SameKnownOnly(f, a, b, slot, cs[..|cs| - 1]);
    }
  }

  lemma {:induction false} SameCandidates(f: Facts, a: Schema, b: Schema, k: nat, plain: bool)
    requires Agree(a, b) && k < |f.fields|
    ensures IsPlain(f, a, k) == IsPlain(f, b, k) && Candidates(f, a, k, plain) == Candidates(f, b, k, plain)
  {
    hide KnownOnly, UnaryCands, Tier, Sound;
    if f.fields[k].gold.Num? {
      var v := f.fields[k].gold.d;
      SameKnownOnly(f, a, b, f.fields[k].Name(), UnaryCands(v, f.lits, true));
      SameKnownOnly(f, a, b, f.fields[k].Name(), UnaryCands(v, f.lits, false));
    }
  }

  lemma {:induction false} SameEntriesOf(f: Facts, a: Schema, b: Schema, k: nat, cs: seq<Cand>)
    requires Agree(a, b) && k < |f.fields| && forall c :: c in cs ==> InRange(c, |f.lits|)
    ensures EntriesOf(f, a, k, cs) == EntriesOf(f, b, k, cs)
  {
  }

  lemma {:induction false} SameEntries(f: Facts, a: Schema, b: Schema, n: nat, plain: bool)
    requires Agree(a, b) && n <= |f.fields|
    ensures Entries(f, a, n, plain) == Entries(f, b, n, plain)
    decreases n
  {
    hide Candidates, EntriesOf;
    if n > 0 {
      SameEntries(f, a, b, n - 1, plain);
      SameCandidates(f, a, b, n - 1, plain);
      SameEntriesOf(f, a, b, n - 1, Candidates(f, a, n - 1, plain));
    }
  }

  /** Fixing the pair vocabulary changes no label, no class and no route. */
  lemma {:induction false} SameField(f: Facts, a: Schema, b: Schema, k: nat)
    requires Agree(a, b) && k < |f.fields|
    ensures FieldMarks(f, a, k) == FieldMarks(f, b, k)
    ensures RouteOf(f, a, k) == RouteOf(f, b, k)
    ensures HasClass(f, a, k) == HasClass(f, b, k)
  {
    hide Entries, ArrayClaims, ArrayMarks, AnchorRuns, CandMarks, IsPlain, Sort, Claim, ShareOut;
    SameEntries(f, a, b, |f.fields|, true);
    SameEntries(f, a, b, |f.fields|, false);
    SameClaims(f, a, b, |f.fields|);
    SameCandidates(f, a, b, k, true);
    if f.fields[k].gold.Arr? {
      SameArrays(f, a, b, k);
    }
  }

  lemma {:induction false} SameClasses(f: Facts, a: Schema, b: Schema, n: nat)
    requires Agree(a, b) && n <= |f.fields|
    ensures ClassLabels(f, a, n) == ClassLabels(f, b, n)
    decreases n
  {
    hide HasClass, ClassOf, FieldMarks, RouteOf;
    if n > 0 {
      SameClasses(f, a, b, n - 1);
      SameField(f, a, b, n - 1);
    }
  }
}
