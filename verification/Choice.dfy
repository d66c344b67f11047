/** Which literal a plain number's label points at: the label said in terms of what the
    literals hit, without the candidate lists and the ranking. */
module Choice {
  import opened Corpus
  import opened Decimals
  import opened Greedy
  import opened Labels
  import opened Maps
  import opened Matching
  import opened Options
  import ProvisionalSchema
  import opened RowRoundTrip
  import opened ScalarRoundTrip

  // ---- what the literals offer

  /** Literal `i` gives the number exactly through map `p`. */
  predicate HitsExactly(v: Decimal, lits: seq<Lit>, i: nat, p: MapIndex) {
    i < |lits| && ExactHit(v, lits[i], p)
  }

  /** Two different literals give the number, which is not zero. */
  predicate TwoGive(v: Decimal, lits: seq<Lit>, a: nat, b: nat, q: BinaryIndex) {
    Value(v) != 0.0 && a < |lits| && b < |lits| && a != b && BinaryHit(v, lits[a], lits[b], q)
  }

  /** Literal `i` gives the number at its own precision only. */
  predicate HitsNearly(v: Decimal, lits: seq<Lit>, i: nat, p: MapIndex) {
    i < |lits| && ApproxHit(v, lits[i], p)
  }

  ghost predicate SomeExact(v: Decimal, lits: seq<Lit>) {
    exists i, p :: HitsExactly(v, lits, i, p)
  }

  ghost predicate SomeTwo(v: Decimal, lits: seq<Lit>) {
    exists a, b, q :: TwoGive(v, lits, a, b, q)
  }

  ghost predicate SomeNear(v: Decimal, lits: seq<Lit>) {
    exists i, p :: HitsNearly(v, lits, i, p)
  }

  /** How far off literal `i` is through map `p`. */
  function Miss(v: Decimal, lits: seq<Lit>, i: nat, p: MapIndex): real
    requires i < |lits|
  {
    Abs(Ctx(UnaryValue(UnaryMap(p), lits[i].value) - Value(v)))
  }

  // ---- the candidates

  /** The kind of candidate a plain number gets, and that nothing nearer was passed over. */
  ghost predicate Fitting(v: Decimal, lits: seq<Lit>, c: Cand) {
    if SomeExact(v, lits) then c.One? && c.exact && HitsExactly(v, lits, c.i, c.p)
    else if SomeTwo(v, lits) then c.Two? && TwoGive(v, lits, c.a, c.b, c.q)
    else
      && c.One? && !c.exact && HitsNearly(v, lits, c.i, c.p)
      && forall j, r :: HitsNearly(v, lits, j, r) ==> Miss(v, lits, c.i, c.p) <= Miss(v, lits, j, r)
  }

  lemma ExactListed(v: Decimal, lits: seq<Lit>)
    ensures UnaryCands(v, lits, true) != [] <==> SomeExact(v, lits)
  {
    hide UnaryCands, ExactHit;
    var cs := UnaryCands(v, lits, true);
    if cs != [] {
      assert cs[0] in cs;
      assert HitsExactly(v, lits, cs[0].i, cs[0].p);
    }
    if i, p :| HitsExactly(v, lits, i, p) {
      assert One(i, p, true, 0.0) in cs;
    }
  }

  lemma TwoListed(v: Decimal, lits: seq<Lit>)
    ensures BinaryCands(v, lits) != [] <==> SomeTwo(v, lits)
  {
    hide BinaryCands, BinaryHit;
    var cs := BinaryCands(v, lits);
    if cs != [] {
      assert cs[0] in cs;
      assert TwoGive(v, lits, cs[0].a, cs[0].b, cs[0].q);
    }
    if a, b, q :| TwoGive(v, lits, a, b, q) {
      assert Two(a, b, q) in cs;
    }
  }

  lemma NearListed(v: Decimal, lits: seq<Lit>)
    ensures UnaryCands(v, lits, false) != [] <==> SomeNear(v, lits)
  {
    hide UnaryCands, ApproxHit;
    var cs := UnaryCands(v, lits, false);
    if cs != [] {
      assert cs[0] in cs;
      assert HitsNearly(v, lits, cs[0].i, cs[0].p);
    }
    if i, p :| HitsNearly(v, lits, i, p) {
      assert One(i, p, false, Miss(v, lits, i, p)) in cs;
    }
  }

  /** Every candidate worth choosing is of the best kind there is. */
  lemma TierFits(v: Decimal, lits: seq<Lit>)
    ensures Tier(v, lits) == [] <==> !SomeExact(v, lits) && !SomeTwo(v, lits) && !SomeNear(v, lits)
    ensures forall c :: c in Tier(v, lits) ==> Fitting(v, lits, c)
  {
    hide UnaryCands, BinaryCands, ExactHit, ApproxHit, BinaryHit, MinErr, WithErr, SomeExact, SomeTwo, SomeNear;
    ExactListed(v, lits);
    TwoListed(v, lits);
    NearListed(v, lits);
    forall c | c in Tier(v, lits) ensures Fitting(v, lits, c) {
      if !SomeExact(v, lits) && !SomeTwo(v, lits) {
        LeastMiss(v, lits, c);
      }
    }
  }

  lemma LeastMiss(v: Decimal, lits: seq<Lit>, c: Cand)
    requires UnaryCands(v, lits, false) != []
    requires c in WithErr(UnaryCands(v, lits, false), MinErr(UnaryCands(v, lits, false)))
    ensures c.One? && !c.exact && HitsNearly(v, lits, c.i, c.p)
    ensures forall j, r :: HitsNearly(v, lits, j, r) ==> Miss(v, lits, c.i, c.p) <= Miss(v, lits, j, r)
  {
    hide UnaryCands, ApproxHit, MinErr, WithErr;
    var cs := UnaryCands(v, lits, false);
    forall j, r | HitsNearly(v, lits, j, r) ensures Miss(v, lits, c.i, c.p) <= Miss(v, lits, j, r) {
      assert One(j, r, false, Miss(v, lits, j, r)) in cs;
    }
  }

  // ---- the label

  /** Candidate `c` is exactly what the pairs of slot `name` say. */
  ghost predicate OnlyLabel(pairs: seq<set<Pair>>, name: string, c: Cand) {
    forall li, r :: 0 <= li < |pairs| ==>
      (Pair(name, r) in pairs[li] <==>
        if c.One? then li == c.i && r == Point(UnaryMap(c.p))
        else (li == c.a && r == OperandA(BinaryMap(c.q))) || (li == c.b && r == OperandB(BinaryMap(c.q))))
  }

  ghost predicate NoLabel(pairs: seq<set<Pair>>, name: string) {
    forall li, r :: 0 <= li < |pairs| ==> Pair(name, r) !in pairs[li]
  }

  lemma CandLabels(f: Facts, sch: Schema, pairs: seq<set<Pair>>, name: string, c: Cand)
    requires Labelled(f, sch, pairs) && MarksOf(f, sch, name) == CandMarks(c)
    ensures OnlyLabel(pairs, name, c)
  {
    hide MarksOf, UnaryMap, BinaryMap;
    assert Represents(pairs, name, MarksOf(f, sch, name));
  }

  lemma EmptyLabels(f: Facts, sch: Schema, pairs: seq<set<Pair>>, name: string)
    requires Labelled(f, sch, pairs) && MarksOf(f, sch, name) == []
    ensures NoLabel(pairs, name)
  {
    hide MarksOf;
    assert Represents(pairs, name, MarksOf(f, sch, name));
  }

  lemma {:induction false} NamedAt(f: Facts, k: nat)
    requires DistinctNames(f) && k < |f.fields|
    ensures FieldNamed(f.fields, f.fields[k].Name()) == k
  {
    hide Fact.Name;
  }

  lemma PlainCandidates(f: Facts, sch: Schema, k: nat)
    requires k < |f.fields| && IsPlain(f, sch, k)
    ensures Candidates(f, sch, k, true) == Tier(f.fields[k].gold.d, f.lits)
  {
    hide Tier, Pool, Fact.Name;
  }

  /** The label of a plain number: one pointer that hits exactly if there is one; else two
      operands if two literals give the number; else the nearest approximate pointer; else
      none. The labels and the route say the same. */
  lemma PlainLabel(f: Facts, sch: Schema, pairs: seq<set<Pair>>, k: nat) returns (c: Cand)
    requires DistinctNames(f) && k < |f.fields| && IsPlain(f, sch, k) && Labelled(f, sch, pairs)
    ensures var v, name, route := f.fields[k].gold.d, f.fields[k].Name(), RouteOf(f, sch, k);
      if SomeExact(v, f.lits) then
        c.One? && HitsExactly(v, f.lits, c.i, c.p) && OnlyLabel(pairs, name, c) && route == Some(PointedAt(true, false))
      else if SomeTwo(v, f.lits) then
        c.Two? && TwoGive(v, f.lits, c.a, c.b, c.q) && OnlyLabel(pairs, name, c) && route == Some(PointedAt(true, true))
      else if SomeNear(v, f.lits) then
        && c.One? && HitsNearly(v, f.lits, c.i, c.p) && OnlyLabel(pairs, name, c)
        && route == Some(PointedAt(false, false))
        && forall j, r :: HitsNearly(v, f.lits, j, r) ==> Miss(v, f.lits, c.i, c.p) <= Miss(v, f.lits, j, r)
      else NoLabel(pairs, name) && route == Some(Unexplained)
  {
    hide Tier, BothPasses, Conventions, Candidates, IsPlain, Labelled, Fact.Name, OnlyLabel, NoLabel, HitsExactly,
      TwoGive, HitsNearly, SomeExact, SomeTwo, SomeNear, Miss;
    PlainIsNumber(f, sch, k);
    var name, v := f.fields[k].Name(), f.fields[k].gold.d;
    NamedAt(f, k);
    PlainCandidates(f, sch, k);
    TierFits(v, f.lits);
    ChosenExactly(f, sch, k);
    ChosenIsCandidate(f, sch, k);
    c := One(0, 0, true, 0.0);
    if name in BothPasses(f, sch).chosen {
      c := BothPasses(f, sch).chosen[name];
      assert Fitting(v, f.lits, c);
      CandLabels(f, sch, pairs, name, c);
    } else {
      EmptyLabels(f, sch, pairs, name);
    }
  }

  lemma PlainIsNumber(f: Facts, sch: Schema, k: nat)
    requires k < |f.fields| && IsPlain(f, sch, k)
    ensures f.fields[k].gold.Num?
  {
  }

  // ---- the order candidates are listed in

  /** By first literal, then by second literal or map. */
  predicate ListedBefore(c: Cand, d: Cand) {
    if c.One? then d.One? && (c.i < d.i || (c.i == d.i && c.p < d.p))
    else d.Two? && (c.a < d.a || (c.a == d.a && (c.b < d.b || (c.b == d.b && c.q < d.q))))
  }

  ghost predicate InListOrder(cs: seq<Cand>) {
    forall i, j :: 0 <= i < j < |cs| ==> ListedBefore(cs[i], cs[j])
  }

  lemma ListConcat(a: seq<Cand>, b: seq<Cand>)
    requires InListOrder(a) && InListOrder(b) && forall c, d :: c in a && d in b ==> ListedBefore(c, d)
    ensures InListOrder(a + b)
  {
    hide ListedBefore;
    var cs := a + b;
    forall i, j | 0 <= i < j < |cs| ensures ListedBefore(cs[i], cs[j]) {
      if i < |a| <= j {
        assert cs[i] == a[i] && cs[j] == b[j - |a|] && a[i] in a && b[j - |a|] in b;
      }
    }
  }

  lemma OneListed(c: Cand)
    ensures InListOrder([c])
  {
  }

  lemma {:induction false} UnaryAtOrder(v: Decimal, lits: seq<Lit>, i: nat, n: nat, exact: bool)
    requires i < |lits| && n <= UNARY_MAPS
    ensures InListOrder(UnaryAt(v, lits, i, n, exact))
    decreases n
  {
    hide IsUnaryCand, ExactHit, ApproxHit, UnaryValue, InListOrder;
    NothingListed();
    AllUnary(v, lits, exact);
    if n > 0 {
      var rest := UnaryAt(v, lits, i, n - 1, exact);
      UnaryAtOrder(v, lits, i, n - 1, exact);
      var cs := UnaryAt(v, lits, i, n, exact);
      if cs != rest {
        var c := cs[|cs| - 1];
        assert cs == rest + [c];
        assert c.One? && c.i == i && c.p == n - 1;
        OneListed(c);
        ListConcat(rest, [c]);
      }
    }
  }

  lemma {:induction false} UnaryUpToOrder(v: Decimal, lits: seq<Lit>, n: nat, exact: bool)
    requires n <= |lits|
    ensures InListOrder(UnaryUpTo(v, lits, n, exact))
    decreases n
  {
    hide IsUnaryCand, UnaryAt, InListOrder;
    if n > 0 {
      UnaryUpToOrder(v, lits, n - 1, exact);
      UnaryAtOrder(v, lits, n - 1, UNARY_MAPS, exact);
      AllUnary(v, lits, exact);
      ListConcat(UnaryUpTo(v, lits, n - 1, exact), UnaryAt(v, lits, n - 1, UNARY_MAPS, exact));
    } else {
      NothingListed();
    }
  }

  lemma AllUnary(v: Decimal, lits: seq<Lit>, exact: bool)
    ensures forall c :: IsUnaryCand(v, lits, exact, c) ==> c.One?
  {
  }

  lemma NothingListed()
    ensures InListOrder([])
  {
  }

  lemma {:induction false} BinaryAtOrder(v: Decimal, lits: seq<Lit>, a: nat, b: nat, n: nat)
    requires a < |lits| && b < |lits| && a != b && n <= BINARY_MAPS
    ensures InListOrder(BinaryAt(v, lits, a, b, n))
    decreases n
  {
    hide IsBinaryCand, BinaryHit, InListOrder;
    NothingListed();
    AllBinary(v, lits);
    if n > 0 {
      var rest := BinaryAt(v, lits, a, b, n - 1);
      BinaryAtOrder(v, lits, a, b, n - 1);
      if BinaryAt(v, lits, a, b, n) != rest {
        OneListed(Two(a, b, n - 1));
        ListConcat(rest, [Two(a, b, n - 1)]);
      }
    }
  }

  lemma AllBinary(v: Decimal, lits: seq<Lit>)
    ensures forall c :: IsBinaryCand(v, lits, c) ==> c.Two?
  {
  }

  lemma {:induction false} BinaryFromOrder(v: Decimal, lits: seq<Lit>, a: nat, n: nat)
    requires a < |lits| && n <= |lits|
    ensures InListOrder(BinaryFrom(v, lits, a, n))
    decreases n
  {
    hide IsBinaryCand, BinaryAt, InListOrder;
    NothingListed();
    if n > 0 {
      var before := BinaryFrom(v, lits, a, n - 1);
      var here := if n - 1 == a then [] else BinaryAt(v, lits, a, n - 1, BINARY_MAPS);
      BinaryFromOrder(v, lits, a, n - 1);
      if n - 1 != a {
        BinaryAtOrder(v, lits, a, n - 1, BINARY_MAPS);
      }
      AllBinary(v, lits);
      ListConcat(before, here);
    }
  }

  lemma {:induction false} BinaryUpToOrder(v: Decimal, lits: seq<Lit>, n: nat)
    requires n <= |lits|
    ensures InListOrder(BinaryUpTo(v, lits, n))
    decreases n
  {
    hide IsBinaryCand, BinaryFrom, InListOrder;
    NothingListed();
    if n > 0 {
      BinaryUpToOrder(v, lits, n - 1);
      BinaryFromOrder(v, lits, n - 1, |lits|);
      AllBinary(v, lits);
      ListConcat(BinaryUpTo(v, lits, n - 1), BinaryFrom(v, lits, n - 1, |lits|));
    }
  }

  lemma {:induction false} WithErrOrder(cs: seq<Cand>, m: real)
    requires InListOrder(cs) && forall c :: c in cs ==> c.One?
    ensures InListOrder(WithErr(cs, m))
    decreases |cs|
  {
    hide ListedBefore;
    if cs != [] {
      var init, last := cs[..|cs| - 1], cs[|cs| - 1];
      WithErrOrder(init, m);
      var rest := WithErr(init, m);
      forall i | 0 <= i < |rest| ensures ListedBefore(rest[i], last) {
        assert rest[i] in rest;
        var j :| 0 <= j < |init| && init[j] == rest[i];
        assert cs[j] == rest[i];
      }
    }
  }

  /** Candidates that rank alike are chosen between by this order: literal by literal, and the
      simpler map first. */
  lemma TierOrder(v: Decimal, lits: seq<Lit>)
    ensures InListOrder(Tier(v, lits))
  {
    hide InListOrder, UnaryUpTo, BinaryUpTo, WithErr, MinErr;
    NothingListed();
    UnaryUpToOrder(v, lits, |lits|, true);
    UnaryUpToOrder(v, lits, |lits|, false);
    BinaryUpToOrder(v, lits, |lits|);
    if UnaryCands(v, lits, false) != [] {
      WithErrOrder(UnaryCands(v, lits, false), MinErr(UnaryCands(v, lits, false)));
    }
  }

  // ---- convention values

  /** The slot is seen using the literal's unit with the map in at least one of fifty stated rows. */
  predicate InUse(f: Facts, sch: Schema, name: string, i: nat, p: MapIndex) {
    i < |f.lits| && UsageShare(sch, name, f.lits[i].tag, Point(UnaryMap(p))) >= 0.02
  }

  lemma {:induction false} KnownListed(f: Facts, sch: Schema, slot: string, cs: seq<Cand>)
    requires forall c :: c in cs ==> c.One? && c.i < |f.lits|
    ensures forall c :: c in KnownOnly(f, sch, slot, cs) <==> c in cs && InUse(f, sch, slot, c.i, c.p)
  {
    hide UsageShare, UnaryMap;
  }

  /** A convention value points, if at all, through a map its slot is seen using: one that hits
      exactly when there is one, else one that hits at the label's precision. */
  lemma ConventionLabel(f: Facts, sch: Schema, k: nat)
    requires DistinctNames(f) && k < |f.fields| && f.fields[k].gold.Num? && !IsPlain(f, sch, k)
    ensures var n, v := f.fields[k].Name(), f.fields[k].gold.d;
      n in Conventions(f, sch).chosen ==>
        var c := Conventions(f, sch).chosen[n];
        && c.One? && InUse(f, sch, n, c.i, c.p)
        && if exists i, p :: HitsExactly(v, f.lits, i, p) && InUse(f, sch, n, i, p) then
             HitsExactly(v, f.lits, c.i, c.p)
           else HitsNearly(v, f.lits, c.i, c.p)
  {
    hide Conventions, BothPasses, IsPlain, UnaryCands, ExactHit, ApproxHit, InUse, Fact.Name, Tier, KnownOnly;
    var n, v := f.fields[k].Name(), f.fields[k].gold.d;
    ChosenIsCandidate(f, sch, k);
    var exact, near := UnaryCands(v, f.lits, true), UnaryCands(v, f.lits, false);
    KnownListed(f, sch, n, exact);
    KnownListed(f, sch, n, near);
    if n in Conventions(f, sch).chosen {
      if i, p :| HitsExactly(v, f.lits, i, p) && InUse(f, sch, n, i, p) {
        assert One(i, p, true, 0.0) in exact;
        assert One(i, p, true, 0.0) in KnownOnly(f, sch, n, exact);
      }
    }
  }

  /** A literal that a convention value may point at. */
  ghost predicate Offered(f: Facts, sch: Schema, name: string, v: Decimal, i: nat, p: MapIndex) {
    InUse(f, sch, name, i, p) &&
      if exists j, q :: HitsExactly(v, f.lits, j, q) && InUse(f, sch, name, j, q) then HitsExactly(v, f.lits, i, p)
      else HitsNearly(v, f.lits, i, p)
  }

  lemma KnownExact(f: Facts, sch: Schema, name: string, v: Decimal)
    ensures KnownOnly(f, sch, name, UnaryCands(v, f.lits, true)) != [] ==>
      exists j, q :: HitsExactly(v, f.lits, j, q) && InUse(f, sch, name, j, q)
  {
    hide UnaryCands, ExactHit, ApproxHit, InUse, KnownOnly;
    var exact := UnaryCands(v, f.lits, true);
    KnownListed(f, sch, name, exact);
    var known := KnownOnly(f, sch, name, exact);
    if known != [] {
      var c := known[0];
      assert c in known;
      assert HitsExactly(v, f.lits, c.i, c.p) && InUse(f, sch, name, c.i, c.p);
    }
  }

  lemma OfferedPooled(f: Facts, sch: Schema, name: string, v: Decimal, i: nat, p: MapIndex)
    requires Offered(f, sch, name, v, i, p)
    ensures exists c :: c in Pool(f, sch, name, v) && c.One? && c.i == i && c.p == p
  {
    hide UnaryCands, ExactHit, ApproxHit, InUse, KnownOnly;
    var exact, near := UnaryCands(v, f.lits, true), UnaryCands(v, f.lits, false);
    KnownListed(f, sch, name, exact);
    KnownListed(f, sch, name, near);
    if j, q :| HitsExactly(v, f.lits, j, q) && InUse(f, sch, name, j, q) {
      assert One(j, q, true, 0.0) in exact;
      assert One(j, q, true, 0.0) in KnownOnly(f, sch, name, exact);
      assert One(i, p, true, 0.0) in Pool(f, sch, name, v);
    } else {
      KnownExact(f, sch, name, v);
      assert One(i, p, false, Miss(v, f.lits, i, p)) in near;
      assert One(i, p, false, Miss(v, f.lits, i, p)) in Pool(f, sch, name, v);
    }
  }

  /** A convention value is left without a pointer only when an array, a plain number or another
      convention value has each literal that it is offered. */
  lemma ConventionLeft(f: Facts, sch: Schema, k: nat, i: nat, p: MapIndex)
    requires DistinctNames(f) && k < |f.fields| && f.fields[k].gold.Num? && !IsPlain(f, sch, k)
    requires f.fields[k].Name() !in Conventions(f, sch).chosen
    requires Offered(f, sch, f.fields[k].Name(), f.fields[k].gold.d, i, p)
    ensures i in BothPasses(f, sch).claimed ||
      exists m :: m in Conventions(f, sch).chosen && i in Conventions(f, sch).chosen[m].Lits()
  {
    hide Claim, Ranked, BothPasses, Pool, Offered, IsPlain, Fact.Name, Tier, EntryOf;
    var name, v := f.fields[k].Name(), f.fields[k].gold.d;
    OfferedPooled(f, sch, name, v, i, p);
    var c :| c in Pool(f, sch, name, v) && c.One? && c.i == i && c.p == p;
    assert c in Candidates(f, sch, k, false);
    var at := RankOf(f, sch, false, k, c);
    EntryParts(f, sch, k, c);
    ClaimStable(Ranked(f, sch, false), BothPasses(f, sch).claimed, at);
  }

  /** The values a field may take as conventions are the numbers that no literal of their row gives,
      exactly or at their own precision. */
  lemma UnstatedIs(f: Facts, k: nat)
    requires k < |f.fields|
    ensures ProvisionalSchema.Unstated(f, k) <==>
      f.fields[k].gold.Num? && !SomeExact(f.fields[k].gold.d, f.lits) && !SomeNear(f.fields[k].gold.d, f.lits)
  {
    hide UnaryCands, ExactHit, ApproxHit;
    if f.fields[k].gold.Num? {
      ExactListed(f.fields[k].gold.d, f.lits);
      NearListed(f.fields[k].gold.d, f.lits);
    }
  }

  // ---- classes and routes

  /** The field's class vocabulary has the value, or it is the field's only value. */
  predicate StatedByClass(sch: Schema, name: string, c: ClassText) {
    || (name in sch.convVocab && c in sch.convVocab[name])
    || (name !in sch.convVocab && name in sch.constDefault && sch.constDefault[name] == c)
  }

  /** Class labels go to categories and to the numbers that are values of the field's class, each with
      the field's own value; every other number is plain. */
  lemma ClassLabelIs(f: Facts, sch: Schema, k: nat)
    requires DistinctNames(f) && k < |f.fields|
    ensures var n, g, cl := f.fields[k].Name(), f.fields[k].gold, ClassLabels(f, sch, |f.fields|);
      && (g.Arr? ==> n !in cl)
      && (g.Cat? ==> n in cl && cl[n] == CatClass(g.json))
      && (g.Num? ==> (n in cl <==> StatedByClass(sch, n, NumClass(Ctx(Value(g.d))))))
      && (g.Num? && n in cl ==> cl[n] == NumClass(Ctx(Value(g.d))))
      && (g.Num? ==> (IsPlain(f, sch, k) <==> n !in cl))
  {
    hide ClassLabels, Fact.Name, Ctx, Value;
    NamedAt(f, k);
    ClassLabelsAt(f, sch, |f.fields|, f.fields[k].Name());
  }

  /** The route of a category is its class, that of a convention number says whether it also has a
      label; a field whose array is not read has neither a label nor an array's route. */
  lemma OtherRoutes(f: Facts, sch: Schema, pairs: seq<set<Pair>>, k: nat)
    requires DistinctNames(f) && k < |f.fields| && !IsPlain(f, sch, k) && Labelled(f, sch, pairs)
    ensures var name, route, g := f.fields[k].Name(), RouteOf(f, sch, k), f.fields[k].gold;
      && (g.Cat? ==> route == Some(CategoryClass) && NoLabel(pairs, name))
      && (g.Num? ==> route == Some(if NoLabel(pairs, name) then NumberClass else NumberClassAndPoint))
      && (g.Arr? ==> (route == None <==> AnchorRuns(f, sch) == None && exists j: nat :: j < k && f.fields[j].gold.Arr?))
      && (g.Arr? && (route == None || route == Some(Unexplained)) ==> NoLabel(pairs, name))
      && (g.Arr? && route != None && route != Some(Unexplained) ==>
            && ArrayMarks(f, sch, k).Some? && Represents(pairs, name, ArrayMarks(f, sch, k).value)
            && route == Some(if exists j: nat :: j < k && f.fields[j].gold.Arr? then GroupArray else AnchorArray))
  {
    hide Labelled, Fact.Name, OnlyLabel, NoLabel, BothPasses, Conventions, AnchorRuns, Represents, IsPlain;
    var name := f.fields[k].Name();
    NamedAt(f, k);
    match f.fields[k].gold
    case Cat(_) => EmptyLabels(f, sch, pairs, name);
    case Num(_) => ConventionMarks(f, sch, pairs, k);
    case Arr(_) =>
      LabelledAs(f, sch, pairs, name);
      if ArrayMarks(f, sch, k).None? {
        EmptyLabels(f, sch, pairs, name);
      }
  }

  lemma LabelledAs(f: Facts, sch: Schema, pairs: seq<set<Pair>>, name: string)
    requires Labelled(f, sch, pairs)
    ensures Represents(pairs, name, MarksOf(f, sch, name))
  {
    hide MarksOf, Represents;
  }

  lemma ConventionMarks(f: Facts, sch: Schema, pairs: seq<set<Pair>>, k: nat)
    requires DistinctNames(f) && k < |f.fields| && f.fields[k].gold.Num? && !IsPlain(f, sch, k)
    requires Labelled(f, sch, pairs)
    ensures f.fields[k].Name() in Conventions(f, sch).chosen <==> !NoLabel(pairs, f.fields[k].Name())
  {
    hide Labelled, Fact.Name, OnlyLabel, NoLabel, BothPasses, Conventions, IsPlain, Tier, Pool;
    var name := f.fields[k].Name();
    NamedAt(f, k);
    ChosenIsCandidate(f, sch, k);
    if name in Conventions(f, sch).chosen {
      var c := Conventions(f, sch).chosen[name];
      assert |pairs| == |f.lits| by {
        LabelCount(f, sch, pairs);
      }
      CandLabels(f, sch, pairs, name, c);
      SomeLabel(pairs, name, c);
    } else {
      EmptyLabels(f, sch, pairs, name);
    }
  }

  lemma LabelCount(f: Facts, sch: Schema, pairs: seq<set<Pair>>)
    requires Labelled(f, sch, pairs)
    ensures |pairs| == |f.lits|
  {
  }

  lemma SomeLabel(pairs: seq<set<Pair>>, name: string, c: Cand)
    requires OnlyLabel(pairs, name, c) && InRange(c, |pairs|)
    ensures !NoLabel(pairs, name)
  {
    if c.One? {
      assert Pair(name, Point(UnaryMap(c.p))) in pairs[c.i];
    } else {
      assert Pair(name, OperandA(BinaryMap(c.q))) in pairs[c.a];
    }
  }

  // ---- array elements

  /** The literal gives the element exactly through a map the slot is seen using. */
  predicate UsualAt(e: Decimal, lit: Lit, slot: string, sch: Schema, p: MapIndex) {
    ExactHit(e, lit, p) && UsageShare(sch, slot, lit.tag, Point(UnaryMap(p))) >= 0.02
  }

  lemma {:induction false} SimplestIs(e: Decimal, lit: Lit, slot: string, sch: Schema, known: bool, p: nat)
    requires p <= UNARY_MAPS
    ensures var r := Simplest(e, lit, slot, sch, known, p);
      && (r.None? ==> forall q: MapIndex :: p <= q ==> !Explains(e, lit, slot, sch, known, q))
      && (r.Some? ==> p <= r.value && forall q: MapIndex :: p <= q < r.value ==> !Explains(e, lit, slot, sch, known, q))
    decreases UNARY_MAPS - p
  {
    hide Explains;
    if p < UNARY_MAPS {
      SimplestIs(e, lit, slot, sch, known, p + 1);
    }
  }

  lemma {:induction false} FindFromIs(e: Decimal, lits: seq<Lit>, lo: nat, hi: nat, slot: string, sch: Schema,
      known: bool)
    requires hi <= |lits|
    ensures var r := FindFrom(e, lits, lo, hi, slot, sch, known);
      && (forall j, q: MapIndex :: lo <= j < (if r.Some? then r.value.lit else hi) ==>
            !Explains(e, lits[j], slot, sch, known, q))
      && (r.Some? ==> forall q: MapIndex :: q < r.value.p ==> !Explains(e, lits[r.value.lit], slot, sch, known, q))
    decreases hi - lo
  {
    hide Explains, Simplest;
    if lo < hi {
      SimplestIs(e, lits[lo], slot, sch, known, 0);
      FindFromIs(e, lits, lo + 1, hi, slot, sch, known);
    }
  }

  /** An array element is read from the earliest literal of its window that gives it exactly through
      a map in use, else from the earliest that gives it at all, each through its first map; and from
      none only when none gives it. */
  lemma FindIs(e: Decimal, lits: seq<Lit>, lo: nat, hi: nat, slot: string, sch: Schema)
    requires hi <= |lits|
    ensures var r := Find(e, lits, lo, hi, slot, sch);
      if exists j, q: MapIndex :: lo <= j < hi && UsualAt(e, lits[j], slot, sch, q) then
        && r.Some? && lo <= r.value.lit < hi && UsualAt(e, lits[r.value.lit], slot, sch, r.value.p)
        && (forall j, q: MapIndex :: lo <= j < r.value.lit ==> !UsualAt(e, lits[j], slot, sch, q))
        && forall q: MapIndex :: q < r.value.p ==> !UsualAt(e, lits[r.value.lit], slot, sch, q)
      else if r.Some? then
        && lo <= r.value.lit < hi && ExactHit(e, lits[r.value.lit], r.value.p)
        && (forall j, q: MapIndex :: lo <= j < r.value.lit ==> !ExactHit(e, lits[j], q))
        && forall q: MapIndex :: q < r.value.p ==> !ExactHit(e, lits[r.value.lit], q)
      else forall j, q: MapIndex :: lo <= j < hi ==> !ExactHit(e, lits[j], q)
  {
    hide ExactHit, UsageShare, UnaryMap, FindFrom;
    FindFromIs(e, lits, lo, hi, slot, sch, true);
    FindFromIs(e, lits, lo, hi, slot, sch, false);
    assert forall j, q: MapIndex :: lo <= j < hi ==>
      (Explains(e, lits[j], slot, sch, true, q) <==> UsualAt(e, lits[j], slot, sch, q));
    assert forall j, q: MapIndex :: lo <= j < hi ==>
      (Explains(e, lits[j], slot, sch, false, q) <==> ExactHit(e, lits[j], q));
  }
}
