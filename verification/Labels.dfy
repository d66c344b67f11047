/** What the labels of a row are: which literals point at which slots, and how. */
module Labels {
  import opened Corpus
  import opened Decimals
  import opened Maps
  import opened Matching
  import opened Options

  /** A literal that explains an array element exactly, through its map. */
  datatype Hit = Hit(lit: nat, p: MapIndex)

  /** An anchor literal and how many consecutive elements it stands for. */
  datatype Run = Run(lit: nat, p: MapIndex, times: nat)

  /** A literal with a role, for one slot. */
  datatype Mark = Mark(lit: nat, role: Role)

  // ---- one array element

  /** The slot is seen using this literal's unit with this map. */
  predicate Known(lit: Lit, p: MapIndex, slot: string, sch: Schema) {
    UsageShare(sch, slot, lit.tag, Point(UnaryMap(p))) >= COMPAT_MIN_SHARE
  }

  predicate Explains(e: Decimal, lit: Lit, slot: string, sch: Schema, known: bool, p: MapIndex) {
    ExactHit(e, lit, p) && (known ==> Known(lit, p, slot, sch))
  }

  /** The simplest exact map of a literal, from priority `p` on. */
  function Simplest(e: Decimal, lit: Lit, slot: string, sch: Schema, known: bool, p: nat): (r: Option<MapIndex>)
    requires p <= UNARY_MAPS
    ensures r.Some? ==> Explains(e, lit, slot, sch, known, r.value)
    decreases UNARY_MAPS - p
  {
    if p == UNARY_MAPS then None
    else if Explains(e, lit, slot, sch, known, p) then Some(p)
    else Simplest(e, lit, slot, sch, known, p + 1)
  }

  function FindFrom(e: Decimal, lits: seq<Lit>, lo: nat, hi: nat, slot: string, sch: Schema,
      known: bool): (r: Option<Hit>)
    requires hi <= |lits|
    ensures r.Some? ==> lo <= r.value.lit < hi && Explains(e, lits[r.value.lit], slot, sch, known, r.value.p)
    decreases hi - lo
  {
    if lo >= hi then None
    else
      match Simplest(e, lits[lo], slot, sch, known, 0)
      case Some(p) => Some(Hit(lo, p))
      case None => FindFrom(e, lits, lo + 1, hi, slot, sch, known)
  }

  /** The earliest literal in the window that explains `e` through a mechanism the slot
      uses; failing that, the earliest through any map. */
  function Find(e: Decimal, lits: seq<Lit>, lo: nat, hi: nat, slot: string, sch: Schema): (r: Option<Hit>)
    requires hi <= |lits|
    ensures r.Some? ==> lo <= r.value.lit < hi && ExactHit(e, lits[r.value.lit], r.value.p)
  {
    var known := FindFrom(e, lits, lo, hi, slot, sch, true);
    if known.Some? then known else FindFrom(e, lits, lo, hi, slot, sch, false)
  }

  // ---- the anchor array

  function NextLit(runs: seq<Run>): nat {
    if runs == [] then 0 else runs[|runs| - 1].lit + 1
  }

  /** Literals in order, each used at least once. */
  ghost predicate RunsFit(runs: seq<Run>, n: nat) {
    && (forall k :: 0 <= k < |runs| ==> runs[k].lit < n && runs[k].times >= 1)
    && (forall j, k :: 0 <= j < k < |runs| ==> runs[j].lit < runs[k].lit)
  }

  /** A new literal starts a run; failing that, an element equal to the previous one
      lengthens the last run. */
  function Extend(runs: seq<Run>, hit: Option<Hit>, repeats: bool, n: nat): (r: Option<seq<Run>>)
    requires RunsFit(runs, n) && (hit.Some? ==> NextLit(runs) <= hit.value.lit < n)
    ensures r.Some? ==> RunsFit(r.value, n)
  {
    if hit.Some? then Some(runs + [Run(hit.value.lit, hit.value.p, 1)])
    else if repeats && runs != [] then
      Some(runs[|runs| - 1 := runs[|runs| - 1].(times := runs[|runs| - 1].times + 1)])
    else None
  }

  /** The anchor's elements read left to right: a literal each, or one more copy of the
      previous element when no literal is left for it. */
  function Runs(els: seq<Decimal>, lits: seq<Lit>, slot: string, sch: Schema): (r: Option<seq<Run>>)
    ensures r.Some? ==> RunsFit(r.value, |lits|)
  {
    if els == [] then Some([])
    else
      match Runs(els[..|els| - 1], lits, slot, sch)
      case None => None
      case Some(runs) =>
        var e := els[|els| - 1];
        var hit := if Value(e) == 0.0 then None else Find(e, lits, NextLit(runs), |lits|, slot, sch);
        Extend(runs, hit, |els| > 1 && Value(e) == Value(els[|els| - 2]), |lits|)
  }

  function RunRole(r: Run): Role {
    if r.times == 1 then Point(UnaryMap(r.p)) else Repeat(UnaryMap(r.p), r.times)
  }

  function RunMarks(runs: seq<Run>): (r: seq<Mark>)
    ensures |r| == |runs| && forall k :: 0 <= k < |r| ==> r[k] == Mark(runs[k].lit, RunRole(runs[k]))
  {
    if runs == [] then []
    else
      var last := runs[|runs| - 1];
      RunMarks(runs[..|runs| - 1]) + [Mark(last.lit, RunRole(last))]
  }

  // ---- the other arrays

  /** How many elements the runs stand for. */
  function Total(runs: seq<Run>): nat {
    if runs == [] then 0 else runs[0].times + Total(runs[1..])
  }

  /** Where the literals of run `k` end. */
  function Bound(runs: seq<Run>, k: nat, n: nat): nat
    requires k <= |runs|
  {
    if k < |runs| then runs[k].lit else n
  }

  /** A lone repeated anchor literal shares the whole utterance with its siblings. */
  function Start(runs: seq<Run>, k: nat, perRun: bool): nat
    requires k < |runs|
  {
    if !perRun && |runs| == 1 then 0 else runs[k].lit
  }

  /** How many sibling elements run `k` owns. */
  function Size(runs: seq<Run>, k: nat, perRun: bool): nat
    requires k < |runs|
  {
    if perRun then 1 else runs[k].times
  }

  /** One group's non-zero elements, each at the next literal of the window. */
  function GroupHits(els: seq<Decimal>, lits: seq<Lit>, lo: nat, hi: nat, slot: string,
      sch: Schema): (r: Option<seq<Hit>>)
    requires hi <= |lits|
  {
    if els == [] then Some([])
    else if Value(els[0]) == 0.0 then GroupHits(els[1..], lits, lo, hi, slot, sch)
    else
      match Find(els[0], lits, lo, hi, slot, sch)
      case None => None
      case Some(h) =>
        match GroupHits(els[1..], lits, h.lit + 1, hi, slot, sch)
        case None => None
        case Some(hs) => Some([h] + hs)
  }

  /** The sibling's remaining elements from group `k` on; none when one has no literal. */
  function HitsFrom(els: seq<Decimal>, runs: seq<Run>, k: nat, perRun: bool, lits: seq<Lit>, slot: string,
      sch: Schema): (r: Option<seq<Hit>>)
    requires k <= |runs| && RunsFit(runs, |lits|)
    decreases |runs| - k
  {
    if k == |runs| then Some([])
    else
      var n := if Size(runs, k, perRun) <= |els| then Size(runs, k, perRun) else |els|;
      match GroupHits(els[..n], lits, Start(runs, k, perRun), Bound(runs, k + 1, |lits|), slot, sch)
      case None => None
      case Some(hs) =>
        match HitsFrom(els[n..], runs, k + 1, perRun, lits, slot, sch)
        case None => None
        case Some(rest) => Some(hs + rest)
  }

  function SiblingHits(els: seq<Decimal>, runs: seq<Run>, lits: seq<Lit>, slot: string,
      sch: Schema): (r: Option<seq<Hit>>)
    requires RunsFit(runs, |lits|)
  {
    if |els| == |runs| || |els| == Total(runs) then HitsFrom(els, runs, 0, |els| == |runs|, lits, slot, sch)
    else None
  }

  function HitMarks(hits: seq<Hit>): seq<Mark> {
    seq(|hits|, k requires 0 <= k < |hits| => Mark(hits[k].lit, Point(UnaryMap(hits[k].p))))
  }

  // ---- all arrays of a row

  /** The position of the row's first array, or the number of fields. */
  function FirstArray(fields: seq<Fact>): (k: nat)
    ensures k <= |fields| && (k < |fields| ==> fields[k].gold.Arr?)
    ensures forall j :: 0 <= j < k ==> !fields[j].gold.Arr?
  {
    if fields == [] || fields[0].gold.Arr? then 0 else 1 + FirstArray(fields[1..])
  }

  function AnchorRuns(f: Facts, sch: Schema): (r: Option<seq<Run>>)
    ensures r.Some? ==> RunsFit(r.value, |f.lits|)
  {
    var a := FirstArray(f.fields);
    if a == |f.fields| then None else Runs(f.fields[a].gold.els, f.lits, f.fields[a].Name(), sch)
  }

  /** The labels of the `k`-th field when it is an array; none when it is unexplained. */
  function ArrayMarks(f: Facts, sch: Schema, k: nat): Option<seq<Mark>>
    requires k < |f.fields| && f.fields[k].gold.Arr?
  {
    match AnchorRuns(f, sch)
    case None => None
    case Some(runs) =>
      if k == FirstArray(f.fields) then Some(RunMarks(runs))
      else
        match SiblingHits(f.fields[k].gold.els, runs, f.lits, f.fields[k].Name(), sch)
        case None => None
        case Some(hits) => Some(HitMarks(hits))
  }

  function MarkLits(ms: seq<Mark>): set<nat> {
    set m | m in ms :: m.lit
  }

  /** The literals the first `n` fields' arrays point at. */
  function ArrayClaims(f: Facts, sch: Schema, n: nat): set<nat>
    requires n <= |f.fields|
  {
    if n == 0 then {}
    else
      ArrayClaims(f, sch, n - 1) +
      if f.fields[n - 1].gold.Arr? && ArrayMarks(f, sch, n - 1).Some? then MarkLits(ArrayMarks(f, sch, n - 1).value)
      else {}
  }

  // ---- scalars

  predicate InRange(c: Cand, n: nat) {
    if c.One? then c.i < n else c.a < n && c.b < n
  }

  /** How much of the field's own stated rows use these literals this way. */
  function Affinity(sch: Schema, slot: string, lits: seq<Lit>, c: Cand): real
    requires InRange(c, |lits|)
  {
    if c.One? then UsageShare(sch, slot, lits[c.i].tag, Point(UnaryMap(c.p)))
    else
      var x := UsageShare(sch, slot, lits[c.a].tag, OperandA(BinaryMap(c.q)));
      var y := UsageShare(sch, slot, lits[c.b].tag, OperandB(BinaryMap(c.q)));
      if y < x then y else x
  }

  function EntryOf(f: Facts, sch: Schema, k: nat, c: Cand): Entry
    requires k < |f.fields| && InRange(c, |f.lits|)
  {
    var x, y := if c.One? then c.i else c.a, if c.One? then c.i else c.b;
    Entry(f.fields[k].Name(), c, Affinity(sch, f.fields[k].Name(), f.lits, c), c.Prio(),
          if f.lits[x].seg < f.lits[y].seg then f.lits[y].seg else f.lits[x].seg,
          k, if x < y then x else y)
  }

  function EntriesOf(f: Facts, sch: Schema, k: nat, cs: seq<Cand>): (r: seq<Entry>)
    requires k < |f.fields| && forall c :: c in cs ==> InRange(c, |f.lits|)
    ensures |r| == |cs| && forall i ::
      0 <= i < |r| ==> r[i].name == f.fields[k].Name() && r[i].order == k && r[i].cand == cs[i]
  {
    seq(|cs|, i requires 0 <= i < |cs| => EntryOf(f, sch, k, cs[i]))
  }

  predicate IsPlain(f: Facts, sch: Schema, k: nat)
    requires k < |f.fields|
  {
    f.fields[k].gold.Num? && !IsConvention(sch, f.fields[k].Name(), ClassOf(f.fields[k].gold))
  }

  /** Known ways a literal states a convention value. */
  function KnownOnly(f: Facts, sch: Schema, slot: string, cs: seq<Cand>): (r: seq<Cand>)
    requires forall c :: c in cs ==> c.One? && c.i < |f.lits|
    ensures forall c :: c in r <==> c in cs && Known(f.lits[c.i], c.p, slot, sch)
  {
    if cs == [] then []
    else
      var c, rest := cs[|cs| - 1], KnownOnly(f, sch, slot, cs[..|cs| - 1]);
      if Known(f.lits[c.i], c.p, slot, sch) then rest + [c] else rest
  }

  /** What a convention value may point at: its known exact literals, else known approximate ones. */
  function Pool(f: Facts, sch: Schema, slot: string, v: Decimal): (r: seq<Cand>)
    ensures forall c :: c in r ==> Sound(v, f.lits, c) && c.One?
  {
    var exact := KnownOnly(f, sch, slot, UnaryCands(v, f.lits, true));
    if exact != [] then exact else KnownOnly(f, sch, slot, UnaryCands(v, f.lits, false))
  }

  /** The candidates of field `k`: of a plain value, or of a convention value. */
  function Candidates(f: Facts, sch: Schema, k: nat, plain: bool): (r: seq<Cand>)
    requires k < |f.fields|
    ensures forall c :: c in r ==> f.fields[k].gold.Num? && Sound(f.fields[k].gold.d, f.lits, c) && InRange(c, |f.lits|)
  {
    var g := f.fields[k].gold;
    if !g.Num? || IsPlain(f, sch, k) != plain then []
    else if plain then
      TierSound(g.d, f.lits);
      Tier(g.d, f.lits)
    else Pool(f, sch, f.fields[k].Name(), g.d)
  }

  function Entries(f: Facts, sch: Schema, n: nat, plain: bool): seq<Entry>
    requires n <= |f.fields|
  {
    if n == 0 then []
    else Entries(f, sch, n - 1, plain) + EntriesOf(f, sch, n - 1, Candidates(f, sch, n - 1, plain))
  }

  function Ranked(f: Facts, sch: Schema, plain: bool): seq<Entry> {
    Sort(Entries(f, sch, |f.fields|, plain))
  }

  function FirstPass(f: Facts, sch: Schema): Match {
    Claim(Ranked(f, sch, true), ArrayClaims(f, sch, |f.fields|))
  }

  function BothPasses(f: Facts, sch: Schema): Match {
    ShareOut(Ranked(f, sch, true), FirstPass(f, sch))
  }

  /** Convention fields point only at literals still free after both passes. */
  function Conventions(f: Facts, sch: Schema): Match {
    Claim(Ranked(f, sch, false), BothPasses(f, sch).claimed)
  }

  function CandMarks(c: Cand): seq<Mark> {
    if c.One? then [Mark(c.i, Point(UnaryMap(c.p)))]
    else if c.a < c.b then [Mark(c.a, OperandA(BinaryMap(c.q))), Mark(c.b, OperandB(BinaryMap(c.q)))]
    else [Mark(c.b, OperandB(BinaryMap(c.q))), Mark(c.a, OperandA(BinaryMap(c.q)))]
  }

  // ---- the labels of a field

  /** Every literal that points at field `k`, in text order. */
  function FieldMarks(f: Facts, sch: Schema, k: nat): seq<Mark>
    requires k < |f.fields|
  {
    var n := f.fields[k].Name();
    match f.fields[k].gold
    case Cat(_) => []
    case Arr(_) => if ArrayMarks(f, sch, k).Some? then ArrayMarks(f, sch, k).value else []
    case Num(_) =>
      if n in BothPasses(f, sch).chosen then CandMarks(BothPasses(f, sch).chosen[n])
      else if n in Conventions(f, sch).chosen then CandMarks(Conventions(f, sch).chosen[n])
      else []
  }

  /** Whether field `k` carries a class label. */
  predicate HasClass(f: Facts, sch: Schema, k: nat)
    requires k < |f.fields|
  {
    !f.fields[k].gold.Arr? && (f.fields[k].gold.Cat? || !IsPlain(f, sch, k))
  }

  ghost predicate DistinctNames(f: Facts) {
    forall j, k :: 0 <= j < k < |f.fields| ==> f.fields[j].Name() != f.fields[k].Name()
  }

  // ---- labels of a row

  /** The position of the field named `slot`, or the number of fields. */
  function FieldNamed(fields: seq<Fact>, slot: string): (k: nat)
    ensures k <= |fields| && (k < |fields| ==> fields[k].Name() == slot)
    ensures forall j :: 0 <= j < k ==> fields[j].Name() != slot
  {
    if fields == [] || fields[0].Name() == slot then 0 else 1 + FieldNamed(fields[1..], slot)
  }

  function MarksOf(f: Facts, sch: Schema, slot: string): seq<Mark> {
    var k := FieldNamed(f.fields, slot);
    if k < |f.fields| then FieldMarks(f, sch, k) else []
  }

  /** The labels of one slot: `Mark(li, role)` exactly where literal `li` carries the pair. */
  ghost predicate Represents(pairs: seq<set<Pair>>, slot: string, ms: seq<Mark>) {
    forall li, r :: 0 <= li < |pairs| ==> (Pair(slot, r) in pairs[li] <==> Mark(li, r) in ms)
  }

  /** Name-level labels: every literal carries exactly the pairs of the row's marks. */
  ghost predicate Labelled(f: Facts, sch: Schema, pairs: seq<set<Pair>>) {
    |pairs| == |f.lits| && forall slot :: Represents(pairs, slot, MarksOf(f, sch, slot))
  }

  /** The class labels of the first `n` fields. */
  function ClassLabels(f: Facts, sch: Schema, n: nat): map<string, ClassText>
    requires n <= |f.fields|
  {
    if n == 0 then map[]
    else if HasClass(f, sch, n - 1) then
      ClassLabels(f, sch, n - 1)[f.fields[n - 1].Name() := ClassOf(f.fields[n - 1].gold)]
    else ClassLabels(f, sch, n - 1)
  }

  // ---- how each field was explained

  datatype Route =
    | Unexplained
    | CategoryClass
    | NumberClass
    | NumberClassAndPoint
    | PointedAt(exact: bool, binary: bool)
    | AnchorArray
    | GroupArray

  /** The labels of a row: pairs per literal, class texts and routes. */
  datatype RawLabels = RawLabels(pairs: seq<set<Pair>>, conv: map<string, ClassText>, route: map<string, Route>)

  /** The route of field `k`; a sibling of an unexplained anchor has none. */
  function RouteOf(f: Facts, sch: Schema, k: nat): Option<Route>
    requires k < |f.fields|
  {
    var n := f.fields[k].Name();
    match f.fields[k].gold
    case Cat(_) => Some(CategoryClass)
    case Arr(_) =>
      if k == FirstArray(f.fields) then Some(if ArrayMarks(f, sch, k).Some? then AnchorArray else Unexplained)
      else if AnchorRuns(f, sch).None? then None
      else Some(if ArrayMarks(f, sch, k).Some? then GroupArray else Unexplained)
    case Num(_) =>
      if !IsPlain(f, sch, k) then
        Some(if n in Conventions(f, sch).chosen then NumberClassAndPoint else NumberClass)
      else if n in BothPasses(f, sch).chosen then
        Some(PointedAt(BothPasses(f, sch).chosen[n].Exact(), BothPasses(f, sch).chosen[n].Two?))
      else Some(Unexplained)
  }
}
