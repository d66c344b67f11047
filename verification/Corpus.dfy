/** The label space of the encoder: literals, gold parameters, the schema, and the
    candidates that may explain a gold value. */
module Corpus {
  import opened Decimals
  import opened Maps
  import opened Options

  // ---- data model

  /** A numeric literal of the utterance: its value, its unit and the user turn it is in. */
  datatype Lit = Lit(value: real, tag: Tag, seg: nat)

  /** A gold parameter; a category is kept as its JSON text. */
  datatype Gold = Num(d: Decimal) | Arr(els: seq<Decimal>) | Cat(json: string)

  datatype Kind = NumKind | ArrKind | CatKind

  /** Marks the schema name of an array, so that a scalar of the same key differs. */
  const ARRAY_SUFFIX := "[]"

  /** One entry of the gold parameters object. */
  datatype Fact = Fact(key: string, gold: Gold) {
    function Kind(): Kind {
      match gold case Num(_) => NumKind case Arr(_) => ArrKind case Cat(_) => CatKind
    }

    function Name(): string {
      if gold.Arr? then key + ARRAY_SUFFIX else key
    }
  }

  /** A row: its operation (none for a declined request), literals and gold entries. */
  datatype Facts = Facts(op: Option<string>, lits: seq<Lit>, fields: seq<Fact>)

  /** A class label. Equal numbers have one canonical text, so the number stands for it. */
  datatype ClassText = NumClass(v: real) | CatClass(json: string)

  /** What a literal does for a slot: a map, a map repeated, or one of two operands. */
  datatype Role = Point(m: Unary) | Repeat(m: Unary, times: nat) | OperandA(op: Binary) | OperandB(op: Binary)

  datatype Pair = Pair(slot: string, role: Role)

  datatype Schema = Schema(
    ops: seq<string>,
    opFields: map<string, seq<string>>,
    kind: map<string, Kind>,
    pairs: seq<Pair>,
    opPairs: map<string, set<nat>>,
    convVocab: map<string, seq<ClassText>>,
    convOpMask: map<string, map<string, set<nat>>>,
    constDefault: map<string, ClassText>,
    opDefault: map<string, map<string, ClassText>>,
    compat: map<string, map<(Tag, Role), real>>,
    anchor: map<string, string>)

  /** A (tag, map) must explain this share of a field's stated rows. */
  const COMPAT_MIN_SHARE := 0.02

  function UsageShare(sch: Schema, slot: string, t: Tag, r: Role): real {
    if slot in sch.compat && (t, r) in sch.compat[slot] then sch.compat[slot][(t, r)] else 0.0
  }

  /** The values of a field that its class answers. */
  predicate IsConvention(sch: Schema, name: string, c: ClassText) {
    if name in sch.convVocab then c in sch.convVocab[name]
    else name in sch.constDefault && sch.constDefault[name] == c
  }

  /** The class text of a scalar gold. */
  function ClassOf(g: Gold): ClassText
    requires !g.Arr?
  {
    if g.Num? then NumClass(Ctx(Value(g.d))) else CatClass(g.json)
  }

  // ---- candidates

  /** One literal through one map, or two literals through a two-literal map. */
  datatype Cand = One(i: nat, p: MapIndex, exact: bool, err: real) | Two(a: nat, b: nat, q: BinaryIndex) {
    function Lits(): set<nat> {
      if One? then {i} else {a, b}
    }

    function Prio(): nat {
      if One? then p else 100 + q
    }

    predicate Exact() {
      One? ==> exact
    }
  }

  /** A zero gold is explained only by a literal that itself says zero. */
  predicate Considered(v: Decimal, lit: Lit, p: MapIndex) {
    (Value(v) == 0.0 ==> lit.value == 0.0) && Applies(UnaryMap(p), lit.tag)
  }

  predicate ExactHit(v: Decimal, lit: Lit, p: MapIndex) {
    Considered(v, lit, p) && UnaryValue(UnaryMap(p), lit.value) == Value(v)
  }

  predicate ApproxHit(v: Decimal, lit: Lit, p: MapIndex) {
    && Considered(v, lit, p)
    && Value(v) != 0.0 && ApproxEligible(v)
    && UnaryValue(UnaryMap(p), lit.value) != Value(v)
    && AtLabelPrecision(UnaryValue(UnaryMap(p), lit.value), v)
  }

  /** Whether `c` is the candidate the scan emits for its literal and map. */
  predicate IsUnaryCand(v: Decimal, lits: seq<Lit>, exact: bool, c: Cand) {
    && c.One? && c.i < |lits| && c.exact == exact
    && (if exact then ExactHit(v, lits[c.i], c.p) && c.err == 0.0
        else ApproxHit(v, lits[c.i], c.p) && c.err == Abs(Ctx(UnaryValue(UnaryMap(c.p), lits[c.i].value) - Value(v))))
  }

  function UnaryAt(v: Decimal, lits: seq<Lit>, i: nat, n: nat, exact: bool): (r: seq<Cand>)
    requires i < |lits| && n <= UNARY_MAPS
    ensures forall c :: c in r <==> IsUnaryCand(v, lits, exact, c) && c.i == i && c.p < n
  {
    if n == 0 then []
    else
      var got := UnaryValue(UnaryMap(n - 1), lits[i].value);
      var c := One(i, n - 1, exact, if exact then 0.0 else Abs(Ctx(got - Value(v))));
      var rest := UnaryAt(v, lits, i, n - 1, exact);
      if (if exact then ExactHit(v, lits[i], n - 1) else ApproxHit(v, lits[i], n - 1)) then rest + [c] else rest
  }

  function UnaryUpTo(v: Decimal, lits: seq<Lit>, n: nat, exact: bool): (r: seq<Cand>)
    requires n <= |lits|
    ensures forall c :: c in r <==> IsUnaryCand(v, lits, exact, c) && c.i < n
  {
    if n == 0 then [] else UnaryUpTo(v, lits, n - 1, exact) + UnaryAt(v, lits, n - 1, UNARY_MAPS, exact)
  }

  /** Every exact, or every approximate, one-literal explanation of `v`. */
  function UnaryCands(v: Decimal, lits: seq<Lit>, exact: bool): (r: seq<Cand>)
    ensures forall c :: c in r <==> IsUnaryCand(v, lits, exact, c)
  {
    UnaryUpTo(v, lits, |lits|, exact)
  }

  predicate BinaryHit(v: Decimal, a: Lit, b: Lit, q: BinaryIndex) {
    BinaryApplies(BinaryMap(q), b.tag) && BinaryValue(BinaryMap(q), a.value, b.value) == Value(v)
  }

  predicate IsBinaryCand(v: Decimal, lits: seq<Lit>, c: Cand) {
    c.Two? && c.a < |lits| && c.b < |lits| && c.a != c.b && BinaryHit(v, lits[c.a], lits[c.b], c.q)
  }

  function BinaryAt(v: Decimal, lits: seq<Lit>, a: nat, b: nat, n: nat): (r: seq<Cand>)
    requires a < |lits| && b < |lits| && a != b && n <= BINARY_MAPS
    ensures forall c :: c in r <==> IsBinaryCand(v, lits, c) && c.a == a && c.b == b && c.q < n
  {
    if n == 0 then []
    else
      var rest := BinaryAt(v, lits, a, b, n - 1);
      if BinaryHit(v, lits[a], lits[b], n - 1) then rest + [Two(a, b, n - 1)] else rest
  }

  function BinaryFrom(v: Decimal, lits: seq<Lit>, a: nat, n: nat): (r: seq<Cand>)
    requires a < |lits| && n <= |lits|
    ensures forall c :: c in r <==> IsBinaryCand(v, lits, c) && c.a == a && c.b < n
  {
    if n == 0 then []
    else BinaryFrom(v, lits, a, n - 1) + if n - 1 == a then [] else BinaryAt(v, lits, a, n - 1, BINARY_MAPS)
  }

  function BinaryUpTo(v: Decimal, lits: seq<Lit>, n: nat): (r: seq<Cand>)
    requires n <= |lits|
    ensures forall c :: c in r <==> IsBinaryCand(v, lits, c) && c.a < n
  {
    if n == 0 then [] else BinaryUpTo(v, lits, n - 1) + BinaryFrom(v, lits, n - 1, |lits|)
  }

  function BinaryCands(v: Decimal, lits: seq<Lit>): (r: seq<Cand>)
    ensures forall c :: c in r <==> Value(v) != 0.0 && IsBinaryCand(v, lits, c)
  {
    if Value(v) == 0.0 then [] else BinaryUpTo(v, lits, |lits|)
  }

  function MinErr(cs: seq<Cand>): (m: real)
    requires cs != [] && forall c :: c in cs ==> c.One?
    ensures (forall c :: c in cs ==> m <= c.err) && exists c :: c in cs && c.err == m
  {
    var last := cs[|cs| - 1].err;
    if |cs| == 1 then last
    else
      var m := MinErr(cs[..|cs| - 1]);
      if m <= last then m else last
  }

  function WithErr(cs: seq<Cand>, m: real): (r: seq<Cand>)
    requires forall c :: c in cs ==> c.One?
    ensures forall c :: c in r <==> c in cs && c.err == m
  {
    if cs == [] then []
    else
      var rest := WithErr(cs[..|cs| - 1], m);
      if cs[|cs| - 1].err == m then rest + [cs[|cs| - 1]] else rest
  }

  /** The candidates worth choosing among: exact one-literal ones, else two-literal ones,
      else the approximate ones of least error. */
  function Tier(v: Decimal, lits: seq<Lit>): (r: seq<Cand>)
    ensures r == [] <==>
      UnaryCands(v, lits, true) == [] && BinaryCands(v, lits) == [] && UnaryCands(v, lits, false) == []
  {
    var exact, two, approx := UnaryCands(v, lits, true), BinaryCands(v, lits), UnaryCands(v, lits, false);
    if exact != [] then exact
    else if two != [] then two
    else if approx != [] then WithErr(approx, MinErr(approx))
    else []
  }

  /** A candidate whose literals yield the gold, exactly or at its own precision. */
  predicate Sound(v: Decimal, lits: seq<Lit>, c: Cand) {
    match c
    case One(i, p, _, _) => i < |lits| && NumEq(UnaryValue(UnaryMap(p), lits[i].value), v)
    case Two(a, b, q) =>
      a < |lits| && b < |lits| && a != b && BinaryValue(BinaryMap(q), lits[a].value, lits[b].value) == Value(v)
  }

  lemma TierSound(v: Decimal, lits: seq<Lit>)
    ensures forall c :: c in Tier(v, lits) ==> Sound(v, lits, c)
  {
  }
}
