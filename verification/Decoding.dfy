/** What serving rebuilds from labels alone: the only place a number is computed. */
module Decoding {
  import opened Corpus
  import opened Decimals
  import opened Labels
  import opened Maps
  import opened Options

  /** A labelled row in ids: its operation, each literal's pair ids and its class picks. */
  datatype Example = Example(op: nat, pairs: seq<seq<nat>>, conv: map<string, nat>)

  /** A rebuilt parameter; an array element without a value is absent. */
  datatype Decoded = Missing | Number(v: real) | Category(json: string) | List(els: seq<Option<real>>)

  /** Probabilities per literal and pair; without them the more recent literal wins. */
  type Scores = Option<seq<map<nat, real>>>

  // ---- names to ids

  /** The ids of the named pairs, in vocabulary order; a pair the vocabulary lacks is lost. */
  function KeptIds(names: set<Pair>, vocab: seq<Pair>, n: nat): (ids: seq<nat>)
    requires n <= |vocab|
    ensures forall k :: 0 <= k < |ids| ==> ids[k] < n && vocab[ids[k]] in names
  {
    if n == 0 then []
    else if vocab[n - 1] in names then KeptIds(names, vocab, n - 1) + [n - 1]
    else KeptIds(names, vocab, n - 1)
  }

  function IndexOf<T(==)>(s: seq<T>, x: T): (k: nat)
    ensures k <= |s| && (k < |s| ==> s[k] == x)
    ensures k == |s| <==> x !in s
  {
    if s == [] || s[0] == x then 0 else 1 + IndexOf(s[1..], x)
  }

  // ---- ids to marks

  function IdsAt(ids: seq<nat>, li: nat, slot: string, vocab: seq<Pair>): seq<Mark>
    requires forall k :: 0 <= k < |ids| ==> ids[k] < |vocab|
  {
    if ids == [] then []
    else
      var rest, p := IdsAt(ids[..|ids| - 1], li, slot, vocab), ids[|ids| - 1];
      if vocab[p].slot == slot then rest + [Mark(li, vocab[p].role)] else rest
  }

  ghost predicate IdsOk(pairs: seq<seq<nat>>, vocab: seq<Pair>) {
    forall li, k :: 0 <= li < |pairs| && 0 <= k < |pairs[li]| ==> pairs[li][k] < |vocab|
  }

  /** The marks of one slot among the first `n` literals, in text order. */
  function SlotMarks(pairs: seq<seq<nat>>, n: nat, slot: string, vocab: seq<Pair>): seq<Mark>
    requires n <= |pairs| && IdsOk(pairs, vocab)
  {
    if n == 0 then [] else SlotMarks(pairs, n - 1, slot, vocab) + IdsAt(pairs[n - 1], n - 1, slot, vocab)
  }

  // ---- one number

  function UnaryOf(m: Mark, lits: seq<Lit>): Option<real>
    requires m.lit < |lits|
  {
    match m.role
    case Point(u) => Some(UnaryValue(u, lits[m.lit].value))
    case Repeat(u, _) => Some(UnaryValue(u, lits[m.lit].value))
    case _ => None
  }

  function Score(m: Mark, slot: string, vocab: seq<Pair>, scores: Scores): real {
    match scores
    case None => m.lit as real
    case Some(s) =>
      var p := IndexOf(vocab, Pair(slot, m.role));
      if m.lit < |s| && p in s[m.lit] then s[m.lit][p] else 0.0
  }

  /** The mark of highest score, then of latest literal; the first one on a tie. */
  function Best(ms: seq<Mark>, slot: string, vocab: seq<Pair>, scores: Scores): (m: Mark)
    requires ms != []
    ensures m in ms
  {
    if |ms| == 1 then ms[0]
    else
      var b, e := Best(ms[..|ms| - 1], slot, vocab, scores), ms[|ms| - 1];
      var x, y := Score(b, slot, vocab, scores), Score(e, slot, vocab, scores);
      if y > x || (y == x && e.lit > b.lit) then e else b
  }

  /** The pointers through a one-literal map. */
  function Points(ms: seq<Mark>): (r: seq<Mark>)
    ensures forall m :: m in r ==> m in ms && m.role.Point?
  {
    if ms == [] then []
    else
      var rest, m := Points(ms[..|ms| - 1]), ms[|ms| - 1];
      if m.role.Point? then rest + [m] else rest
  }

  /** The marks with exactly this role. */
  function WithRole(ms: seq<Mark>, role: Role): (r: seq<Mark>)
    ensures forall m :: m in r ==> m in ms
  {
    if ms == [] then []
    else
      var rest, m := WithRole(ms[..|ms| - 1], role), ms[|ms| - 1];
      if m.role == role then rest + [m] else rest
  }

  /** The value of the first two-literal map that has both operands, from entry `k` on. */
  function BinaryFromMarks(ms: seq<Mark>, k: nat, lits: seq<Lit>, slot: string, vocab: seq<Pair>,
      scores: Scores): Option<real>
    requires k <= |ms| && forall m :: m in ms ==> m.lit < |lits|
    decreases |ms| - k
  {
    if k == |ms| then None
    else if ms[k].role.OperandA? || ms[k].role.OperandB? then
      var op := ms[k].role.op;
      var a, b := WithRole(ms, OperandA(op)), WithRole(ms, OperandB(op));
      if a != [] && b != [] then
        Some(BinaryValue(op, lits[Best(a, slot, vocab, scores).lit].value,
          lits[Best(b, slot, vocab, scores).lit].value))
      else BinaryFromMarks(ms, k + 1, lits, slot, vocab, scores)
    else BinaryFromMarks(ms, k + 1, lits, slot, vocab, scores)
  }

  /** A scalar from its pointers: a one-literal map wins over a two-literal one. */
  function ScalarFromMarks(ms: seq<Mark>, lits: seq<Lit>, slot: string, vocab: seq<Pair>, scores: Scores): Option<real>
    requires forall m :: m in ms ==> m.lit < |lits|
  {
    var unary := Points(ms);
    if unary != [] then UnaryOf(Best(unary, slot, vocab, scores), lits)
    else BinaryFromMarks(ms, 0, lits, slot, vocab, scores)
  }

  // ---- one class

  /** The class pick, else the field's only value, else the operation's modal value. */
  function ClassValue(sch: Schema, op: string, name: string, conv: map<string, nat>): Option<ClassText>
    requires name in conv && name in sch.convVocab ==> conv[name] < |sch.convVocab[name]|
  {
    if name in conv && name in sch.convVocab then Some(sch.convVocab[name][conv[name]])
    else if name in sch.constDefault then Some(sch.constDefault[name])
    else if op in sch.opDefault && name in sch.opDefault[op] then Some(sch.opDefault[op][name])
    else None
  }

  function OfClass(c: Option<ClassText>): Decoded {
    match c
    case None => Missing
    case Some(NumClass(v)) => Number(v)
    case Some(CatClass(t)) => Category(t)
  }

  // ---- arrays

  datatype Group = Group(lit: nat, times: nat)

  function TimesOf(r: Role): nat {
    if r.Repeat? then r.times else 1
  }

  /** The anchor's literals with their repeats. */
  function Groups(ms: seq<Mark>): seq<Group> {
    if ms == [] then []
    else
      var gs, m := Groups(ms[..|ms| - 1]), ms[|ms| - 1];
      if gs != [] && gs[|gs| - 1].lit == m.lit then gs[..|gs| - 1] + [Group(m.lit, TimesOf(m.role))]
      else gs + [Group(m.lit, TimesOf(m.role))]
  }

  function Copies(v: Option<real>, n: nat): seq<Option<real>> {
    seq(n, _ => v)
  }

  /** The anchor array; none when a role is not a one-literal map. */
  function AnchorValues(ms: seq<Mark>, lits: seq<Lit>): Option<seq<Option<real>>>
    requires forall m :: m in ms ==> m.lit < |lits|
  {
    if ms == [] then Some([])
    else
      var m := ms[|ms| - 1];
      match AnchorValues(ms[..|ms| - 1], lits)
      case None => None
      case Some(vs) =>
        if UnaryOf(m, lits).None? then None else Some(vs + Copies(UnaryOf(m, lits), TimesOf(m.role)))
  }

  /** One past every literal index. */
  const NO_BOUND := 1_000_000_000

  function Window(ms: seq<Mark>, lo: int, hi: int): (r: seq<Mark>)
    ensures forall m :: m in r ==> m in ms
  {
    if ms == [] then []
    else
      var rest, m := Window(ms[..|ms| - 1], lo, hi), ms[|ms| - 1];
      if lo <= m.lit < hi then rest + [m] else rest
  }

  function GroupWindow(ms: seq<Mark>, gs: seq<Group>, k: nat): (r: seq<Mark>)
    requires k < |gs|
    ensures forall m :: m in r ==> m in ms
  {
    Window(ms, if |gs| == 1 && gs[0].times > 1 then -1 else gs[k].lit, if k + 1 < |gs| then gs[k + 1].lit else NO_BOUND)
  }

  /** The group's literals in order, then zeros up to the group's size. */
  function Filled(hit: seq<Mark>, n: nat, lits: seq<Lit>): seq<Option<real>>
    requires forall m :: m in hit ==> m.lit < |lits|
  {
    seq(n, c requires 0 <= c < n => if c < |hit| then UnaryOf(hit[c], lits) else Some(0.0))
  }

  /** The sibling array from group `k` on. */
  function SiblingValues(ms: seq<Mark>, gs: seq<Group>, k: nat, lits: seq<Lit>): seq<Option<real>>
    requires k <= |gs| && forall m :: m in ms ==> m.lit < |lits|
    decreases |gs| - k
  {
    if k == |gs| then []
    else Filled(GroupWindow(ms, gs, k), gs[k].times, lits) + SiblingValues(ms, gs, k + 1, lits)
  }

  // ---- a row

  ghost predicate Usable(sch: Schema, op: string, n: nat, ex: Example) {
    && op in sch.opFields && |ex.pairs| == n && IdsOk(ex.pairs, sch.pairs)
    && (forall name :: name in sch.opFields[op] ==>
      name in sch.kind && (sch.kind[name].ArrKind? ==> |name| >= |ARRAY_SUFFIX|))
    && (forall name :: name in ex.conv && name in sch.convVocab ==> ex.conv[name] < |sch.convVocab[name]|)
  }

  function MarksFor(sch: Schema, ex: Example, slot: string): seq<Mark>
    requires IdsOk(ex.pairs, sch.pairs)
  {
    SlotMarks(ex.pairs, |ex.pairs|, slot, sch.pairs)
  }

  lemma {:induction false} SlotMarksInRange(pairs: seq<seq<nat>>, n: nat, slot: string, vocab: seq<Pair>)
    requires n <= |pairs| && IdsOk(pairs, vocab)
    ensures forall m :: m in SlotMarks(pairs, n, slot, vocab) ==> m.lit < n
  {
    if n > 0 {
      SlotMarksInRange(pairs, n - 1, slot, vocab);
      IdsAtLit(pairs[n - 1], n - 1, slot, vocab);
    }
  }

  lemma IdsAtLit(ids: seq<nat>, li: nat, slot: string, vocab: seq<Pair>)
    requires forall k :: 0 <= k < |ids| ==> ids[k] < |vocab|
    ensures forall m :: m in IdsAt(ids, li, slot, vocab) ==> m.lit == li
  {
  }

  /** The value of one field of the operation. */
  function DecodeField(sch: Schema, op: string, lits: seq<Lit>, ex: Example, scores: Scores, name: string): Decoded
    requires Usable(sch, op, |lits|, ex) && name in sch.opFields[op]
  {
    SlotMarksInRange(ex.pairs, |ex.pairs|, name, sch.pairs);
    var ms := MarksFor(sch, ex, name);
    if sch.kind[name].ArrKind? then
      if op in sch.anchor && sch.anchor[op] == name then
        match AnchorValues(ms, lits) case None => Missing case Some(vs) => List(vs)
      else
        var gs := if op in sch.anchor then Groups(MarksFor(sch, ex, sch.anchor[op])) else [];
        List(SiblingValues(ms, gs, 0, lits))
    else
      match ScalarFromMarks(ms, lits, name, sch.pairs, scores)
      case Some(v) => Number(v)
      case None => OfClass(ClassValue(sch, op, name, ex.conv))
  }

  /** The key a schema field is written under. */
  function KeyOf(sch: Schema, name: string): string
    requires name in sch.kind && (sch.kind[name].ArrKind? ==> |name| >= |ARRAY_SUFFIX|)
  {
    if sch.kind[name].ArrKind? then name[..|name| - |ARRAY_SUFFIX|] else name
  }

  /** The parameters rebuilt from the first `n` fields of the operation. */
  function Rebuilt(sch: Schema, op: string, lits: seq<Lit>, ex: Example, scores: Scores, n: nat): map<string, Decoded>
    requires Usable(sch, op, |lits|, ex) && n <= |sch.opFields[op]|
  {
    if n == 0 then map[]
    else
      var name := sch.opFields[op][n - 1];
      Rebuilt(sch, op, lits, ex, scores, n - 1)[KeyOf(sch, name) := DecodeField(sch, op, lits, ex, scores, name)]
  }

  // ---- comparison with the gold

  function GoldOf(fields: seq<Fact>, n: nat): map<string, Gold>
    requires n <= |fields|
  {
    if n == 0 then map[] else GoldOf(fields, n - 1)[fields[n - 1].key := fields[n - 1].gold]
  }

  /** A gold value is reproduced at its own precision. */
  predicate FieldMatches(p: Decoded, g: Gold) {
    match g
    case Num(d) => p.Number? && NumEq(p.v, d)
    case Cat(t) => p == Category(t)
    case Arr(els) => p.List? && Reproduces(p.els, els)
  }

  predicate Reproduces(vs: seq<Option<real>>, els: seq<Decimal>) {
    |vs| == |els| && forall i :: 0 <= i < |els| ==> vs[i].Some? && NumEq(vs[i].value, els[i])
  }

  /** Every gold key is reproduced and nothing else is claimed. */
  predicate KeyMatches(pred: map<string, Decoded>, gold: map<string, Gold>, k: string) {
    if k in gold then k in pred && FieldMatches(pred[k], gold[k])
    else k in pred ==> pred[k].Missing?
  }

  ghost predicate ParamsMatch(pred: map<string, Decoded>, gold: map<string, Gold>) {
    forall k :: KeyMatches(pred, gold, k)
  }
}
