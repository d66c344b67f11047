/** The second pass of schema building: label the whole corpus with provisional,
    name-level pairs, and learn from it the pair vocabulary, each operation's masks and
    each operation's answers. */
module SchemaBuilder {
  import opened Corpus
  import opened KeptLabels
  import Labeller
  import opened Labels
  import opened Options

  function CountOf<K(==)>(c: map<K, nat>, x: K): nat {
    if x in c then c[x] else 0
  }

  // ---- what a row contributes

  /** How many of the first `n` literals of a row carry a pair. */
  function LitsWith(f: Facts, sch: Schema, p: Pair, n: nat): nat {
    if n == 0 then 0
    else LitsWith(f, sch, p, n - 1) + if Mark(n - 1, p.role) in MarksOf(f, sch, p.slot) then 1 else 0
  }

  predicate Uses(f: Facts, sch: Schema, p: Pair) {
    LitsWith(f, sch, p, |f.lits|) > 0
  }

  /** How often a pair is used in a corpus of rows with operations. */
  function PairUses(corpus: seq<Facts>, sch: Schema, p: Pair): nat {
    if corpus == [] then 0
    else
      var f := corpus[|corpus| - 1];
      PairUses(corpus[..|corpus| - 1], sch, p) + if f.op.Some? then LitsWith(f, sch, p, |f.lits|) else 0
  }

  /** Some row of the operation uses the pair. */
  predicate OpUses(corpus: seq<Facts>, sch: Schema, op: string, p: Pair) {
    exists i :: 0 <= i < |corpus| && corpus[i].op == Some(op) && Uses(corpus[i], sch, p)
  }

  predicate Classed(f: Facts, sch: Schema, name: string, c: ClassText) {
    var labels := ClassLabels(f, sch, |f.fields|);
    name in labels && labels[name] == c
  }

  /** How many rows of the operation carry the class. */
  function ClassUses(corpus: seq<Facts>, sch: Schema, op: string, name: string, c: ClassText): nat {
    if corpus == [] then 0
    else
      var f := corpus[|corpus| - 1];
      ClassUses(corpus[..|corpus| - 1], sch, op, name, c) +
      if f.op == Some(op) && Classed(f, sch, name, c) then 1 else 0
  }

  // ---- one row's tally

  lemma OneMore<K>(c: map<K, nat>, x: K)
    ensures forall k :: CountOf(c[x := CountOf(c, x) + 1], k) == CountOf(c, k) + if k == x then 1 else 0
  {
  }

  method TallyLiteral<K(==)>(names: set<K>, count: map<K, nat>) returns (count': map<K, nat>)
    ensures forall p :: CountOf(count', p) == CountOf(count, p) + if p in names then 1 else 0
    ensures forall p :: p in count' <==> p in count || p in names
  {
    hide CountOf;
    count' := count;
    var todo := names;
    while todo != {}
      invariant todo <= names
      invariant forall p :: CountOf(count', p) == CountOf(count, p) + if p in names && p !in todo then 1 else 0
      invariant forall p :: p in count' <==> p in count || (p in names && p !in todo)
      decreases |todo|
    {
      var p :| p in todo;
      todo := todo - {p};
      OneMore(count', p);
      count' := count'[p := CountOf(count', p) + 1];
    }
  }

  lemma NamesAt(f: Facts, sch: Schema, pairs: seq<set<Pair>>, li: nat, p: Pair)
    requires Labelled(f, sch, pairs) && li < |pairs|
    ensures p in pairs[li] <==> Mark(li, p.role) in MarksOf(f, sch, p.slot)
  {
    hide MarksOf;
    assert Represents(pairs, p.slot, MarksOf(f, sch, p.slot));
    assert p == Pair(p.slot, p.role);
  }

  /** The labels of a row, literal by literal, added to the counts and the pairs seen. */
  method TallyRow(f: Facts, sch: Schema, pairs: seq<set<Pair>>, count: map<Pair, nat>)
    returns (count': map<Pair, nat>, seen: set<Pair>)
    requires Labelled(f, sch, pairs)
    ensures forall p :: CountOf(count', p) == CountOf(count, p) + LitsWith(f, sch, p, |f.lits|)
    ensures forall p :: p in seen <==> Uses(f, sch, p)
    ensures forall p :: p in count' <==> p in count || p in seen
  {
    hide MarksOf, Labelled, CountOf;
    assert |pairs| == |f.lits| by { LabelledLength(f, sch, pairs); }
    count', seen := count, {};
    for li := 0 to |pairs|
      invariant forall p :: CountOf(count', p) == CountOf(count, p) + LitsWith(f, sch, p, li)
      invariant forall p :: p in seen <==> LitsWith(f, sch, p, li) > 0
      invariant forall p :: p in count' <==> p in count || p in seen
    {
      forall p ensures p in pairs[li] <==> Mark(li, p.role) in MarksOf(f, sch, p.slot) {
        NamesAt(f, sch, pairs, li, p);
      }
      count' := TallyLiteral(pairs[li], count');
      seen := seen + pairs[li];
    }
  }

  lemma LabelledLength(f: Facts, sch: Schema, pairs: seq<set<Pair>>)
    requires Labelled(f, sch, pairs)
    ensures |pairs| == |f.lits|
  {
  }

  // ---- the vocabulary

  /** The members of a set, each once. The order is the caller's not to rely on. */
  method Enumerate<T(==)>(s: set<T>) returns (r: seq<T>)
    ensures (forall x :: x in r <==> x in s) && forall i, j :: 0 <= i < j < |r| ==> r[i] != r[j]
  {
    r := [];
    var todo := s;
    while todo != {}
      invariant todo <= s && forall x :: x in r <==> x in s && x !in todo
      invariant forall i, j :: 0 <= i < j < |r| ==> r[i] != r[j]
      decreases |todo|
    {
      var x :| x in todo;
      todo := todo - {x};
      r := r + [x];
    }
  }

  // ---- the second pass

  type ClassCounts = map<(string, string), map<ClassText, nat>>

  function CountsAt(m: ClassCounts, k: (string, string)): map<ClassText, nat> {
    if k in m then m[k] else map[]
  }

  function SeenAt(m: map<string, set<Pair>>, op: string): set<Pair> {
    if op in m then m[op] else {}
  }

  /** What the second pass has counted over the rows read so far. */
  ghost predicate Tallied(corpus: seq<Facts>, sch: Schema, count: map<Pair, nat>, seen: map<string, set<Pair>>,
      answers: ClassCounts) {
    && (forall p :: CountOf(count, p) == PairUses(corpus, sch, p))
    && (forall op, p :: p in SeenAt(seen, op) <==> OpUses(corpus, sch, op, p))
    && (forall op, n, c :: CountOf(CountsAt(answers, (n, op)), c) == ClassUses(corpus, sch, op, n, c))
    && NoneEmpty(seen) && NoneZero(answers)
  }

  /** An operation has an entry only if it has used a pair. */
  ghost predicate NoneEmpty(seen: map<string, set<Pair>>) {
    forall op :: op in seen ==> seen[op] != {}
  }

  /** A field has an entry only if it has answered, and then with classes that were counted. */
  ghost predicate NoneZero(answers: ClassCounts) {
    forall k :: k in answers ==> answers[k] != map[] && forall c :: c in answers[k] ==> answers[k][c] > 0
  }

  /** A row's classes, added to what its operation has answered. */
  method TallyClasses(op: string, labels: map<string, ClassText>, answers: ClassCounts) returns (r: ClassCounts)
    requires NoneZero(answers)
    ensures NoneZero(r)
    ensures forall o, n, c ::
      CountOf(CountsAt(r, (n, o)), c) ==
      CountOf(CountsAt(answers, (n, o)), c) + if o == op && n in labels && labels[n] == c then 1 else 0
  {
    r := answers;
    var todo := labels.Keys;
    while todo != {}
      invariant todo <= labels.Keys && NoneZero(r)
      invariant forall o, n, c :: CountOf(CountsAt(r, (n, o)), c) ==
                  CountOf(CountsAt(answers, (n, o)), c) +
                  if o == op && n in labels && n !in todo && labels[n] == c then 1 else 0
      decreases |todo|
    {
      var n :| n in todo;
      todo := todo - {n};
      var here := CountsAt(r, (n, op));
      NoneZeroWith(r, (n, op), labels[n]);
      r := r[(n, op) := here[labels[n] := CountOf(here, labels[n]) + 1]];
    }
  }

  lemma NoneZeroWith(m: ClassCounts, k: (string, string), c: ClassText)
    requires NoneZero(m)
    ensures NoneZero(m[k := CountsAt(m, k)[c := CountOf(CountsAt(m, k), c) + 1]])
  {
    var after := CountsAt(m, k)[c := CountOf(CountsAt(m, k), c) + 1];
    assert c in after;
  }

  lemma {:induction false} OneMoreOp(corpus: seq<Facts>, f: Facts, sch: Schema, op: string, p: Pair)
    ensures OpUses(corpus + [f], sch, op, p) <==> OpUses(corpus, sch, op, p) || (f.op == Some(op) && Uses(f, sch, p))
  {
    hide Uses;
    var all := corpus + [f];
    assert all[|corpus|] == f && forall i :: 0 <= i < |corpus| ==> all[i] == corpus[i];
  }

  lemma {:induction false} OneMoreClass(corpus: seq<Facts>, f: Facts, sch: Schema, op: string, name: string,
      c: ClassText)
    ensures ClassUses(corpus + [f], sch, op, name, c) ==
      ClassUses(corpus, sch, op, name, c) + if f.op == Some(op) && Classed(f, sch, name, c) then 1 else 0
  {
    hide Classed;
    assert (corpus + [f])[..|corpus|] == corpus;
  }

  lemma {:induction false} OneMorePair(corpus: seq<Facts>, f: Facts, sch: Schema, p: Pair)
    ensures PairUses(corpus + [f], sch, p) ==
      PairUses(corpus, sch, p) + if f.op.Some? then LitsWith(f, sch, p, |f.lits|) else 0
  {
    hide LitsWith;
    assert (corpus + [f])[..|corpus|] == corpus;
  }

  /** Reads one more row of the corpus. */
  method ReadRow(f: Facts, sch: Schema, count: map<Pair, nat>, seen: map<string, set<Pair>>, answers: ClassCounts,
      ghost corpus: seq<Facts>)
    returns (count': map<Pair, nat>, seen': map<string, set<Pair>>, answers': ClassCounts)
    requires DistinctNames(f) && Tallied(corpus, sch, count, seen, answers)
    ensures Tallied(corpus + [f], sch, count', seen', answers')
  {
    hide LitsWith, ClassLabels, Labelled, CountOf, OpUses, ClassUses, PairUses;
    count', seen', answers' := count, seen, answers;
    forall op, p
      ensures OpUses(corpus + [f], sch, op, p) <==> OpUses(corpus, sch, op, p) || (f.op == Some(op) && Uses(f, sch, p))
    {
      OneMoreOp(corpus, f, sch, op, p);
    }
    forall op, n, c ensures ClassUses(corpus + [f], sch, op, n, c) ==
                            ClassUses(corpus, sch, op, n, c) +
                            if f.op == Some(op) && Classed(f, sch, n, c) then 1 else 0 {
      OneMoreClass(corpus, f, sch, op, n, c);
    }
    forall p ensures PairUses(corpus + [f], sch, p) ==
                     PairUses(corpus, sch, p) + if f.op.Some? then LitsWith(f, sch, p, |f.lits|) else 0 {
      OneMorePair(corpus, f, sch, p);
    }
    if f.op.Some? {
      var lab := Labeller.LabelFacts(f, sch);
      var rowSeen;
      count', rowSeen := TallyRow(f, sch, lab.pairs, count);
      if rowSeen != {} {
        seen' := seen[f.op.value := SeenAt(seen, f.op.value) + rowSeen];
      }
      answers' := TallyClasses(f.op.value, lab.conv, answers);
    }
  }

  // ---- the final schema

  /** What the second pass learns, from the provisional schema. */
  ghost predicate Learned(corpus: seq<Facts>, sch0: Schema, minPair: nat, sch: Schema) {
    && sch == sch0.(pairs := sch.pairs, opPairs := sch.opPairs, convOpMask := sch.convOpMask,
      opDefault := sch.opDefault)
    && Distinct(sch.pairs)
    && (forall p :: p in sch.pairs <==> PairUses(corpus, sch0, p) >= minPair && PairUses(corpus, sch0, p) > 0)
    && (forall op, i: nat :: InMask(sch.opPairs, op, i) <==> i < |sch.pairs| && OpUses(corpus, sch0, op, sch.pairs[i]))
    && (forall name, op, i: nat :: InClassMask(sch, name, op, i) <==>
          name in sch0.convVocab && i < |sch0.convVocab[name]| &&
            ClassUses(corpus, sch0, op, name, sch0.convVocab[name][i]) > 0)
    && (forall op, name :: HasDefault(sch, op, name) ==> MostUsed(corpus, sch0, op, name, sch.opDefault[op][name]))
    && (forall op, name :: HasDefault(sch, op, name) <==> Answered(corpus, sch0, op, name))
    && MasksNamed(corpus, sch0, sch)
  }

  /** Some row of the operation has a label. */
  ghost predicate UsesSome(corpus: seq<Facts>, sch0: Schema, op: string) {
    exists p :: OpUses(corpus, sch0, op, p)
  }

  /** Some row of the operation has a class of the field. */
  ghost predicate Answered(corpus: seq<Facts>, sch0: Schema, op: string, name: string) {
    exists c :: ClassUses(corpus, sch0, op, name, c) > 0
  }

  /** Which masks there are: one for each operation with labels, and for each field with a
      class head one for each operation that answered it. */
  ghost predicate MasksNamed(corpus: seq<Facts>, sch0: Schema, sch: Schema) {
    && (forall op :: op in sch.opPairs <==> UsesSome(corpus, sch0, op))
    && sch.convOpMask.Keys == sch0.convVocab.Keys
    && (forall name, op :: name in sch.convOpMask ==>
          (op in sch.convOpMask[name] <==> Answered(corpus, sch0, op, name)))
  }

  /** No class answers more rows of the operation. */
  ghost predicate MostUsed(corpus: seq<Facts>, sch0: Schema, op: string, name: string, c: ClassText) {
    forall d :: ClassUses(corpus, sch0, op, name, d) <= ClassUses(corpus, sch0, op, name, c)
  }

  ghost predicate IsModal(m: map<ClassText, nat>, c: ClassText) {
    forall d :: CountOf(m, d) <= CountOf(m, c)
  }

  predicate InMask(m: map<string, set<nat>>, op: string, i: nat) {
    op in m && i in m[op]
  }

  predicate InClassMask(sch: Schema, name: string, op: string, i: nat) {
    name in sch.convOpMask && InMask(sch.convOpMask[name], op, i)
  }

  predicate HasDefault(sch: Schema, op: string, name: string) {
    op in sch.opDefault && name in sch.opDefault[op]
  }

  /** The commonest class. */
  method Modal(m: map<ClassText, nat>) returns (c: ClassText)
    requires m != map[]
    ensures IsModal(m, c)
  {
    c :| c in m;
    var todo := m.Keys - {c};
    while todo != {}
      invariant todo <= m.Keys && c in m
      invariant forall d :: d in m && d !in todo ==> m[d] <= m[c]
      decreases |todo|
    {
      var d :| d in todo;
      todo := todo - {d};
      if m[d] > m[c] {
        c := d;
      }
    }
  }

  /** Every operation's modal class of every field it has answered. */
  method ModalClasses(answers: ClassCounts) returns (r: map<string, map<string, ClassText>>)
    ensures forall op, n :: (op in r && n in r[op]) <==> CountsAt(answers, (n, op)) != map[]
    ensures forall op, n :: op in r && n in r[op] ==> IsModal(CountsAt(answers, (n, op)), r[op][n])
  {
    r := map[];
    var todo := answers.Keys;
    while todo != {}
      invariant todo <= answers.Keys
      invariant forall op, n :: (op in r && n in r[op]) <==> (n, op) !in todo && CountsAt(answers, (n, op)) != map[]
      invariant forall op, n :: op in r && n in r[op] ==> IsModal(CountsAt(answers, (n, op)), r[op][n])
      decreases |todo|
    {
      var k :| k in todo;
      todo := todo - {k};
      if answers[k] != map[] {
        var c := Modal(answers[k]);
        r := r[k.1 := (if k.1 in r then r[k.1] else map[])[k.0 := c]];
      }
    }
  }

  function OpMasks(seen: map<string, set<Pair>>, pairs: seq<Pair>): (r: map<string, set<nat>>)
    ensures forall op, i: nat :: InMask(r, op, i) <==> i < |pairs| && pairs[i] in SeenAt(seen, op)
  {
    map op | op in seen :: set i: nat | i < |pairs| && pairs[i] in seen[op]
  }

  function ClassMasks(answers: ClassCounts, name: string, vocab: seq<ClassText>): (r: map<string, set<nat>>)
    ensures forall op, i: nat ::
      InMask(r, op, i) <==> i < |vocab| && CountOf(CountsAt(answers, (name, op)), vocab[i]) > 0
  {
    map k | k in answers && k.0 == name :: k.1 := set i: nat | i < |vocab| && CountOf(answers[k], vocab[i]) > 0
  }

  /** The uses over the whole corpus. */
  method TallyCorpus(corpus: seq<Facts>, sch0: Schema)
    returns (count: map<Pair, nat>, seen: map<string, set<Pair>>, answers: ClassCounts)
    requires forall i :: 0 <= i < |corpus| ==> DistinctNames(corpus[i])
    ensures Tallied(corpus, sch0, count, seen, answers)
  {
    hide Tallied, DistinctNames;
    count, seen, answers := map[], map[], map[];
    NothingTallied(sch0);
    assert corpus[..0] == [];
    for i := 0 to |corpus|
      invariant Tallied(corpus[..i], sch0, count, seen, answers)
    {
      count, seen, answers := ReadRow(corpus[i], sch0, count, seen, answers, corpus[..i]);
      assert corpus[..i + 1] == corpus[..i] + [corpus[i]];
    }
    assert corpus[..|corpus|] == corpus;
  }

  /** The second pass: label every row with the provisional schema, keep the pairs used at
      least `minPair` times, and record what each operation used. */
  method LearnPairs(corpus: seq<Facts>, sch0: Schema, minPair: nat) returns (sch: Schema)
    requires forall i :: 0 <= i < |corpus| ==> DistinctNames(corpus[i])
    ensures Learned(corpus, sch0, minPair, sch)
  {
    hide *;
    var count, seen, answers := TallyCorpus(corpus, sch0);
    var pairs := PairsKept(count, minPair);
    var defaults := ModalClasses(answers);
    sch := Assemble(sch0, pairs, seen, answers, defaults);
    AssembledMasks(sch0, pairs, seen, answers, defaults);
    SamePairs(sch0, sch, pairs, seen, answers);
    ReadOff(corpus, sch0, minPair, sch, count, seen, answers);
  }

  /** The pairs used at least `minPair` times. */
  method PairsKept(count: map<Pair, nat>, minPair: nat) returns (pairs: seq<Pair>)
    ensures Distinct(pairs) && forall p :: p in pairs <==> p in count && count[p] >= minPair && count[p] > 0
  {
    pairs := Enumerate(set p | p in count && count[p] >= minPair && count[p] > 0);
  }

  function Assemble(sch0: Schema, pairs: seq<Pair>, seen: map<string, set<Pair>>, answers: ClassCounts,
      defaults: map<string, map<string, ClassText>>): Schema
  {
    var masks := map name | name in sch0.convVocab :: ClassMasks(answers, name, sch0.convVocab[name]);
    sch0.(pairs := pairs, opPairs := OpMasks(seen, pairs), convOpMask := masks, opDefault := defaults)
  }

  lemma SamePairs(sch0: Schema, sch: Schema, pairs: seq<Pair>, seen: map<string, set<Pair>>, answers: ClassCounts)
    requires Recorded(sch0, sch, pairs, seen, answers)
    ensures sch.pairs == pairs
  {
  }

  lemma AssembledMasks(sch0: Schema, pairs: seq<Pair>, seen: map<string, set<Pair>>, answers: ClassCounts,
      defaults: map<string, map<string, ClassText>>)
    requires forall op, n :: (op in defaults && n in defaults[op]) <==> CountsAt(answers, (n, op)) != map[]
    requires forall op, n ::
      op in defaults && n in defaults[op] ==> IsModal(CountsAt(answers, (n, op)), defaults[op][n])
    ensures Recorded(sch0, Assemble(sch0, pairs, seen, answers, defaults), pairs, seen, answers)
  {
    hide IsModal, InMask, CountOf, CountsAt, KeysSeen;
    AssembledKeys(sch0, pairs, seen, answers, defaults);
  }

  lemma AssembledKeys(sch0: Schema, pairs: seq<Pair>, seen: map<string, set<Pair>>, answers: ClassCounts,
      defaults: map<string, map<string, ClassText>>)
    ensures KeysSeen(sch0, Assemble(sch0, pairs, seen, answers, defaults), seen, answers)
  {
    hide InMask, CountOf, CountsAt;
    forall name | name in sch0.convVocab
      ensures forall op :: op in ClassMasks(answers, name, sch0.convVocab[name]) <==> (name, op) in answers
    {
      ClassMaskKeys(answers, name, sch0.convVocab[name]);
    }
  }

  lemma ClassMaskKeys(answers: ClassCounts, name: string, vocab: seq<ClassText>)
    ensures forall op :: op in ClassMasks(answers, name, vocab) <==> (name, op) in answers
  {
    hide InMask, CountOf, CountsAt;
    forall op | (name, op) in answers ensures op in ClassMasks(answers, name, vocab) {
      assert (name, op).0 == name && (name, op).1 == op;
    }
  }

  /** The schema says what was seen: pairs and classes per operation, and a modal class
      wherever one was counted. */
  ghost predicate Recorded(sch0: Schema, sch: Schema, pairs: seq<Pair>, seen: map<string, set<Pair>>,
      answers: ClassCounts) {
    && sch.pairs == pairs
    && sch == sch0.(pairs := sch.pairs, opPairs := sch.opPairs, convOpMask := sch.convOpMask,
      opDefault := sch.opDefault)
    && (forall op, i: nat :: InMask(sch.opPairs, op, i) <==> i < |sch.pairs| && sch.pairs[i] in SeenAt(seen, op))
    && (forall name, op, i: nat :: InClassMask(sch, name, op, i) <==> ClassSeen(sch0, answers, name, op, i))
    && (forall op, n :: HasDefault(sch, op, n) <==> CountsAt(answers, (n, op)) != map[])
    && (forall op, n :: HasDefault(sch, op, n) ==> IsModal(CountsAt(answers, (n, op)), sch.opDefault[op][n]))
    && KeysSeen(sch0, sch, seen, answers)
  }

  ghost predicate KeysSeen(sch0: Schema, sch: Schema, seen: map<string, set<Pair>>, answers: ClassCounts) {
    && sch.opPairs.Keys == seen.Keys && sch.convOpMask.Keys == sch0.convVocab.Keys
    && forall name, op :: name in sch.convOpMask ==> (op in sch.convOpMask[name] <==> (name, op) in answers)
  }

  predicate ClassSeen(sch0: Schema, answers: ClassCounts, name: string, op: string, i: nat) {
    && name in sch0.convVocab && i < |sch0.convVocab[name]|
    && CountOf(CountsAt(answers, (name, op)), sch0.convVocab[name][i]) > 0
  }

  lemma NothingTallied(sch: Schema)
    ensures Tallied([], sch, map[], map[], map[])
  {
  }

  lemma {:induction false} ReadOff(corpus: seq<Facts>, sch0: Schema, minPair: nat, sch: Schema, count: map<Pair, nat>,
      seen: map<string, set<Pair>>, answers: ClassCounts)
    requires Tallied(corpus, sch0, count, seen, answers)
    requires Recorded(sch0, sch, sch.pairs, seen, answers)
    requires Distinct(sch.pairs) && forall p :: p in sch.pairs <==> p in count && count[p] >= minPair && count[p] > 0
    ensures Learned(corpus, sch0, minPair, sch)
  {
    hide OpUses, ClassUses, PairUses, Answered, KeysSeen, MasksNamed, NoneEmpty, NoneZero;
    forall op, n | HasDefault(sch, op, n) ensures MostUsed(corpus, sch0, op, n, sch.opDefault[op][n]) {
      var m := CountsAt(answers, (n, op));
      assert forall c :: CountOf(m, c) == ClassUses(corpus, sch0, op, n, c);
    }
    forall p ensures p in sch.pairs <==> PairUses(corpus, sch0, p) >= minPair && PairUses(corpus, sch0, p) > 0 {
      assert CountOf(count, p) == PairUses(corpus, sch0, p);
    }
    forall op, n ensures HasDefault(sch, op, n) <==> Answered(corpus, sch0, op, n) {
      AnsweredAt(corpus, sch0, count, seen, answers, op, n);
    }
    KeysRead(corpus, sch0, sch, count, seen, answers);
  }

  lemma AnsweredAt(corpus: seq<Facts>, sch0: Schema, count: map<Pair, nat>, seen: map<string, set<Pair>>,
      answers: ClassCounts, op: string, n: string)
    requires Tallied(corpus, sch0, count, seen, answers)
    ensures Answered(corpus, sch0, op, n) <==> (n, op) in answers
    ensures Answered(corpus, sch0, op, n) <==> CountsAt(answers, (n, op)) != map[]
  {
    hide OpUses, ClassUses, PairUses;
    if (n, op) in answers {
      var c :| c in answers[(n, op)];
      assert CountOf(CountsAt(answers, (n, op)), c) == ClassUses(corpus, sch0, op, n, c);
    }
    if Answered(corpus, sch0, op, n) {
      var c :| ClassUses(corpus, sch0, op, n, c) > 0;
      assert CountOf(CountsAt(answers, (n, op)), c) > 0;
    }
  }

  lemma KeysRead(corpus: seq<Facts>, sch0: Schema, sch: Schema, count: map<Pair, nat>, seen: map<string, set<Pair>>,
      answers: ClassCounts)
    requires Tallied(corpus, sch0, count, seen, answers) && KeysSeen(sch0, sch, seen, answers)
    ensures MasksNamed(corpus, sch0, sch)
  {
    hide OpUses, ClassUses, PairUses, Answered, CountOf, CountsAt;
    forall op ensures op in sch.opPairs <==> UsesSome(corpus, sch0, op) {
      if op in seen {
        var p :| p in seen[op];
        assert p in SeenAt(seen, op);
      }
      if UsesSome(corpus, sch0, op) {
        var p :| OpUses(corpus, sch0, op, p);
        assert p in SeenAt(seen, op);
      }
    }
    forall name, op | name in sch.convOpMask ensures op in sch.convOpMask[name] <==> Answered(corpus, sch0, op, name) {
      AnsweredAt(corpus, sch0, count, seen, answers, op, name);
    }
  }
}
