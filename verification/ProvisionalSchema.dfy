/** The loops of the first pass, and the provisional schema they build from a corpus. */
module ProvisionalSchema {
  import opened Corpus
  import opened FieldLearner
  import opened KeptLabels
  import opened Maps
  import opened Options
  import opened SchemaBuilder

  // ---- fields and kinds

  /** Every field name has one kind over all rows that have an operation. */
  ghost predicate KindsAgree(corpus: seq<Facts>) {
    forall i, j :: 0 <= i < |corpus| && 0 <= j < |corpus| && corpus[i].op.Some? && corpus[j].op.Some? ==>
      Compatible(corpus[i], corpus[j])
  }

  ghost predicate Compatible(f: Facts, g: Facts) {
    forall k, l :: 0 <= k < |f.fields| && 0 <= l < |g.fields| && f.fields[k].Name() == g.fields[l].Name() ==>
      f.fields[k].Kind() == g.fields[l].Kind()
  }

  /** `kind` says the kind of exactly the names of the rows with an operation. */
  ghost predicate KindsHold(corpus: seq<Facts>, kind: map<string, Kind>) {
    && (forall i, k :: 0 <= i < |corpus| && corpus[i].op.Some? && 0 <= k < |corpus[i].fields| ==>
      KindHolds(corpus[i].fields[k], kind))
    && (forall n :: n in kind ==> exists i, k ::
      0 <= i < |corpus| && 0 <= k < |corpus[i].fields| && Names(corpus[i], k, n))
  }

  predicate KindHolds(fd: Fact, kind: map<string, Kind>) {
    fd.Name() in kind && kind[fd.Name()] == fd.Kind()
  }

  predicate Names(f: Facts, k: nat, n: string)
    requires k < |f.fields|
  {
    f.op.Some? && f.fields[k].Name() == n
  }

  type Counters = map<string, seq<KeySet>>

  function SetsAt(sets: Counters, op: string): seq<KeySet> {
    if op in sets then sets[op] else []
  }

  ghost predicate HasRow(corpus: seq<Facts>, op: string) {
    exists i :: 0 <= i < |corpus| && corpus[i].op == Some(op)
  }

  /** The counters hold the key sets of exactly the operations that have rows. */
  ghost predicate SetsHold(corpus: seq<Facts>, sets: Counters) {
    forall op :: SetsAt(sets, op) == KeySets(corpus, op) && (op in sets <==> HasRow(corpus, op))
  }

  lemma SetsMore(corpus: seq<Facts>, i: nat, sets: Counters)
    requires i < |corpus| && SetsHold(corpus[..i], sets)
    ensures var f := corpus[i];
      SetsHold(corpus[..i + 1],
        if f.op.Some? then sets[f.op.value := Bump(SetsAt(sets, f.op.value), NamesOf(f))] else sets)
  {
    hide NamesOf, Bump;
    var f, init, all := corpus[i], corpus[..i], corpus[..i + 1];
    assert all[|all| - 1] == f && all[..|all| - 1] == init;
    forall op ensures HasRow(all, op) <==> HasRow(init, op) || f.op == Some(op) {
      if j :| 0 <= j < |init| && init[j].op == Some(op) {
        assert all[j].op == Some(op);
      }
      if f.op == Some(op) {
        assert all[i].op == Some(op);
      }
      if j :| 0 <= j < |all| && all[j].op == Some(op) && j < i {
        assert init[j].op == Some(op);
      }
    }
  }

  lemma NothingRead()
    ensures SetsHold([], map[]) && KindsHold([], map[])
  {
  }

  lemma KindsSame(corpus: seq<Facts>, i: nat, kind: map<string, Kind>)
    requires i < |corpus| && corpus[i].op.None? && KindsHold(corpus[..i], kind)
    ensures KindsHold(corpus[..i + 1], kind)
  {
    hide Fact.Kind, Fact.Name, KindHolds;
    var init, all := corpus[..i], corpus[..i + 1];
    forall j, k | 0 <= j < |all| && all[j].op.Some? && 0 <= k < |all[j].fields|
      ensures KindHolds(all[j].fields[k], kind)
    {
      assert all[j] == init[j];
    }
    forall n | n in kind ensures exists j, k :: 0 <= j < |all| && 0 <= k < |all[j].fields| && Names(all[j], k, n) {
      var j, k :| 0 <= j < |init| && 0 <= k < |init[j].fields| && Names(init[j], k, n);
      assert Names(all[j], k, n);
    }
  }

  /** Key sets counted and kinds checked, row by row; a field of two kinds is an error. */
  method ReadFields(corpus: seq<Facts>) returns (sets: Counters, kind: map<string, Kind>, ok: bool)
    ensures ok <==> KindsAgree(corpus)
    ensures ok ==> KindsHold(corpus, kind) && SetsHold(corpus, sets)
  {
    hide NamesOf, Bump, KindsHold, SetsHold, KindsAgree, Clash, KindHolds;
    sets, kind, ok := map[], map[], true;
    NothingRead();
    for i := 0 to |corpus|
      invariant KindsHold(corpus[..i], kind) && SetsHold(corpus[..i], sets)
    {
      var f := corpus[i];
      SetsMore(corpus, i, sets);
      if f.op.Some? {
        sets := sets[f.op.value := Bump(SetsAt(sets, f.op.value), NamesOf(f))];
        ghost var before := kind;
        kind, ok := ReadKinds(f, kind);
        if !ok {
          TwoKinds(corpus, i, before);
          return;
        }
        KindsMore(corpus, i, before, kind);
      } else {
        KindsSame(corpus, i, kind);
      }
    }
    assert corpus[..|corpus|] == corpus;
    HoldAgree(corpus, kind);
  }

  ghost predicate Clash(f: Facts, kind: map<string, Kind>) {
    (exists k :: 0 <= k < |f.fields| && f.fields[k].Name() in kind && kind[f.fields[k].Name()] != f.fields[k].Kind())
    || exists k, l :: 0 <= k < l < |f.fields| && f.fields[k].Name() == f.fields[l].Name() &&
                      f.fields[k].Kind() != f.fields[l].Kind()
  }

  /** One row's kinds; it fails on a name already known under another kind. */
  method ReadKinds(f: Facts, kind: map<string, Kind>) returns (kind': map<string, Kind>, ok: bool)
    ensures ok <==> !Clash(f, kind)
    ensures ok ==> (forall k :: 0 <= k < |f.fields| ==> KindHolds(f.fields[k], kind'))
    ensures ok ==> (forall n :: n in kind ==> n in kind' && kind'[n] == kind[n])
    ensures ok ==> (forall n :: n in kind' ==> n in kind || exists k :: 0 <= k < |f.fields| && f.fields[k].Name() == n)
  {
    hide Fact.Kind, Fact.Name;
    kind', ok := kind, true;
    for k := 0 to |f.fields|
      invariant forall j :: 0 <= j < k ==> KindHolds(f.fields[j], kind')
      invariant forall n :: n in kind ==> n in kind' && kind'[n] == kind[n]
      invariant forall n :: n in kind' ==> n in kind || exists j :: 0 <= j < k && f.fields[j].Name() == n
    {
      var fd := f.fields[k];
      if fd.Name() in kind' {
        if kind'[fd.Name()] != fd.Kind() {
          if fd.Name() !in kind {
            var j :| 0 <= j < k && f.fields[j].Name() == fd.Name();
            assert KindHolds(f.fields[j], kind');
          }
          ok := false;
          return;
        }
      } else {
        kind' := kind'[fd.Name() := fd.Kind()];
      }
    }
    forall k, l | 0 <= k < l < |f.fields| && f.fields[k].Name() == f.fields[l].Name()
      ensures f.fields[k].Kind() == f.fields[l].Kind()
    {
      assert KindHolds(f.fields[k], kind') && KindHolds(f.fields[l], kind');
    }
    forall k | 0 <= k < |f.fields| && f.fields[k].Name() in kind
      ensures kind[f.fields[k].Name()] == f.fields[k].Kind()
    {
      assert KindHolds(f.fields[k], kind');
    }
  }

  lemma TwoKinds(corpus: seq<Facts>, i: nat, kind: map<string, Kind>)
    requires i < |corpus| && corpus[i].op.Some? && KindsHold(corpus[..i], kind) && Clash(corpus[i], kind)
    ensures !KindsAgree(corpus)
  {
    hide Fact.Kind, Fact.Name;
    var f := corpus[i];
    if k, l :| 0 <= k < l < |f.fields| && f.fields[k].Name() == f.fields[l].Name() &&
               f.fields[k].Kind() != f.fields[l].Kind()
    {
      assert !Compatible(f, f);
    } else {
      var k :| 0 <= k < |f.fields| && f.fields[k].Name() in kind && kind[f.fields[k].Name()] != f.fields[k].Kind();
      var j, l :| 0 <= j < |corpus[..i]| && 0 <= l < |corpus[..i][j].fields| &&
        Names(corpus[..i][j], l, f.fields[k].Name());
      assert KindHolds(corpus[..i][j].fields[l], kind);
      assert corpus[..i][j] == corpus[j];
      assert !Compatible(corpus[j], f);
    }
  }

  lemma KindsMore(corpus: seq<Facts>, i: nat, before: map<string, Kind>, kind: map<string, Kind>)
    requires i < |corpus| && corpus[i].op.Some? && KindsHold(corpus[..i], before)
    requires forall k :: 0 <= k < |corpus[i].fields| ==> KindHolds(corpus[i].fields[k], kind)
    requires forall n :: n in before ==> n in kind && kind[n] == before[n]
    requires forall n :: n in kind ==> n in before || exists k ::
      0 <= k < |corpus[i].fields| && corpus[i].fields[k].Name() == n
    ensures KindsHold(corpus[..i + 1], kind)
  {
    hide Fact.Kind, Fact.Name;
    var all := corpus[..i + 1];
    forall j, k | 0 <= j < |all| && all[j].op.Some? && 0 <= k < |all[j].fields|
      ensures KindHolds(all[j].fields[k], kind)
    {
      if j < i {
        assert all[j] == corpus[..i][j];
        assert KindHolds(corpus[..i][j].fields[k], before);
      }
    }
    forall n | n in kind ensures exists j, k :: 0 <= j < |all| && 0 <= k < |all[j].fields| && Names(all[j], k, n) {
      if n in before {
        var j, k :| 0 <= j < |corpus[..i]| && 0 <= k < |corpus[..i][j].fields| && Names(corpus[..i][j], k, n);
        assert Names(all[j], k, n);
      } else {
        var k :| 0 <= k < |corpus[i].fields| && corpus[i].fields[k].Name() == n;
        assert Names(all[i], k, n);
      }
    }
  }

  lemma HoldAgree(corpus: seq<Facts>, kind: map<string, Kind>)
    requires KindsHold(corpus, kind)
    ensures KindsAgree(corpus)
  {
    hide Fact.Kind, Fact.Name;
    forall i, j | 0 <= i < |corpus| && 0 <= j < |corpus| && corpus[i].op.Some? && corpus[j].op.Some?
      ensures Compatible(corpus[i], corpus[j])
    {
      forall k, l | 0 <= k < |corpus[i].fields| && 0 <= l < |corpus[j].fields| &&
        corpus[i].fields[k].Name() == corpus[j].fields[l].Name()
        ensures corpus[i].fields[k].Kind() == corpus[j].fields[l].Kind()
      {
        assert KindHolds(corpus[i].fields[k], kind) && KindHolds(corpus[j].fields[l], kind);
      }
    }
  }

  /** The key sets of one operation merged, the most used first. */
  method MergeSets(ks: seq<KeySet>) returns (names: seq<string>)
    ensures names == UnionOf(ByCount(ks))
  {
    hide ByCount, AddMissing;
    var sorted := ByCount(ks);
    names := [];
    assert sorted[..0] == [];
    for i := 0 to |sorted|
      invariant names == UnionOf(sorted[..i])
    {
      assert sorted[..i + 1][..i] == sorted[..i];
      names := Append(names, sorted[i].names);
    }
    assert sorted[..|sorted|] == sorted;
  }

  method Append(out: seq<string>, names: seq<string>) returns (r: seq<string>)
    ensures r == AddMissing(out, names)
  {
    r := out;
    assert names[0..] == names;
    for i := 0 to |names|
      invariant AddMissing(r, names[i..]) == AddMissing(out, names)
    {
      assert names[i..][0] == names[i] && names[i..][1..] == names[i + 1..];
      if names[i] !in r {
        r := r + [names[i]];
      }
    }
  }

  // ---- conventions

  /** No literal of the row explains the number through any one-literal map. */
  predicate Unstated(f: Facts, k: nat)
    requires k < |f.fields|
  {
    f.fields[k].gold.Num? && UnaryCands(f.fields[k].gold.d, f.lits, true) == [] &&
      UnaryCands(f.fields[k].gold.d, f.lits, false) == []
  }

  predicate States(f: Facts, k: nat, name: string, c: ClassText)
    requires k < |f.fields|
  {
    f.fields[k].Name() == name && !f.fields[k].gold.Arr? && ClassOf(f.fields[k].gold) == c
  }

  /** How many of the first `n` fields of a row have this unstated value. */
  function RowUnstated(f: Facts, n: nat, name: string, c: ClassText): nat
    requires n <= |f.fields|
    decreases n
  {
    if n == 0 then 0
    else RowUnstated(f, n - 1, name, c) + if Unstated(f, n - 1) && States(f, n - 1, name, c) then 1 else 0
  }

  function TimesUnstated(corpus: seq<Facts>, name: string, c: ClassText): nat
    decreases |corpus|
  {
    if corpus == [] then 0
    else
      var f := corpus[|corpus| - 1];
      TimesUnstated(corpus[..|corpus| - 1], name, c) + RowUnstated(f, |f.fields|, name, c)
  }

  /** One of the first `n` fields of the row is this category. */
  predicate SeenCategory(f: Facts, n: nat, name: string, c: ClassText)
    requires n <= |f.fields|
  {
    exists k :: 0 <= k < n && f.fields[k].gold.Cat? && States(f, k, name, c)
  }

  predicate RowCategory(f: Facts, name: string, c: ClassText) {
    SeenCategory(f, |f.fields|, name, c)
  }

  /** Some row has this category for the name. */
  predicate Category(corpus: seq<Facts>, name: string, c: ClassText) {
    exists i :: 0 <= i < |corpus| && RowCategory(corpus[i], name, c)
  }

  ghost predicate HasCategories(corpus: seq<Facts>, name: string) {
    exists c :: Category(corpus, name, c)
  }

  /** What counts as a convention: every category of the name; without any, the numbers often
      enough unstated. */
  ghost predicate ConventionOf(corpus: seq<Facts>, minClass: nat, name: string, c: ClassText) {
    if HasCategories(corpus, name) then Category(corpus, name, c)
    else TimesUnstated(corpus, name, c) >= minClass && TimesUnstated(corpus, name, c) > 0
  }

  type ValueCounts = map<string, map<ClassText, nat>>

  function ValueAt(m: ValueCounts, name: string, c: ClassText): nat {
    if name in m then CountOf(m[name], c) else 0
  }

  function ValuesAt(m: map<string, set<ClassText>>, name: string): set<ClassText> {
    if name in m then m[name] else {}
  }

  /** One row added to the counts of unstated numbers and to the categories seen. */
  method CountRow(f: Facts, counts: ValueCounts, cats: map<string, set<ClassText>>)
    returns (counts': ValueCounts, cats': map<string, set<ClassText>>)
    ensures forall name, c ::
      ValueAt(counts', name, c) == ValueAt(counts, name, c) + RowUnstated(f, |f.fields|, name, c)
    ensures forall name, c :: c in ValuesAt(cats', name) <==> c in ValuesAt(cats, name) || RowCategory(f, name, c)
  {
    hide Unstated, Fact.Name, ValueAt, ValuesAt, Counted, ClassOf, SeenCategory;
    counts', cats' := counts, cats;
    NothingSeen(f);
    for k := 0 to |f.fields|
      invariant forall name, c :: ValueAt(counts', name, c) == ValueAt(counts, name, c) + RowUnstated(f, k, name, c)
      invariant forall name, c ::
        c in ValuesAt(cats', name) <==> c in ValuesAt(cats, name) || SeenCategory(f, k, name, c)
    {
      SeenMore(f, k, k + 1);
      var n, g := f.fields[k].Name(), f.fields[k].gold;
      if Unstated(f, k) {
        UnstatedIsNumber(f, k);
        CountedOnce(counts', n, ClassOf(g));
        counts' := Counted(counts', n, ClassOf(g));
      }
      ghost var before := cats';
      if g.Cat? {
        NotedOnce(cats', n, ClassOf(g));
        cats' := cats'[n := ValuesAt(cats', n) + {ClassOf(g)}];
      }
      assert forall name, c ::
        c in ValuesAt(cats', name) <==> c in ValuesAt(before, name) || (g.Cat? && States(f, k, name, c));
    }
  }

  lemma NothingSeen(f: Facts)
    ensures forall name, c :: !SeenCategory(f, 0, name, c)
  {
  }

  lemma SeenMore(f: Facts, k: nat, next: nat)
    requires k < |f.fields| && next == k + 1
    ensures forall name, c :: SeenCategory(f, next, name, c) <==>
      SeenCategory(f, k, name, c) || (f.fields[k].gold.Cat? && States(f, k, name, c))
  {
    hide States;
  }

  function Counted(m: ValueCounts, n: string, c: ClassText): ValueCounts {
    var known := if n in m then m[n] else map[];
    m[n := known[c := CountOf(known, c) + 1]]
  }

  lemma CountedOnce(m: ValueCounts, n: string, c: ClassText)
    ensures forall name, d ::
      ValueAt(Counted(m, n, c), name, d) == ValueAt(m, name, d) + if name == n && d == c then 1 else 0
  {
    NothingCounted<ClassText>();
    OneMore(if n in m then m[n] else map[], c);
  }

  lemma NotedOnce(m: map<string, set<ClassText>>, n: string, c: ClassText)
    ensures forall name, d ::
      d in ValuesAt(m[n := ValuesAt(m, n) + {c}], name) <==> d in ValuesAt(m, name) || (name == n && d == c)
  {
  }

  lemma UnstatedIsNumber(f: Facts, k: nat)
    requires k < |f.fields| && Unstated(f, k)
    ensures f.fields[k].gold.Num?
  {
  }

  lemma NothingCounted<K>()
    ensures forall c: K :: CountOf(map[], c) == 0
  {
  }

  method CountValues(corpus: seq<Facts>) returns (counts: ValueCounts, cats: map<string, set<ClassText>>)
    ensures forall name, c :: ValueAt(counts, name, c) == TimesUnstated(corpus, name, c)
    ensures forall name, c :: c in ValuesAt(cats, name) <==> Category(corpus, name, c)
  {
    hide RowUnstated, RowCategory, CountOf;
    counts, cats := map[], map[];
    for i := 0 to |corpus|
      invariant forall name, c :: ValueAt(counts, name, c) == TimesUnstated(corpus[..i], name, c)
      invariant forall name, c :: c in ValuesAt(cats, name) <==> Category(corpus[..i], name, c)
    {
      assert corpus[..i + 1] == corpus[..i] + [corpus[i]] && corpus[..i + 1][..i] == corpus[..i];
      CategoryMore(corpus, i);
      counts, cats := CountRow(corpus[i], counts, cats);
    }
    assert corpus[..|corpus|] == corpus;
  }

  lemma CategoryMore(corpus: seq<Facts>, i: nat)
    requires i < |corpus|
    ensures forall name, c ::
      Category(corpus[..i + 1], name, c) <==> Category(corpus[..i], name, c) || RowCategory(corpus[i], name, c)
  {
    hide RowCategory;
    var all, init := corpus[..i + 1], corpus[..i];
    forall name, c ensures Category(all, name, c) <==> Category(init, name, c) || RowCategory(corpus[i], name, c) {
      if j :| 0 <= j < |init| && RowCategory(init[j], name, c) {
        assert RowCategory(all[j], name, c);
      }
      if RowCategory(corpus[i], name, c) {
        assert RowCategory(all[i], name, c);
      }
      if j :| 0 <= j < |all| && RowCategory(all[j], name, c) && j < i {
        assert RowCategory(init[j], name, c);
      }
    }
  }

  /** The values of a name that become classes. */
  function Kept(counts: ValueCounts, cats: map<string, set<ClassText>>, minClass: nat, name: string): set<ClassText> {
    if ValuesAt(cats, name) != {} then cats[name]
    else if name in counts then set c | c in counts[name] && counts[name][c] >= minClass && counts[name][c] > 0
    else {}
  }

  /** The class head's vocabulary, or the only value. */
  predicate ClassOfField(vocab: map<string, seq<ClassText>>, only: map<string, ClassText>, name: string, c: ClassText) {
    if name in vocab then c in vocab[name] else name in only && only[name] == c
  }

  ghost predicate WellSplit(vocab: map<string, seq<ClassText>>, only: map<string, ClassText>) {
    forall name :: name in vocab ==> |vocab[name]| >= 2 && Distinct(vocab[name]) && name !in only
  }

  /** One name's classes: a vocabulary of several, a constant, or nothing. */
  method PlaceClasses(vocab: map<string, seq<ClassText>>, only: map<string, ClassText>, name: string,
      vals: seq<ClassText>)
    returns (vocab': map<string, seq<ClassText>>, only': map<string, ClassText>)
    requires name !in vocab && name !in only && Distinct(vals) && WellSplit(vocab, only)
    ensures forall m, c ::
      ClassOfField(vocab', only', m, c) <==> if m == name then c in vals else ClassOfField(vocab, only, m, c)
    ensures WellSplit(vocab', only')
    ensures forall m :: m in vocab' || m in only' ==> m == name || m in vocab || m in only
  {
    hide Distinct;
    vocab', only' := vocab, only;
    if |vals| == 1 {
      only' := only[name := vals[0]];
    } else if |vals| >= 2 {
      vocab' := vocab[name := vals];
    }
  }

  /** Names with several classes have a head, names with one a constant. */
  method SplitClasses(counts: ValueCounts, cats: map<string, set<ClassText>>, minClass: nat)
    returns (vocab: map<string, seq<ClassText>>, only: map<string, ClassText>)
    ensures forall name, c :: ClassOfField(vocab, only, name, c) <==> c in Kept(counts, cats, minClass, name)
    ensures WellSplit(vocab, only)
  {
    hide Kept, Distinct, ClassOfField, WellSplit;
    var names := Enumerate(counts.Keys + cats.Keys);
    EnumeratedOnce(names);
    vocab, only := map[], map[];
    NothingPlaced(counts, cats, minClass);
    for i := 0 to |names|
      invariant WellSplit(vocab, only) && forall m :: m in vocab || m in only ==> m in names[..i]
      invariant forall m, c ::
        ClassOfField(vocab, only, m, c) <==> m in names[..i] && c in Kept(counts, cats, minClass, m)
    {
      NewAt(names, i);
      var vals := Enumerate(Kept(counts, cats, minClass, names[i]));
      EnumeratedOnce(vals);
      vocab, only := PlaceClasses(vocab, only, names[i], vals);
    }
    assert names[..|names|] == names;
  }

  lemma NothingPlaced(counts: ValueCounts, cats: map<string, set<ClassText>>, minClass: nat)
    ensures WellSplit(map[], map[]) && forall m, c :: !ClassOfField(map[], map[], m, c)
    ensures forall name :: name !in counts.Keys + cats.Keys ==> Kept(counts, cats, minClass, name) == {}
  {
  }

  lemma EnumeratedOnce<T(!new)>(r: seq<T>)
    requires forall i, j :: 0 <= i < j < |r| ==> r[i] != r[j]
    ensures Distinct(r)
  {
  }

  lemma KeptAreConventions(corpus: seq<Facts>, minClass: nat, counts: ValueCounts, cats: map<string, set<ClassText>>,
      name: string, c: ClassText)
    requires forall d :: ValueAt(counts, name, d) == TimesUnstated(corpus, name, d)
    requires forall d :: d in ValuesAt(cats, name) <==> Category(corpus, name, d)
    ensures c in Kept(counts, cats, minClass, name) <==> ConventionOf(corpus, minClass, name, c)
  {
    hide TimesUnstated, Category;
    if ValuesAt(cats, name) != {} {
      var d :| d in ValuesAt(cats, name);
      assert Category(corpus, name, d);
    } else {
      assert forall d :: !Category(corpus, name, d);
      assert ValueAt(counts, name, c) == TimesUnstated(corpus, name, c);
    }
  }

  // ---- the schema

  const NONE_OP := "<NONE>"

  /** The first of the names that is an array. */
  function FirstArrayOf(kind: map<string, Kind>, names: seq<string>): (r: Option<string>)
    ensures r.Some? ==> r.value in names && r.value in kind && kind[r.value].ArrKind?
    ensures r.None? ==> forall n <- names :: n in kind ==> !kind[n].ArrKind?
    decreases |names|
  {
    if names == [] then None
    else if names[0] in kind && kind[names[0]].ArrKind? then Some(names[0])
    else FirstArrayOf(kind, names[1..])
  }

  type Shares = map<string, map<(Tag, Role), real>>

  /** What the first pass leaves: fields and anchors an operation, kinds, conventions, and no
      pairs, masks or answers yet. The usage shares are given. */
  ghost predicate Provisional(corpus: seq<Facts>, minClass: nat, shares: Shares, sch: Schema) {
    && KindsHold(corpus, sch.kind) && sch.compat == shares
    && sch.pairs == [] && sch.opPairs == map[] && sch.convOpMask == map[] && sch.opDefault == map[]
    && |sch.ops| > 0 && sch.ops[0] == NONE_OP && Distinct(sch.ops[1..])
    && (forall op :: op in sch.ops[1..] <==> HasRow(corpus, op))
    && (forall op :: op in sch.opFields <==> HasRow(corpus, op))
    && (forall op :: op in sch.opFields ==> sch.opFields[op] == FieldsOf(corpus, op))
    && (forall op :: op in sch.opFields ==> AnchorHolds(sch, op))
    && (forall name, c :: IsConvention(sch, name, c) <==> ConventionOf(corpus, minClass, name, c))
    && (forall name :: name in sch.convVocab ==> |sch.convVocab[name]| >= 2 && Distinct(sch.convVocab[name]))
  }

  predicate AnchorHolds(sch: Schema, op: string)
    requires op in sch.opFields
  {
    match FirstArrayOf(sch.kind, sch.opFields[op])
    case None => op !in sch.anchor
    case Some(n) => op in sch.anchor && sch.anchor[op] == n
  }

  /** The fields of every operation, the most used key set first, and their first arrays. */
  method MergeAll(corpus: seq<Facts>, sets: Counters, kind: map<string, Kind>)
    returns (ops: seq<string>, opFields: map<string, seq<string>>, anchor: map<string, string>)
    requires SetsHold(corpus, sets)
    ensures Distinct(ops) && forall op :: op in ops <==> HasRow(corpus, op)
    ensures forall op :: op in opFields <==> HasRow(corpus, op)
    ensures forall op :: op in opFields ==> opFields[op] == FieldsOf(corpus, op)
    ensures forall op :: op in opFields ==> match FirstArrayOf(kind, opFields[op])
      case None => op !in anchor
      case Some(n) => op in anchor && anchor[op] == n
  {
    hide HasRow, FirstArrayOf, UnionOf, ByCount, KeySets, Distinct;
    ops := Enumerate(sets.Keys);
    EnumeratedOnce(ops);
    opFields, anchor := map[], map[];
    for i := 0 to |ops|
      invariant forall op :: op in opFields <==> op in ops[..i]
      invariant forall op :: op in anchor ==> op in ops[..i]
      invariant forall op :: op in opFields ==> opFields[op] == FieldsOf(corpus, op)
      invariant forall op :: op in opFields ==> match FirstArrayOf(kind, opFields[op])
        case None => op !in anchor
        case Some(n) => op in anchor && anchor[op] == n
    {
      var op := ops[i];
      NewAt(ops, i);
      var names := MergeSets(SetsAt(sets, op));
      assert names == FieldsOf(corpus, op);
      opFields := opFields[op := names];
      match FirstArrayOf(kind, names) {
        case None =>
        case Some(n) => anchor := anchor[op := n];
      }
    }
    assert ops[..|ops|] == ops;
  }

  lemma NewAt(ops: seq<string>, i: nat)
    requires i < |ops| && Distinct(ops)
    ensures ops[i] !in ops[..i] && ops[..i + 1] == ops[..i] + [ops[i]]
  {
  }

  /** The first pass fails exactly when a field has two kinds. */
  method BuildProvisional(corpus: seq<Facts>, minClass: nat, shares: Shares) returns (r: Option<Schema>)
    ensures r.Some? <==> KindsAgree(corpus)
    ensures r.Some? ==> Provisional(corpus, minClass, shares, r.value)
  {
    hide KindsAgree, KindsHold, SetsHold, Kept, TimesUnstated, Category, ConventionOf, ValueAt, ValuesAt, FieldsOf,
      HasRow, Distinct, FirstArrayOf;
    var sets, kind, ok := ReadFields(corpus);
    if !ok {
      return None;
    }
    var counts, cats := CountValues(corpus);
    var vocab, only := SplitClasses(counts, cats, minClass);
    var ops, opFields, anchor := MergeAll(corpus, sets, kind);
    var sch := Schema([NONE_OP] + ops, opFields, kind, [], map[], vocab, map[], only, map[], shares, anchor);
    assert sch.ops[1..] == ops;
    forall name, c ensures IsConvention(sch, name, c) <==> ConventionOf(corpus, minClass, name, c) {
      KeptAreConventions(corpus, minClass, counts, cats, name, c);
      assert IsConvention(sch, name, c) == ClassOfField(vocab, only, name, c);
    }
    return Some(sch);
  }
}
