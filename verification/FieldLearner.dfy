/** The first pass of schema building: each operation's fields and their kinds, the values
    that count as conventions, and each operation's anchor array. */
module FieldLearner {
  import opened Corpus
  import opened KeptLabels
  import opened Labels
  import opened Options

  // ---- the key sets of an operation

  function NamesOf(f: Facts): (r: seq<string>)
    ensures |r| == |f.fields| && forall i :: 0 <= i < |r| ==> r[i] == f.fields[i].Name()
  {
    seq(|f.fields|, i requires 0 <= i < |f.fields| => f.fields[i].Name())
  }

  /** How many rows of the operation have exactly these fields, in this order. */
  function SetUses(corpus: seq<Facts>, op: string, names: seq<string>): nat
    decreases |corpus|
  {
    if corpus == [] then 0
    else
      var f := corpus[|corpus| - 1];
      SetUses(corpus[..|corpus| - 1], op, names) + if f.op == Some(op) && NamesOf(f) == names then 1 else 0
  }

  /** A key set with the number of its rows; a counter lists them in order of first use. */
  datatype KeySet = KeySet(names: seq<string>, count: nat)

  function Bump(ks: seq<KeySet>, names: seq<string>): (r: seq<KeySet>)
    decreases |ks|
  {
    if ks == [] then [KeySet(names, 1)]
    else if ks[0].names == names then [KeySet(names, ks[0].count + 1)] + ks[1..]
    else [ks[0]] + Bump(ks[1..], names)
  }

  function KeySets(corpus: seq<Facts>, op: string): seq<KeySet>
    decreases |corpus|
  {
    if corpus == [] then []
    else
      var f, before := corpus[|corpus| - 1], KeySets(corpus[..|corpus| - 1], op);
      if f.op == Some(op) then Bump(before, NamesOf(f)) else before
  }

  /** What the counter says of a key set, 0 when it is not listed. */
  function CountIn(ks: seq<KeySet>, names: seq<string>): nat
    decreases |ks|
  {
    if ks == [] then 0 else if ks[0].names == names then ks[0].count else CountIn(ks[1..], names)
  }

  predicate Listed(ks: seq<KeySet>, names: seq<string>) {
    exists i :: 0 <= i < |ks| && ks[i].names == names
  }

  lemma {:induction false} BumpCounts(ks: seq<KeySet>, names: seq<string>, other: seq<string>)
    ensures CountIn(Bump(ks, names), other) == CountIn(ks, other) + if other == names then 1 else 0
    ensures Listed(Bump(ks, names), other) <==> Listed(ks, other) || other == names
    ensures (forall k <- ks :: k.count > 0) ==> forall k <- Bump(ks, names) :: k.count > 0
    decreases |ks|
  {
    if ks == [] {
      assert Bump(ks, names) == [KeySet(names, 1)];
      assert Bump(ks, names)[0].names == names;
    } else if ks[0].names == names {
      var r := [KeySet(names, ks[0].count + 1)] + ks[1..];
      assert r[0].names == names;
      assert forall i :: 0 <= i < |ks| ==> r[i].names == ks[i].names;
    } else {
      BumpCounts(ks[1..], names, other);
      var rest := Bump(ks[1..], names);
      var r := [ks[0]] + rest;
      assert r[1..] == rest;
      ListedCons(ks, other);
      ListedCons(r, other);
    }
  }

  lemma ListedCons(ks: seq<KeySet>, names: seq<string>)
    requires ks != []
    ensures Listed(ks, names) <==> ks[0].names == names || Listed(ks[1..], names)
  {
    if i :| 0 <= i < |ks| && ks[i].names == names && i > 0 {
      assert ks[1..][i - 1].names == names;
    }
    if i :| 0 <= i < |ks[1..]| && ks[1..][i].names == names {
      assert ks[i + 1].names == names;
    }
  }

  /** The counter lists exactly the key sets in use, with the number of their rows. */
  lemma {:induction false} KeySetsCount(corpus: seq<Facts>, op: string, names: seq<string>)
    ensures CountIn(KeySets(corpus, op), names) == SetUses(corpus, op, names)
    ensures Listed(KeySets(corpus, op), names) <==> SetUses(corpus, op, names) > 0
    decreases |corpus|
  {
    hide Listed, CountIn, Bump;
    if corpus == [] {
      NothingListed(names);
    } else {
      var f := corpus[|corpus| - 1];
      KeySetsCount(corpus[..|corpus| - 1], op, names);
      BumpCounts(KeySets(corpus[..|corpus| - 1], op), NamesOf(f), names);
    }
  }

  lemma NothingListed(names: seq<string>)
    ensures CountIn([], names) == 0 && !Listed([], names)
  {
  }

  // ---- the union of the key sets, most used first

  /** The place of a key set by descending count, after the ones as frequent. */
  function Insert(ks: seq<KeySet>, k: KeySet): (r: seq<KeySet>)
    ensures |r| == |ks| + 1
    decreases |ks|
  {
    if ks == [] || ks[0].count < k.count then [k] + ks else [ks[0]] + Insert(ks[1..], k)
  }

  function ByCount(ks: seq<KeySet>): (r: seq<KeySet>)
    ensures |r| == |ks|
    decreases |ks|
  {
    if ks == [] then [] else Insert(ByCount(ks[..|ks| - 1]), ks[|ks| - 1])
  }

  lemma {:induction false} InsertKeeps(ks: seq<KeySet>, k: KeySet)
    ensures multiset(Insert(ks, k)) == multiset(ks) + multiset{k}
    decreases |ks|
  {
    if ks != [] && ks[0].count >= k.count {
      var rest := Insert(ks[1..], k);
      InsertKeeps(ks[1..], k);
      assert ks == [ks[0]] + ks[1..];
      assert multiset([ks[0]] + rest) == multiset{ks[0]} + multiset(rest);
    }
  }

  lemma {:induction false} ByCountPermutes(ks: seq<KeySet>)
    ensures multiset(ByCount(ks)) == multiset(ks)
    decreases |ks|
  {
    hide ByCount, Insert;
    ByCountStep(ks);
    if ks != [] {
      var init, k := ks[..|ks| - 1], ks[|ks| - 1];
      ByCountPermutes(init);
      InsertKeeps(ByCount(init), k);
      assert ks == init + [k];
    }
  }

  lemma ByCountStep(ks: seq<KeySet>)
    ensures ByCount(ks) == if ks == [] then [] else Insert(ByCount(ks[..|ks| - 1]), ks[|ks| - 1])
  {
    hide Insert;
  }

  /** A most used key set comes first. */
  lemma {:induction false} MostUsedFirst(ks: seq<KeySet>)
    requires ks != []
    ensures forall k <- ks :: k.count <= ByCount(ks)[0].count
    decreases |ks|
  {
    var init, k := ks[..|ks| - 1], ks[|ks| - 1];
    assert ks == init + [k];
    if init != [] {
      MostUsedFirst(init);
    }
  }

  function AddMissing(out: seq<string>, names: seq<string>): (r: seq<string>)
    ensures out <= r
    ensures forall n :: n in r <==> n in out || n in names
    ensures Distinct(out) ==> Distinct(r)
    decreases |names|
  {
    if names == [] then out
    else AddMissing(if names[0] in out then out else out + [names[0]], names[1..])
  }

  function UnionOf(ks: seq<KeySet>): (r: seq<string>)
    ensures Distinct(r)
    ensures forall n :: n in r <==> exists i :: 0 <= i < |ks| && n in ks[i].names
    decreases |ks|
  {
    if ks == [] then [] else AddMissing(UnionOf(ks[..|ks| - 1]), ks[|ks| - 1].names)
  }

  function FieldsOf(corpus: seq<Facts>, op: string): (r: seq<string>)
    ensures Distinct(r)
  {
    UnionOf(ByCount(KeySets(corpus, op)))
  }

  ghost predicate Occurs(corpus: seq<Facts>, op: string, n: string) {
    exists i :: 0 <= i < |corpus| && corpus[i].op == Some(op) && n in NamesOf(corpus[i])
  }

  lemma {:induction false} UsedSet(corpus: seq<Facts>, op: string, names: seq<string>)
    ensures SetUses(corpus, op, names) > 0 <==> exists i ::
      0 <= i < |corpus| && corpus[i].op == Some(op) && NamesOf(corpus[i]) == names
    decreases |corpus|
  {
    if corpus != [] {
      UsedSet(corpus[..|corpus| - 1], op, names);
    }
  }

  /** The operation's fields are exactly the names its rows have. */
  lemma {:induction false} FieldsExact(corpus: seq<Facts>, op: string, n: string)
    ensures n in FieldsOf(corpus, op) <==> Occurs(corpus, op, n)
  {
    hide NamesOf, KeySets, ByCount, SetUses;
    var ks := KeySets(corpus, op);
    ByCountPermutes(ks);
    assert forall k :: k in ByCount(ks) <==> k in multiset(ByCount(ks));
    if n in FieldsOf(corpus, op) {
      var j :| 0 <= j < |ByCount(ks)| && n in ByCount(ks)[j].names;
      var k := ByCount(ks)[j];
      assert k in multiset(ks);
      var i :| 0 <= i < |ks| && ks[i] == k;
      assert Listed(ks, k.names);
      KeySetsCount(corpus, op, k.names);
      UsedSet(corpus, op, k.names);
    }
    if i :| 0 <= i < |corpus| && corpus[i].op == Some(op) && n in NamesOf(corpus[i]) {
      var names := NamesOf(corpus[i]);
      UsedSet(corpus, op, names);
      KeySetsCount(corpus, op, names);
      var j :| 0 <= j < |ks| && ks[j].names == names;
      assert ks[j] in multiset(ByCount(ks));
      var q :| 0 <= q < |ByCount(ks)| && ByCount(ks)[q] == ks[j];
    }
  }

  lemma {:induction false} UnionGrows(ks: seq<KeySet>, i: nat)
    requires i <= |ks|
    ensures UnionOf(ks[..i]) <= UnionOf(ks)
    decreases |ks|
  {
    if i < |ks| {
      UnionGrows(ks[..|ks| - 1], i);
      assert ks[..|ks| - 1][..i] == ks[..i];
    } else {
      assert ks[..i] == ks;
    }
  }

  lemma {:induction false} AddToDistinct(out: seq<string>, names: seq<string>)
    requires Distinct(out + names)
    ensures AddMissing(out, names) == out + names
    decreases |names|
  {
    if names == [] {
      assert out + names == out;
    } else {
      assert out + names == out + [names[0]] + names[1..];
      assert (out + names)[|out|] == names[0];
      AddToDistinct(out + [names[0]], names[1..]);
    }
  }

  /** The fields start with a most used key set, in its own order, so the first array field
      of the operation is the first array of such a set when it has one. */
  lemma {:induction false} CommonestLeads(corpus: seq<Facts>, op: string) returns (names: seq<string>)
    requires exists i :: 0 <= i < |corpus| && corpus[i].op == Some(op)
    requires forall i :: 0 <= i < |corpus| ==> DistinctNames(corpus[i])
    ensures names <= FieldsOf(corpus, op) && forall other :: SetUses(corpus, op, other) <= SetUses(corpus, op, names)
  {
    hide NamesOf, KeySets, ByCount, SetUses, DistinctNames;
    var i :| 0 <= i < |corpus| && corpus[i].op == Some(op);
    var ks := KeySets(corpus, op);
    UsedSet(corpus, op, NamesOf(corpus[i]));
    KeySetsCount(corpus, op, NamesOf(corpus[i]));
    assert ks != [];
    var sorted := ByCount(ks);
    names := sorted[0].names;
    ByCountPermutes(ks);
    assert sorted[0] in multiset(ks);
    KeySetsDistinct(corpus, op);
    var j :| 0 <= j < |ks| && ks[j] == sorted[0];
    CountAt(ks, j);
    KeySetsCount(corpus, op, names);
    UsedSet(corpus, op, names);
    MostUsedFirst(ks);
    forall other ensures SetUses(corpus, op, other) <= SetUses(corpus, op, names) {
      KeySetsCount(corpus, op, other);
      CountBelow(ks, other, sorted[0].count);
    }
    var row :| 0 <= row < |corpus| && corpus[row].op == Some(op) && NamesOf(corpus[row]) == names;
    NamesDistinct(corpus[row]);
    UnionGrows(sorted, 1);
    assert sorted[..1] == [sorted[0]] && sorted[..1][..0] == [];
    assert [] + names == names;
    AddToDistinct([], names);
  }

  lemma NamesDistinct(f: Facts)
    requires DistinctNames(f)
    ensures Distinct(NamesOf(f))
  {
  }

  ghost predicate DistinctSets(ks: seq<KeySet>) {
    forall i, j :: 0 <= i < j < |ks| ==> ks[i].names != ks[j].names
  }

  lemma {:induction false} BumpDistinct(ks: seq<KeySet>, names: seq<string>)
    requires DistinctSets(ks)
    ensures DistinctSets(Bump(ks, names))
    decreases |ks|
  {
    if ks != [] && ks[0].names != names {
      BumpDistinct(ks[1..], names);
      var rest := Bump(ks[1..], names);
      forall i | 0 <= i < |rest| ensures rest[i].names != ks[0].names {
        BumpCounts(ks[1..], names, rest[i].names);
        assert Listed(rest, rest[i].names);
      }
    }
  }

  lemma {:induction false} KeySetsDistinct(corpus: seq<Facts>, op: string)
    ensures DistinctSets(KeySets(corpus, op))
    decreases |corpus|
  {
    hide Bump, DistinctSets;
    if corpus == [] {
      assert DistinctSets([]) by { NoSets(); }
    } else {
      KeySetsDistinct(corpus[..|corpus| - 1], op);
      BumpDistinct(KeySets(corpus[..|corpus| - 1], op), NamesOf(corpus[|corpus| - 1]));
    }
  }

  lemma NoSets()
    ensures DistinctSets([])
  {
  }

  lemma {:induction false} CountAt(ks: seq<KeySet>, j: nat)
    requires j < |ks| && DistinctSets(ks)
    ensures CountIn(ks, ks[j].names) == ks[j].count
    decreases |ks|
  {
    if j > 0 {
      CountAt(ks[1..], j - 1);
    }
  }

  lemma {:induction false} CountBelow(ks: seq<KeySet>, names: seq<string>, most: nat)
    requires forall k <- ks :: k.count <= most
    ensures CountIn(ks, names) <= most
    decreases |ks|
  {
    if ks != [] {
      assert ks[0] in ks;
      CountBelow(ks[1..], names, most);
    }
  }
}
