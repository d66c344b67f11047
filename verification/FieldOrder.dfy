/** In which order an operation's fields stand: a field whose key set was used more often, or
    as often and earlier, comes first; within a key set its own order holds. */
module FieldOrder {
  import opened Corpus
  import opened FieldLearner
  import opened KeptLabels
  import opened Options
  import opened ProvisionalSchema

  // ---- which key set comes first

  predicate UsedAt(f: Facts, op: string, names: seq<string>) {
    f.op == Some(op) && NamesOf(f) == names
  }

  /** The first row of the operation with exactly these fields, or the number of rows. */
  function FirstUse(corpus: seq<Facts>, op: string, names: seq<string>): (i: nat)
    ensures i <= |corpus| && (i < |corpus| ==> UsedAt(corpus[i], op, names))
    ensures forall j :: 0 <= j < i ==> !UsedAt(corpus[j], op, names)
  {
    if corpus == [] || UsedAt(corpus[0], op, names) then 0 else 1 + FirstUse(corpus[1..], op, names)
  }

  ghost predicate Used(corpus: seq<Facts>, op: string, names: seq<string>) {
    SetUses(corpus, op, names) > 0
  }

  /** Used by more rows, or by as many and earlier. */
  ghost predicate MoreUsed(corpus: seq<Facts>, op: string, s: seq<string>, t: seq<string>) {
    var m, n := SetUses(corpus, op, s), SetUses(corpus, op, t);
    m > n || (m == n && FirstUse(corpus, op, s) < FirstUse(corpus, op, t))
  }

  // ---- the counter lists key sets by first use

  ghost predicate ByFirstUse(ks: seq<KeySet>, corpus: seq<Facts>, op: string) {
    forall i, j :: 0 <= i < j < |ks| ==> FirstUse(corpus, op, ks[i].names) < FirstUse(corpus, op, ks[j].names)
  }

  ghost predicate SameNames(a: seq<KeySet>, b: seq<KeySet>) {
    |a| == |b| && forall i :: 0 <= i < |a| ==> a[i].names == b[i].names
  }

  lemma {:induction false} BumpNames(ks: seq<KeySet>, names: seq<string>)
    ensures if Listed(ks, names) then SameNames(Bump(ks, names), ks)
            else SameNames(Bump(ks, names), ks + [KeySet(names, 1)])
    decreases |ks|
  {
    if ks != [] {
      ListedCons(ks, names);
      if ks[0].names != names {
        BumpNames(ks[1..], names);
        var rest := Bump(ks[1..], names);
        assert Bump(ks, names) == [ks[0]] + rest;
        assert !Listed(ks, names) ==> (ks + [KeySet(names, 1)])[1..] == ks[1..] + [KeySet(names, 1)];
      } else {
        assert Bump(ks, names) == [KeySet(names, ks[0].count + 1)] + ks[1..];
      }
    }
  }

  /** A row more does not move a first use, unless it is the first. */
  lemma FirstUseSnoc(corpus: seq<Facts>, f: Facts, op: string, names: seq<string>)
    ensures var i := FirstUse(corpus, op, names);
      FirstUse(corpus + [f], op, names) == if i < |corpus| || UsedAt(f, op, names) then i else i + 1
  {
    hide UsedAt;
    var all := corpus + [f];
    assert forall j :: 0 <= j < |corpus| ==> all[j] == corpus[j];
    assert all[|corpus|] == f;
    var i, j := FirstUse(corpus, op, names), FirstUse(all, op, names);
    assert i < |corpus| ==> all[i] == corpus[i];
    assert j < |corpus| ==> corpus[j] == all[j];
  }

  lemma FirstUseUsed(corpus: seq<Facts>, op: string, names: seq<string>)
    ensures FirstUse(corpus, op, names) < |corpus| <==> Used(corpus, op, names)
  {
    hide NamesOf;
    UsedSet(corpus, op, names);
    if i :| 0 <= i < |corpus| && corpus[i].op == Some(op) && NamesOf(corpus[i]) == names {
      assert UsedAt(corpus[i], op, names);
    }
  }

  lemma ListedUsed(corpus: seq<Facts>, op: string, i: nat)
    requires i < |KeySets(corpus, op)|
    ensures Used(corpus, op, KeySets(corpus, op)[i].names)
  {
    hide KeySets, SetUses;
    var ks := KeySets(corpus, op);
    assert Listed(ks, ks[i].names);
    KeySetsCount(corpus, op, ks[i].names);
  }

  lemma {:induction false} KeySetsByFirstUse(corpus: seq<Facts>, op: string)
    ensures ByFirstUse(KeySets(corpus, op), corpus, op)
    decreases |corpus|
  {
    hide Bump, NamesOf, SetUses, FirstUse, UsedAt, Listed;
    if corpus != [] {
      var init, f := corpus[..|corpus| - 1], corpus[|corpus| - 1];
      var before := KeySets(init, op);
      assert corpus == init + [f];
      KeySetsByFirstUse(init, op);
      forall i | 0 <= i < |before|
        ensures FirstUse(corpus, op, before[i].names) == FirstUse(init, op, before[i].names) < |init|
      {
        ListedUsed(init, op, i);
        FirstUseUsed(init, op, before[i].names);
        FirstUseSnoc(init, f, op, before[i].names);
      }
      if f.op == Some(op) {
        BumpNames(before, NamesOf(f));
        NewLast(init, f, op, NamesOf(f));
        KeySetsCount(init, op, NamesOf(f));
      }
    }
  }

  /** Fields first used by the last row are first used there. */
  lemma NewLast(corpus: seq<Facts>, f: Facts, op: string, names: seq<string>)
    requires f.op == Some(op) && names == NamesOf(f)
    ensures !Used(corpus, op, names) ==> FirstUse(corpus + [f], op, names) == |corpus|
  {
    hide NamesOf, SetUses, FirstUse;
    FirstUseUsed(corpus, op, names);
    FirstUseSnoc(corpus, f, op, names);
  }

  // ---- sorting by count keeps that order among equals

  ghost predicate InRankOrder(ks: seq<KeySet>, corpus: seq<Facts>, op: string) {
    forall i, j :: 0 <= i < j < |ks| ==> Outranks(ks[i], ks[j], corpus, op)
  }

  ghost predicate Outranks(k: KeySet, l: KeySet, corpus: seq<Facts>, op: string) {
    k.count > l.count || (k.count == l.count && FirstUse(corpus, op, k.names) < FirstUse(corpus, op, l.names))
  }

  lemma {:induction false} InsertRanked(ks: seq<KeySet>, k: KeySet, corpus: seq<Facts>, op: string)
    requires InRankOrder(ks, corpus, op)
    requires forall x <- ks :: FirstUse(corpus, op, x.names) < FirstUse(corpus, op, k.names)
    ensures InRankOrder(Insert(ks, k), corpus, op)
    ensures forall x :: x in Insert(ks, k) <==> x in ks || x == k
    decreases |ks|
  {
    hide FirstUse;
    if ks != [] && ks[0].count >= k.count {
      InsertRanked(ks[1..], k, corpus, op);
      var rest := Insert(ks[1..], k);
      assert Outranks(ks[0], k, corpus, op);
      forall i | 0 <= i < |rest| ensures Outranks(ks[0], rest[i], corpus, op) {
        assert rest[i] in rest;
        if rest[i] in ks[1..] {
          var j :| 0 <= j < |ks| - 1 && ks[1..][j] == rest[i];
          assert ks[j + 1] == rest[i];
        }
      }
    }
  }

  lemma {:induction false} ByCountRanked(ks: seq<KeySet>, corpus: seq<Facts>, op: string)
    requires ByFirstUse(ks, corpus, op)
    ensures InRankOrder(ByCount(ks), corpus, op) && forall x :: x in ByCount(ks) <==> x in ks
    decreases |ks|
  {
    hide FirstUse, Insert, InRankOrder, ByFirstUse, ByCount;
    ByCountStep(ks);
    if ks == [] {
      NothingRanked(corpus, op);
    } else {
      var init, k := ks[..|ks| - 1], ks[|ks| - 1];
      assert ks == init + [k];
      FirstUseInit(init, k, corpus, op);
      ByCountRanked(init, corpus, op);
      InsertRanked(ByCount(init), k, corpus, op);
    }
  }

  lemma NothingRanked(corpus: seq<Facts>, op: string)
    ensures InRankOrder([], corpus, op)
  {
  }

  lemma FirstUseInit(init: seq<KeySet>, k: KeySet, corpus: seq<Facts>, op: string)
    requires ByFirstUse(init + [k], corpus, op)
    ensures ByFirstUse(init, corpus, op)
    ensures forall x <- init :: FirstUse(corpus, op, x.names) < FirstUse(corpus, op, k.names)
  {
    hide FirstUse;
    var ks := init + [k];
    assert ks[|init|] == k && forall i :: 0 <= i < |init| ==> ks[i] == init[i];
  }

  /** The operation's key sets in the order they are merged: each used one once, the more used
      first, with the number of its rows. */
  lemma MergeOrder(corpus: seq<Facts>, op: string)
    ensures var r := ByCount(KeySets(corpus, op));
      && (forall i, j :: 0 <= i < j < |r| ==> MoreUsed(corpus, op, r[i].names, r[j].names))
      && (forall i :: 0 <= i < |r| ==> Used(corpus, op, r[i].names))
      && (forall t :: Used(corpus, op, t) ==> exists i :: 0 <= i < |r| && r[i].names == t)
  {
    hide FirstUse, KeySets, ByCount, SetUses;
    var ks := KeySets(corpus, op);
    var r := ByCount(ks);
    KeySetsByFirstUse(corpus, op);
    ByCountRanked(ks, corpus, op);
    KeySetsDistinct(corpus, op);
    forall i | 0 <= i < |r| ensures r[i].count == SetUses(corpus, op, r[i].names) > 0 {
      assert r[i] in ks;
      var j :| 0 <= j < |ks| && ks[j] == r[i];
      CountAt(ks, j);
      KeySetsCount(corpus, op, r[i].names);
      ListedUsed(corpus, op, j);
    }
    forall i, j | 0 <= i < j < |r| ensures MoreUsed(corpus, op, r[i].names, r[j].names) {
      assert Outranks(r[i], r[j], corpus, op);
    }
    forall t | Used(corpus, op, t) ensures exists i :: 0 <= i < |r| && r[i].names == t {
      KeySetsCount(corpus, op, t);
      var j :| 0 <= j < |ks| && ks[j].names == t;
      assert ks[j] in r;
    }
  }

  // ---- the union keeps the order

  ghost predicate Precedes(s: seq<string>, m: string, n: string) {
    exists i, j :: 0 <= i < j < |s| && s[i] == m && s[j] == n
  }

  lemma PrefixPrecedes(a: seq<string>, s: seq<string>, m: string, n: string)
    requires a <= s && m in a && n in s && n !in a
    ensures Precedes(s, m, n)
  {
    var i :| 0 <= i < |a| && a[i] == m;
    var j :| 0 <= j < |s| && s[j] == n;
    assert s[i] == m;
    assert forall k :: 0 <= k < |a| ==> s[k] == a[k] != n;
  }

  /** The first of the key sets that has the field. */
  ghost predicate FirstWith(r: seq<KeySet>, i: nat, n: string) {
    i < |r| && n in r[i].names && forall j :: 0 <= j < i ==> n !in r[j].names
  }

  lemma UnionPrecedes(r: seq<KeySet>, m: string, n: string, i: nat)
    requires i < |r| && m in r[i].names && n in UnionOf(r) && forall j :: 0 <= j <= i ==> n !in r[j].names
    ensures Precedes(UnionOf(r), m, n)
  {
    hide UnionOf;
    UnionGrows(r, i + 1);
    var a := UnionOf(r[..i + 1]);
    assert r[..i + 1][i] == r[i];
    assert m in a;
    assert n !in a;
    PrefixPrecedes(a, UnionOf(r), m, n);
  }

  lemma {:induction false} AddMissingSplit(out: seq<string>, a: seq<string>, b: seq<string>)
    ensures AddMissing(out, a + b) == AddMissing(AddMissing(out, a), b)
    decreases |a|
  {
    if a == [] {
      assert a + b == b;
    } else {
      assert (a + b)[0] == a[0] && (a + b)[1..] == a[1..] + b;
      AddMissingSplit(if a[0] in out then out else out + [a[0]], a[1..], b);
    }
  }

  lemma UnionSnoc(r: seq<KeySet>, i: nat)
    requires i < |r|
    ensures UnionOf(r[..i + 1]) == AddMissing(UnionOf(r[..i]), r[i].names)
  {
    hide AddMissing;
    assert r[..i + 1][..i] == r[..i];
  }

  /** Two fields that a key set is the first to have stand in its order. */
  lemma UnionKeepsOrder(r: seq<KeySet>, i: nat, x: nat, y: nat)
    requires i < |r| && x < y < |r[i].names| && Distinct(r[i].names)
    requires FirstWith(r, i, r[i].names[x]) && FirstWith(r, i, r[i].names[y])
    ensures Precedes(UnionOf(r), r[i].names[x], r[i].names[y])
  {
    hide UnionOf, AddMissing;
    var names := r[i].names;
    var m, n := names[x], names[y];
    var before := UnionOf(r[..i]);
    assert forall j :: 0 <= j < i ==> r[..i][j] == r[j];
    assert n !in before;
    AddMissingSplit(before, names[..x + 1], names[x + 1..]);
    assert names == names[..x + 1] + names[x + 1..];
    var a := AddMissing(before, names[..x + 1]);
    assert names[..x + 1][x] == m;
    assert n !in names[..x + 1];
    UnionSnoc(r, i);
    UnionGrows(r, i + 1);
    assert a <= UnionOf(r[..i + 1]) <= UnionOf(r);
    assert n in names;
    PrefixPrecedes(a, UnionOf(r), m, n);
  }

  // ---- the fields

  lemma NotBoth(corpus: seq<Facts>, op: string, s: seq<string>, t: seq<string>)
    ensures !(MoreUsed(corpus, op, s, t) && MoreUsed(corpus, op, t, s))
  {
    hide FirstUse, SetUses;
  }

  /** A field with a key set that is used more than every key set of another field comes first. */
  lemma UseDecides(corpus: seq<Facts>, op: string, s: seq<string>, m: string, n: string)
    requires Used(corpus, op, s) && m in s && n in FieldsOf(corpus, op)
    requires forall t :: Used(corpus, op, t) && n in t ==> MoreUsed(corpus, op, s, t)
    ensures Precedes(FieldsOf(corpus, op), m, n)
  {
    hide KeySets, ByCount, UnionOf, MoreUsed, Used, Precedes;
    var r := ByCount(KeySets(corpus, op));
    MergeOrder(corpus, op);
    var i :| 0 <= i < |r| && r[i].names == s;
    forall j | 0 <= j <= i ensures n !in r[j].names {
      NotBoth(corpus, op, s, r[j].names);
    }
    UnionPrecedes(r, m, n, i);
  }

  /** Two fields of one key set stand in its order, when every other key set with either of
      them is used less. */
  lemma SetDecides(corpus: seq<Facts>, op: string, s: seq<string>, x: nat, y: nat)
    requires Used(corpus, op, s) && x < y < |s| && Distinct(s)
    requires forall t :: Used(corpus, op, t) && t != s && (s[x] in t || s[y] in t) ==> MoreUsed(corpus, op, s, t)
    ensures Precedes(FieldsOf(corpus, op), s[x], s[y])
  {
    hide KeySets, ByCount, UnionOf, MoreUsed, Used, Precedes;
    var r := ByCount(KeySets(corpus, op));
    MergeOrder(corpus, op);
    var i :| 0 <= i < |r| && r[i].names == s;
    forall j | 0 <= j < i ensures s[x] !in r[j].names && s[y] !in r[j].names {
      NotBoth(corpus, op, s, r[j].names);
    }
    UnionKeepsOrder(r, i, x, y);
  }

  // ---- the anchor

  lemma {:induction false} FirstArrayLeads(kind: map<string, Kind>, names: seq<string>, b: string)
    requires b in names && b in kind && kind[b].ArrKind?
    ensures FirstArrayOf(kind, names).Some?
    ensures FirstArrayOf(kind, names) == Some(b) || Precedes(names, FirstArrayOf(kind, names).value, b)
    decreases |names|
  {
    if names[0] in kind && kind[names[0]].ArrKind? {
      var j :| 0 <= j < |names| && names[j] == b;
      if j > 0 {
        assert names[0] == FirstArrayOf(kind, names).value;
      }
    } else {
      var tail := names[1..];
      FirstArrayLeads(kind, tail, b);
      var a := FirstArrayOf(kind, tail).value;
      if a != b {
        var i, j :| 0 <= i < j < |tail| && tail[i] == a && tail[j] == b;
        assert names[i + 1] == a && names[j + 1] == b;
      }
    }
  }

  lemma PrecedesOnce(s: seq<string>, m: string, n: string)
    requires Distinct(s) && Precedes(s, m, n)
    ensures !Precedes(s, n, m)
  {
  }

  /** The anchor of an operation is an array that no other array of it beats: none has a key
      set that is used more than every key set of the anchor. */
  lemma AnchorUnbeaten(corpus: seq<Facts>, minClass: nat, shares: Shares, sch: Schema, op: string, b: string,
      s: seq<string>)
    requires Provisional(corpus, minClass, shares, sch) && op in sch.anchor && op in sch.opFields
    requires b != sch.anchor[op] && b in sch.kind && sch.kind[b].ArrKind? && Used(corpus, op, s) && b in s
    ensures exists t :: Used(corpus, op, t) && sch.anchor[op] in t && !MoreUsed(corpus, op, s, t)
  {
    hide KindsHold, FieldsOf, HasRow, ConventionOf, IsConvention, SetUses, MoreUsed, Used, FirstArrayOf, Precedes;
    var a, names := sch.anchor[op], FieldsOf(corpus, op);
    assert AnchorHolds(sch, op);
    UsedField(corpus, op, s, b);
    FirstArrayLeads(sch.kind, names, b);
    if forall t :: Used(corpus, op, t) && a in t ==> MoreUsed(corpus, op, s, t) {
      UseDecides(corpus, op, s, b, a);
      PrecedesOnce(names, a, b);
    }
  }

  lemma UsedField(corpus: seq<Facts>, op: string, s: seq<string>, n: string)
    requires Used(corpus, op, s) && n in s
    ensures n in FieldsOf(corpus, op)
  {
    hide NamesOf, FieldsOf, SetUses;
    UsedSet(corpus, op, s);
    FieldsExact(corpus, op, n);
  }
}
