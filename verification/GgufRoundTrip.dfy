/** Reading undoes writing for every nested metadata block, and a block cut short anywhere
    is refused. */
module GgufRoundTrip {
  import opened Bytes
  import opened Gguf

  // ---- reading back what was written

  lemma TakeReadsBack(b: seq<Byte>, at: nat, bytes: seq<Byte>)
    requires at <= |b| && bytes <= b[at..]
    ensures TakeAt(b, at, |bytes|) == Ok(bytes, at + |bytes|)
  {
    assert |bytes| <= |b[at..]|;
    assert bytes == b[at..][..|bytes|] == b[at..at + |bytes|];
  }

  lemma UintReadsBack(b: seq<Byte>, at: nat, n: nat, width: nat)
    requires at <= |b| && n < Limit(width) && LittleEndian(n, width) <= b[at..]
    ensures UintAt(b, at, width) == Ok(n, at + width)
  {
    hide LittleEndian, FromLittleEndian, TakeAt;
    TakeReadsBack(b, at, LittleEndian(n, width));
    LittleEndianReadsBack(n, width);
  }

  lemma StringReadsBack(b: seq<Byte>, at: nat, s: seq<Byte>)
    requires at <= |b| && |s| < Limit(8) && EncodeString(s) <= b[at..]
    ensures StringAt(b, at) == Ok(s, at + |EncodeString(s)|)
  {
    hide LittleEndian, UintAt, TakeAt, Limit;
    PrefixAt(LittleEndian(|s|, 8), s, b, at);
    UintReadsBack(b, at, |s|, 8);
    TakeReadsBack(b, at + 8, s);
  }

  lemma {:induction false} ValueReadsBack(b: seq<Byte>, at: nat, v: Value)
    requires at <= |b| && WellFormed(v) && EncodeValue(v) <= b[at..]
    ensures ValueAt(b, at, v.Type()) == Ok(v, at + |EncodeValue(v)|)
    decreases v
  {
    hide Limit, LittleEndian, UintAt, StringAt, TakeAt, EncodeString, EncodeItems;
    match v {
      case Fixed(t, bytes) => TakeReadsBack(b, at, bytes);
      case Str(text) => StringReadsBack(b, at, text);
      case Arr(inner, items) =>
        var x, y, z := LittleEndian(inner, 4), LittleEndian(|items|, 8), EncodeItems(items);
        assert x + y + z == x + (y + z);
        PrefixAt(x, y + z, b, at);
        PrefixAt(y, z, b, at + 4);
        UintReadsBack(b, at, inner, 4);
        UintReadsBack(b, at + 4, |items|, 8);
        ItemsReadBack(b, at + 12, inner, items);
    }
  }

  lemma {:induction false} ItemsReadBack(b: seq<Byte>, at: nat, inner: nat, items: seq<Value>)
    requires at <= |b| && EncodeItems(items) <= b[at..]
    requires forall i :: 0 <= i < |items| ==> WellFormed(items[i]) && items[i].Type() == inner
    ensures ItemsAt(b, at, inner, |items|) == Ok(items, at + |EncodeItems(items)|)
    decreases items
  {
    hide ValueAt, WellFormed, EncodeValue;
    if items != [] {
      var next := at + |EncodeValue(items[0])|;
      PrefixAt(EncodeValue(items[0]), EncodeItems(items[1..]), b, at);
      ValueReadsBack(b, at, items[0]);
      ItemsReadBack(b, next, inner, items[1..]);
      assert [items[0]] + items[1..] == items;
    }
  }

  lemma TypeFits(v: Value)
    requires WellFormed(v)
    ensures v.Type() < Limit(4)
  {
    assert Limit(4) == 256 * Limit(3) == 256 * (256 * Limit(2));
  }

  lemma PairReadsBack(b: seq<Byte>, at: nat, p: Pair)
    requires at <= |b| && PairFits(p) && EncodePair(p) <= b[at..]
    ensures PairAt(b, at) == Ok(p, at + |EncodePair(p)|)
  {
    hide Limit, LittleEndian, UintAt, StringAt, ValueAt, EncodeString, EncodeValue, WellFormed;
    var x, y, z := EncodeString(p.key), LittleEndian(p.value.Type(), 4), EncodeValue(p.value);
    assert x + y + z == x + (y + z);
    PrefixAt(x, y + z, b, at);
    PrefixAt(y, z, b, at + |x|);
    StringReadsBack(b, at, p.key);
    TypeFits(p.value);
    UintReadsBack(b, at + |x|, p.value.Type(), 4);
    ValueReadsBack(b, at + |x| + 4, p.value);
  }

  /** The dictionary that adding the pairs in order to `out` gives. */
  function DictOf(ps: seq<Pair>, out: Dict): Dict
    decreases |ps|
  {
    if ps == [] then out else DictOf(ps[1..], out[ps[0].key := ps[0].value])
  }

  lemma {:induction false} PairsReadBack(b: seq<Byte>, at: nat, ps: seq<Pair>, out: Dict)
    requires at <= |b| && (forall i :: 0 <= i < |ps| ==> PairFits(ps[i])) && EncodePairs(ps) <= b[at..]
    ensures PairsAt(b, at, |ps|, out) == Ok(DictOf(ps, out), at + |EncodePairs(ps)|)
    decreases |ps|
  {
    hide PairAt, EncodePair;
    if ps != [] {
      PrefixAt(EncodePair(ps[0]), EncodePairs(ps[1..]), b, at);
      PairReadsBack(b, at, ps[0]);
      PairsReadBack(b, at + |EncodePair(ps[0])|, ps[1..], out[ps[0].key := ps[0].value]);
    }
  }

  predicate Mentions(ps: seq<Pair>, key: seq<Byte>) {
    exists i :: 0 <= i < |ps| && ps[i].key == key
  }

  /** Every key comes from a pair or was there before; what no pair mentions keeps its value. */
  lemma {:induction false} DictKeys(ps: seq<Pair>, out: Dict, key: seq<Byte>)
    ensures key in DictOf(ps, out) <==> key in out || Mentions(ps, key)
    ensures !Mentions(ps, key) && key in out ==> DictOf(ps, out)[key] == out[key]
    decreases |ps|
  {
    if ps != [] {
      DictKeys(ps[1..], out[ps[0].key := ps[0].value], key);
      if i :| 0 <= i < |ps| && ps[i].key == key && i > 0 {
        assert ps[1..][i - 1].key == key;
      }
    }
  }

  /** A repeated key keeps its last value. */
  lemma {:induction false} DictOfLast(ps: seq<Pair>, out: Dict, i: nat)
    requires i < |ps| && !Mentions(ps[i + 1..], ps[i].key)
    ensures ps[i].key in DictOf(ps, out) && DictOf(ps, out)[ps[i].key] == ps[i].value
    decreases |ps|
  {
    var next := out[ps[0].key := ps[0].value];
    if i == 0 {
      DictKeys(ps[1..], next, ps[0].key);
    } else {
      assert ps[1..][i..] == ps[i + 1..];
      DictOfLast(ps[1..], next, i - 1);
    }
  }

  predicate BlockFits(tensors: nat, ps: seq<Pair>) {
    tensors < Limit(8) && |ps| < Limit(8) && forall i :: 0 <= i < |ps| ==> PairFits(ps[i])
  }

  lemma ThreeFits()
    ensures 3 < Limit(4)
  {
    assert Limit(4) == 256 * Limit(3) == 256 * (256 * Limit(2));
  }

  /** A written block reads back whole, with whatever follows it left alone. */
  lemma BlockReadsBack(tensors: nat, ps: seq<Pair>, rest: seq<Byte>)
    requires BlockFits(tensors, ps)
    ensures BlockAt(EncodeBlock(tensors, ps) + rest) == Ok(DictOf(ps, map[]), |EncodeBlock(tensors, ps)|)
  {
    hide Limit, LittleEndian, UintAt, TakeAt, EncodePairs, PairsAt, DictOf, PairFits;
    var b := EncodeBlock(tensors, ps) + rest;
    var v, t, n, all := LittleEndian(3, 4), LittleEndian(tensors, 8), LittleEndian(|ps|, 8), EncodePairs(ps);
    assert b[0..] == MAGIC + (v + (t + (n + all))) + rest;
    PrefixAt(MAGIC, v + (t + (n + all)), b, 0);
    PrefixAt(v, t + (n + all), b, 4);
    PrefixAt(t, n + all, b, 8);
    PrefixAt(n, all, b, 16);
    TakeReadsBack(b, 0, MAGIC);
    ThreeFits();
    UintReadsBack(b, 4, 3, 4);
    UintReadsBack(b, 8, tensors, 8);
    UintReadsBack(b, 16, |ps|, 8);
    PairsReadBack(b, 24, ps, map[]);
  }

  // ---- a cut block is refused

  lemma TakePrefix(b: seq<Byte>, m: nat, at: nat, n: nat)
    requires m <= |b| && TakeAt(b, at, n).Ok?
    ensures TakeAt(b[..m], at, n) == if at + n <= m then TakeAt(b, at, n) else Err(Truncated)
  {
    if at + n <= m {
      assert b[..m][at..at + n] == b[at..at + n];
    }
  }

  lemma UintPrefix(b: seq<Byte>, m: nat, at: nat, width: nat)
    requires m <= |b| && UintAt(b, at, width).Ok?
    ensures UintAt(b[..m], at, width) == if at + width <= m then UintAt(b, at, width) else Err(Truncated)
  {
    hide TakeAt;
    TakePrefix(b, m, at, width);
  }

  lemma StringPrefix(b: seq<Byte>, m: nat, at: nat)
    requires m <= |b| && StringAt(b, at).Ok?
    ensures StringAt(b[..m], at) == if StringAt(b, at).next <= m then StringAt(b, at) else Err(Truncated)
  {
    hide TakeAt, UintAt;
    UintPrefix(b, m, at, 8);
    var n := UintAt(b, at, 8);
    TakePrefix(b, m, n.next, n.value);
  }

  lemma {:induction false} ValuePrefix(b: seq<Byte>, m: nat, at: nat, vtype: nat)
    requires m <= |b| && ValueAt(b, at, vtype).Ok?
    ensures ValueAt(b[..m], at, vtype) ==
      if ValueAt(b, at, vtype).next <= m then ValueAt(b, at, vtype) else Err(Truncated)
    decreases |b| - at, 0
  {
    hide TakeAt, UintAt, StringAt, ItemsAt;
    if FixedSize(vtype) > 0 {
      TakePrefix(b, m, at, FixedSize(vtype));
    } else if vtype == STR {
      StringPrefix(b, m, at);
    } else {
      UintPrefix(b, m, at, 4);
      UintPrefix(b, m, at + 4, 8);
      if at + 12 <= m {
        ItemsPrefix(b, m, at + 12, UintAt(b, at, 4).value, UintAt(b, at + 4, 8).value);
      }
    }
  }

  lemma {:induction false} ItemsPrefix(b: seq<Byte>, m: nat, at: nat, vtype: nat, n: nat)
    requires at <= m <= |b| && ItemsAt(b, at, vtype, n).Ok?
    ensures ItemsAt(b[..m], at, vtype, n) ==
      if ItemsAt(b, at, vtype, n).next <= m then ItemsAt(b, at, vtype, n) else Err(Truncated)
    decreases |b| - at, 1
  {
    hide ValueAt;
    if n > 0 {
      var next := ValueAt(b, at, vtype).next;
      ValuePrefix(b, m, at, vtype);
      if next <= m {
        ItemsPrefix(b, m, next, vtype, n - 1);
      }
    }
  }

  lemma PairPrefix(b: seq<Byte>, m: nat, at: nat)
    requires m <= |b| && PairAt(b, at).Ok?
    ensures PairAt(b[..m], at) == if PairAt(b, at).next <= m then PairAt(b, at) else Err(Truncated)
  {
    hide UintAt, StringAt, ValueAt;
    StringPrefix(b, m, at);
    var next := StringAt(b, at).next;
    UintPrefix(b, m, next, 4);
    ValuePrefix(b, m, next + 4, UintAt(b, next, 4).value);
  }

  lemma {:induction false} PairsPrefix(b: seq<Byte>, m: nat, at: nat, n: nat, out: Dict)
    requires at <= m <= |b| && PairsAt(b, at, n, out).Ok?
    ensures PairsAt(b[..m], at, n, out) ==
      if PairsAt(b, at, n, out).next <= m then PairsAt(b, at, n, out) else Err(Truncated)
    decreases n
  {
    hide PairAt;
    if n > 0 {
      var p := PairAt(b, at);
      PairPrefix(b, m, at);
      if p.next <= m {
        PairsPrefix(b, m, p.next, n - 1, out[p.value.key := p.value.value]);
      }
    }
  }

  /** If a file's block reads, the same file cut after the block reads the same, and cut
      inside the block it is refused as truncated. */
  lemma BlockPrefix(b: seq<Byte>, m: nat)
    requires m <= |b| && BlockAt(b).Ok?
    ensures BlockAt(b[..m]) == if BlockAt(b).next <= m then BlockAt(b) else Err(Truncated)
  {
    hide TakeAt, UintAt, PairsAt;
    TakePrefix(b, m, 0, 4);
    UintPrefix(b, m, 4, 4);
    UintPrefix(b, m, 8, 8);
    UintPrefix(b, m, 16, 8);
    if 24 <= m {
      PairsPrefix(b, m, 24, UintAt(b, 16, 8).value, map[]);
    }
  }

  /** Whatever limit the head of the file is read with, the reader returns all of the
      metadata or raises. */
  lemma NeverPartial(tensors: nat, ps: seq<Pair>, rest: seq<Byte>, readBytes: nat)
    requires BlockFits(tensors, ps)
    ensures var size := |EncodeBlock(tensors, ps)|;
      BlockAt(Head(EncodeBlock(tensors, ps) + rest, readBytes)) ==
      if size <= readBytes then Ok(DictOf(ps, map[]), size) else Err(Truncated)
  {
    hide BlockFits, BlockAt, EncodeBlock, DictOf;
    var b := EncodeBlock(tensors, ps) + rest;
    BlockReadsBack(tensors, ps, rest);
    if readBytes < |b| {
      BlockPrefix(b, readBytes);
    }
  }
}
