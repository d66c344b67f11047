/** The metadata block in the format's own figures, and that the reader accepts nothing but
    encodings: what it returns, written again, is what it read. */
module GgufFormat {
  import opened Bytes
  import opened Gguf
  import opened GgufRoundTrip

  // ---- the format's figures

  /** The thirteen value types: eleven of fixed size, strings and arrays. */
  lemma TypeSizes(t: nat)
    ensures FixedSize(t) ==
      if t == 0 || t == 1 || t == 7 then 1 else if t == 2 || t == 3 then 2 else if 4 <= t <= 6 then 4
      else if 10 <= t <= 12 then 8 else 0
    ensures STR == 8 && ARR == 9
  {
  }

  /** Numbers are written lowest byte first. */
  lemma LowestFirst(n: nat)
    ensures LittleEndian(n, 4) == [n % 256, n / 256 % 256, n / 256 / 256 % 256, n / 256 / 256 / 256 % 256]
  {
    var m := n / 256;
    assert LittleEndian(m / 256 / 256, 1) == [m / 256 / 256 % 256];
    assert LittleEndian(m / 256, 2) == [m / 256 % 256, m / 256 / 256 % 256];
    assert LittleEndian(m, 3) == [m % 256, m / 256 % 256, m / 256 / 256 % 256];
  }

  /** A block starts with the four letters of its name and version 3. */
  lemma BlockStarts(tensors: nat, ps: seq<Pair>)
    ensures var b := EncodeBlock(tensors, ps); |b| >= 24 && b[..8] == [71, 71, 85, 70, 3, 0, 0, 0]
  {
    hide LittleEndian, EncodePairs;
    LowestFirst(3);
  }

  /** Another start is refused for what it is, and a shorter one as truncated. */
  lemma HeaderDecides(b: seq<Byte>)
    ensures BlockAt(b) == Err(NotGguf) <==> |b| >= 4 && b[..4] != [71, 71, 85, 70]
    ensures |b| >= 8 && b[..4] == [71, 71, 85, 70] && b[4..8] != [3, 0, 0, 0] ==> BlockAt(b) == Err(WrongVersion)
    ensures |b| < 24 && BlockAt(b) != Err(NotGguf) && BlockAt(b) != Err(WrongVersion) ==> BlockAt(b) == Err(Truncated)
  {
    hide FromLittleEndian, PairsAt;
    if |b| >= 8 {
      assert b[4..4 + 4] == b[4..8];
      OneVersion(b[4..8]);
    }
    if |b| >= 24 {
      NeverNotGguf(b, 24, FromLittleEndian(b[16..24]), map[]);
    }
  }

  lemma OneVersion(v: seq<Byte>)
    requires |v| == 4
    ensures FromLittleEndian(v) == 3 <==> v == [3, 0, 0, 0]
  {
    hide LittleEndian, FromLittleEndian;
    Rewritten(v);
    LowestFirst(3);
    ThreeFits();
    LittleEndianReadsBack(3, 4);
  }

  lemma {:induction false} ValueErrs(b: seq<Byte>, at: nat, t: nat)
    ensures ValueAt(b, at, t).Err? ==> ValueAt(b, at, t).error in {Truncated, UnknownType}
    decreases if at <= |b| then |b| - at else 0, 0
  {
    if FixedSize(t) == 0 && t == ARR {
      match UintAt(b, at, 4)
      case Err(_) =>
      case Ok(inner, next) =>
        match UintAt(b, next, 8)
        case Err(_) =>
        case Ok(n, start) => ItemsErr(b, start, inner, n);
    }
  }

  lemma {:induction false} ItemsErr(b: seq<Byte>, at: nat, t: nat, n: nat)
    requires at <= |b|
    ensures ItemsAt(b, at, t, n).Err? ==> ItemsAt(b, at, t, n).error in {Truncated, UnknownType}
    decreases |b| - at, 1
  {
    hide ValueAt;
    if n > 0 {
      ValueErrs(b, at, t);
      if ValueAt(b, at, t).Ok? {
        ItemsErr(b, ValueAt(b, at, t).next, t, n - 1);
      }
    }
  }

  lemma {:induction false} NeverNotGguf(b: seq<Byte>, at: nat, n: nat, out: Dict)
    ensures PairsAt(b, at, n, out).Err? ==> PairsAt(b, at, n, out).error in {Truncated, UnknownType}
    decreases n
  {
    hide ValueAt;
    if n > 0 {
      match StringAt(b, at)
      case Err(_) =>
      case Ok(_, next) =>
        match UintAt(b, next, 4)
        case Err(_) =>
        case Ok(t, start) =>
          ValueErrs(b, start, t);
          if PairAt(b, at).Ok? {
            var p := PairAt(b, at).value;
            NeverNotGguf(b, PairAt(b, at).next, n - 1, out[p.key := p.value]);
          }
    }
  }

  // ---- what is read was written

  lemma {:induction false} Rewritten(b: seq<Byte>)
    ensures FromLittleEndian(b) < Limit(|b|) && LittleEndian(FromLittleEndian(b), |b|) == b
    decreases |b|
  {
    if b != [] {
      Rewritten(b[1..]);
      assert b == [b[0]] + b[1..];
      assert FromLittleEndian(b) % 256 == b[0] && FromLittleEndian(b) / 256 == FromLittleEndian(b[1..]);
    }
  }

  lemma UintWritten(b: seq<Byte>, at: nat, width: nat)
    requires UintAt(b, at, width).Ok?
    ensures var r := UintAt(b, at, width);
      r.value < Limit(width) && r.next == at + width <= |b| && b[at..r.next] == LittleEndian(r.value, width)
  {
    hide LittleEndian, FromLittleEndian, Limit;
    Rewritten(b[at..at + width]);
  }

  lemma Joined(b: seq<Byte>, i: nat, j: nat, k: nat)
    requires i <= j <= k <= |b|
    ensures b[i..j] + b[j..k] == b[i..k]
  {
  }

  lemma StringWritten(b: seq<Byte>, at: nat)
    requires StringAt(b, at).Ok?
    ensures var r := StringAt(b, at);
      |r.value| < Limit(8) && at <= r.next <= |b| && b[at..r.next] == EncodeString(r.value)
  {
    hide LittleEndian, UintAt, Limit;
    UintWritten(b, at, 8);
    Joined(b, at, at + 8, StringAt(b, at).next);
  }

  /** A value that is read is well-formed, has the type asked for, and its encoding is exactly
      what was read. */
  lemma {:induction false} ValueWritten(b: seq<Byte>, at: nat, t: nat)
    requires ValueAt(b, at, t).Ok?
    ensures var r := ValueAt(b, at, t);
      WellFormed(r.value) && r.value.Type() == t && at <= r.next <= |b| && b[at..r.next] == EncodeValue(r.value)
    decreases if at <= |b| then |b| - at else 0, 0
  {
    hide LittleEndian, UintAt, StringAt, Limit, EncodeString, EncodeItems;
    if FixedSize(t) > 0 {
    } else if t == STR {
      StringWritten(b, at);
    } else {
      var inner := UintAt(b, at, 4);
      UintWritten(b, at, 4);
      var n := UintAt(b, inner.next, 8);
      UintWritten(b, at + 4, 8);
      ItemsWritten(b, at + 12, inner.value, n.value);
      var r := ItemsAt(b, at + 12, inner.value, n.value);
      Joined(b, at, at + 4, at + 12);
      Joined(b, at, at + 12, r.next);
    }
  }

  lemma {:induction false} ItemsWritten(b: seq<Byte>, at: nat, t: nat, n: nat)
    requires at <= |b| && ItemsAt(b, at, t, n).Ok?
    ensures var r := ItemsAt(b, at, t, n);
      && |r.value| == n && at <= r.next <= |b| && b[at..r.next] == EncodeItems(r.value)
      && forall v <- r.value :: WellFormed(v) && v.Type() == t
    decreases |b| - at, 1
  {
    hide ValueAt, WellFormed, EncodeValue;
    if n > 0 {
      ValueWritten(b, at, t);
      var v := ValueAt(b, at, t);
      ItemsWritten(b, v.next, t, n - 1);
      var rest := ItemsAt(b, v.next, t, n - 1);
      Joined(b, at, v.next, rest.next);
      assert ([v.value] + rest.value)[1..] == rest.value;
    }
  }

  lemma PairWritten(b: seq<Byte>, at: nat)
    requires PairAt(b, at).Ok?
    ensures var r := PairAt(b, at); PairFits(r.value) && at <= r.next <= |b| && b[at..r.next] == EncodePair(r.value)
  {
    hide LittleEndian, UintAt, StringAt, ValueAt, Limit, EncodeString, EncodeValue, WellFormed;
    var key := StringAt(b, at);
    StringWritten(b, at);
    var t := UintAt(b, key.next, 4);
    UintWritten(b, key.next, 4);
    var v := ValueAt(b, t.next, t.value);
    ValueWritten(b, t.next, t.value);
    Joined(b, at, key.next, t.next);
    Joined(b, at, t.next, v.next);
  }

  lemma {:induction false} PairsWritten(b: seq<Byte>, at: nat, n: nat, out: Dict) returns (ps: seq<Pair>)
    requires at <= |b| && PairsAt(b, at, n, out).Ok?
    ensures |ps| == n && forall p <- ps :: PairFits(p)
    ensures var r := PairsAt(b, at, n, out);
      at <= r.next <= |b| && b[at..r.next] == EncodePairs(ps) && r.value == DictOf(ps, out)
    decreases n
  {
    hide PairAt, PairFits, EncodePair;
    ps := [];
    if n > 0 {
      PairWritten(b, at);
      var p := PairAt(b, at);
      var more := out[p.value.key := p.value.value];
      var rest := PairsWritten(b, p.next, n - 1, more);
      ps := [p.value] + rest;
      Joined(b, at, p.next, PairsAt(b, p.next, n - 1, more).next);
    }
  }

  /** A block that is read is the encoding of some pairs, and the dictionary is theirs. */
  lemma BlockWritten(b: seq<Byte>) returns (tensors: nat, ps: seq<Pair>)
    requires BlockAt(b).Ok?
    ensures BlockFits(tensors, ps)
    ensures b[..BlockAt(b).next] == EncodeBlock(tensors, ps) && BlockAt(b).value == DictOf(ps, map[])
  {
    hide LittleEndian, UintAt, PairsAt, Limit, EncodePairs, DictOf, PairFits;
    UintWritten(b, 4, 4);
    UintWritten(b, 8, 8);
    UintWritten(b, 16, 8);
    tensors := UintAt(b, 8, 8).value;
    var n := UintAt(b, 16, 8).value;
    ps := PairsWritten(b, 24, n, map[]);
    var r := BlockAt(b);
    assert b[0..4] == MAGIC;
    Joined(b, 0, 4, 8);
    Joined(b, 0, 8, 16);
    Joined(b, 0, 16, 24);
    Joined(b, 0, 24, r.next);
  }
}
