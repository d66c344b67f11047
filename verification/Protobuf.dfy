/** The protobuf wire format as the finance probe writes and reads it. */
module Protobuf {
  import opened Bytes
  import opened Options

  // ---- variable-length numbers

  /** Seven bits a byte, least significant first, the top bit set on all but the last. */
  function Varint(n: nat): (b: seq<Byte>)
    ensures b != []
    decreases n
  {
    if n < 128 then [n] else [n % 128 + 128] + Varint(n / 128)
  }

  method WriteVarint(n: nat) returns (out: seq<Byte>)
    ensures out == Varint(n)
  {
    out := [];
    var m := n;
    while true
      invariant out + Varint(m) == Varint(n)
      decreases m
    {
      var b := m % 128;
      m := m / 128;
      out := out + [if m != 0 then b + 128 else b];
      if m == 0 {
        return;
      }
    }
  }

  /** The number at `off` and the offset after it; None when the bytes run out. */
  function ReadVarint(buf: seq<Byte>, off: nat): (r: Option<(nat, nat)>)
    ensures r.Some? ==> off < r.value.1 <= |buf|
    decreases |buf| - off
  {
    if off >= |buf| then None
    else if buf[off] < 128 then Some((buf[off], off + 1))
    else match ReadVarint(buf, off + 1)
      case None => None
      case Some((n, e)) => Some((buf[off] - 128 + 128 * n, e))
  }

  lemma Digit(p: nat, d: nat, n: nat)
    requires d < 128
    ensures p * (d + 128 * n) == d * p + (128 * p) * n
    ensures d * p <= 127 * p
  {
    assert p * (d + 128 * n) == p * d + p * (128 * n);
    assert p * (128 * n) == (128 * p) * n;
    assert (127 - d) * p >= 0;
  }

  /** `n` plus the number at `off` shifted by `weight`. */
  function Shifted(buf: seq<Byte>, off: nat, n: nat, weight: nat): Option<(nat, nat)> {
    match ReadVarint(buf, off)
    case None => None
    case Some((m, e)) => Some((n + weight * m, e))
  }

  function Grown(n: nat, d: nat, weight: nat): nat {
    n + d * weight
  }

  lemma ShiftedStep(buf: seq<Byte>, off: nat, n: nat, weight: nat)
    requires off < |buf| && n < weight
    ensures Grown(n, buf[off] % 128, weight) < 128 * weight
    ensures buf[off] >= 128 ==>
      Shifted(buf, off, n, weight) == Shifted(buf, off + 1, Grown(n, buf[off] % 128, weight), 128 * weight)
    ensures buf[off] < 128 ==> Shifted(buf, off, n, weight) == Some((Grown(n, buf[off] % 128, weight), off + 1))
  {
    var d := buf[off] % 128;
    match ReadVarint(buf, off + 1) {
      case None => Digit(weight, d, 0);
      case Some((m, e)) => Digit(weight, d, m);
    }
  }

  /** The reading loop adds each group of seven bits at its own shift. What has been read is
      always below the next weight, so adding is the same as or-ing the bits in. */
  method ReadNumber(buf: seq<Byte>, start: nat) returns (r: Option<(nat, nat)>)
    ensures r == ReadVarint(buf, start)
  {
    var n: nat, weight: nat, off: nat := 0, 1, start;
    while true
      invariant off >= start && n < weight && (off > start ==> off <= |buf|)
      invariant Shifted(buf, off, n, weight) == ReadVarint(buf, start)
      decreases |buf| - off
    {
      hide ReadVarint, Grown;
      if off >= |buf| {
        OutOfBytes(buf, off, n, weight);
        return None;
      }
      ShiftedStep(buf, off, n, weight);
      var b := buf[off];
      n := Grown(n, b % 128, weight);
      off := off + 1;
      if b < 128 {
        return Some((n, off));
      }
      weight := 128 * weight;
    }
  }

  lemma OutOfBytes(buf: seq<Byte>, off: nat, n: nat, weight: nat)
    requires off >= |buf|
    ensures Shifted(buf, off, n, weight) == None
  {
  }

  /** Reading undoes writing at any offset, whatever follows. */
  lemma {:induction false} VarintReadsBack(buf: seq<Byte>, off: nat, n: nat)
    requires off <= |buf| && Varint(n) <= buf[off..]
    ensures ReadVarint(buf, off) == Some((n, off + |Varint(n)|))
    decreases n
  {
    assert buf[off] == buf[off..][0] == Varint(n)[0];
    if n >= 128 {
      var rest := Varint(n / 128);
      assert Varint(n)[1..] == rest;
      assert rest <= buf[off + 1..] by {
        assert buf[off..][1..] == buf[off + 1..];
        PrefixTail(Varint(n), buf[off..]);
      }
      VarintReadsBack(buf, off + 1, n / 128);
    }
  }

  // ---- fields

  /** A value as the reader yields it: numbers decoded, other wires as their bytes. */
  datatype Value = Number(n: nat) | Eight(bytes: seq<Byte>) | Text(bytes: seq<Byte>) | Four(bytes: seq<Byte>)

  datatype Field = Field(number: nat, value: Value)

  /** What the writers can produce: numbers, eight-byte doubles and strings. */
  predicate Writable(v: Value) {
    v.Number? || v.Text? || (v.Eight? && |v.bytes| == 8)
  }

  function WireOf(v: Value): (w: nat)
    ensures w < 8
  {
    match v case Number(_) => 0 case Eight(_) => 1 case Text(_) => 2 case Four(_) => 5
  }

  function Tag(number: nat, wire: nat): seq<Byte> {
    Varint(number * 8 + wire)
  }

  function WriteField(f: Field): (b: seq<Byte>)
    requires Writable(f.value)
    ensures b != []
  {
    Tag(f.number, WireOf(f.value)) +
    match f.value
    case Number(n) => Varint(n)
    case Eight(bytes) => bytes
    case Text(bytes) => Varint(|bytes|) + bytes
  }

  function WriteAll(fs: seq<Field>): seq<Byte>
    requires forall i :: 0 <= i < |fs| ==> Writable(fs[i].value)
    decreases |fs|
  {
    if fs == [] then []
    else
      assert Writable(fs[0].value);
      WriteField(fs[0]) + WriteAll(fs[1..])
  }

  /** The yielded fields, and whether the reader then failed on missing bytes. */
  datatype Reading = Reading(fields: seq<Field>, failed: bool) {
    function After(f: Field): Reading { this.(fields := [f] + fields) }
  }

  function AtMost(n: nat, m: nat): nat {
    if n < m then n else m
  }

  /** One field at `off`: an unknown wire ends the reading, missing bytes fail it, but a
      string cut short by the end of the buffer is yielded as it is. */
  datatype Step = Yield(field: Field, next: nat) | Stop | Fail

  function ReadField(buf: seq<Byte>, off: nat): (s: Step)
    ensures s.Yield? ==> s.next > off
  {
    match ReadVarint(buf, off)
    case None => Fail
    case Some((key, at)) =>
      var number, wire := key / 8, key % 8;
      if wire == 0 then
        match ReadVarint(buf, at)
        case None => Fail
        case Some((n, e)) => Yield(Field(number, Number(n)), e)
      else if wire == 1 then
        if at + 8 <= |buf| then Yield(Field(number, Eight(buf[at..at + 8])), at + 8) else Fail
      else if wire == 2 then
        match ReadVarint(buf, at)
        case None => Fail
        case Some((n, e)) => Yield(Field(number, Text(buf[e..AtMost(e + n, |buf|)])), e + n)
      else if wire == 5 then
        if at + 4 <= |buf| then Yield(Field(number, Four(buf[at..at + 4])), at + 4) else Fail
      else Stop
  }

  function ReadAll(buf: seq<Byte>, off: nat): Reading
    decreases |buf| - off
  {
    if off >= |buf| then Reading([], false)
    else match ReadField(buf, off)
      case Fail => Reading([], true)
      case Stop => Reading([], false)
      case Yield(f, next) => ReadAll(buf, next).After(f)
  }

  method Fields(buf: seq<Byte>) returns (r: Reading)
    ensures r == ReadAll(buf, 0)
  {
    hide ReadField;
    var out: seq<Field> := [];
    var off := 0;
    while off < |buf|
      invariant ReadAll(buf, 0) == Reading(out + ReadAll(buf, off).fields, ReadAll(buf, off).failed)
      decreases |buf| - off
    {
      match ReadField(buf, off) {
        case Fail => return Reading(out, true);
        case Stop => return Reading(out, false);
        case Yield(f, next) =>
          assert out + ([f] + ReadAll(buf, next).fields) == (out + [f]) + ReadAll(buf, next).fields;
          out, off := out + [f], next;
      }
    }
    return Reading(out, false);
  }

  lemma TagReadsBack(buf: seq<Byte>, off: nat, number: nat, wire: nat)
    requires wire < 8 && off <= |buf| && Tag(number, wire) <= buf[off..]
    ensures ReadVarint(buf, off) == Some((number * 8 + wire, off + |Tag(number, wire)|))
    ensures (number * 8 + wire) / 8 == number && (number * 8 + wire) % 8 == wire
  {
    hide Varint, ReadVarint;
    VarintReadsBack(buf, off, number * 8 + wire);
  }

  /** A four-byte value is read, too, though no writer here makes one. */
  lemma FourReads(buf: seq<Byte>, off: nat, number: nat, bytes: seq<Byte>)
    requires off <= |buf| && |bytes| == 4 && Tag(number, 5) + bytes <= buf[off..]
    ensures ReadField(buf, off) == Yield(Field(number, Four(bytes)), off + |Tag(number, 5)| + 4)
    ensures WireOf(Four(bytes)) == 5
  {
    hide Tag;
    PrefixAt(Tag(number, 5), bytes, buf, off);
    TagReadsBack(buf, off, number, 5);
    var at := off + |Tag(number, 5)|;
    assert |buf[at..]| >= 4 && bytes == buf[at..][..4] == buf[at..at + 4];
  }

  /** Another wire type ends the reading; eight or four bytes that are not all there fail it; a
      string that is not all there is cut. */
  lemma PartReads(buf: seq<Byte>, off: nat, number: nat, wire: nat)
    requires off <= |buf| && wire < 8 && Tag(number, wire) <= buf[off..]
    ensures var at := off + |Tag(number, wire)|;
      && (wire in {3, 4, 6, 7} ==> ReadField(buf, off) == Stop)
      && (wire == 1 && |buf| - at < 8 ==> ReadField(buf, off) == Fail)
      && (wire == 5 && |buf| - at < 4 ==> ReadField(buf, off) == Fail)
  {
    hide Tag;
    TagReadsBack(buf, off, number, wire);
  }

  lemma TextCut(buf: seq<Byte>, off: nat, number: nat, n: nat)
    requires off <= |buf| && Tag(number, 2) + Varint(n) <= buf[off..]
    ensures var at := off + |Tag(number, 2)| + |Varint(n)|;
      at <= |buf| && (at + n >= |buf| ==> ReadField(buf, off) == Yield(Field(number, Text(buf[at..])), at + n))
  {
    hide Tag, Varint, ReadVarint;
    PrefixAt(Tag(number, 2), Varint(n), buf, off);
    TagReadsBack(buf, off, number, 2);
    var start := off + |Tag(number, 2)|;
    VarintReadsBack(buf, start, n);
    var at := start + |Varint(n)|;
    assert at <= |buf| by {
      assert |Varint(n)| <= |buf[start..]|;
    }
    assert buf[at..|buf|] == buf[at..];
  }

  lemma FieldReadsBack(buf: seq<Byte>, off: nat, f: Field)
    requires off <= |buf| && Writable(f.value) && WriteField(f) <= buf[off..]
    ensures ReadField(buf, off) == Yield(f, off + |WriteField(f)|)
  {
    hide Varint, ReadVarint, Tag;
    var tag := Tag(f.number, WireOf(f.value));
    var at := off + |tag|;
    match f.value {
      case Number(n) =>
        PrefixAt(tag, Varint(n), buf, off);
        TagReadsBack(buf, off, f.number, 0);
        VarintReadsBack(buf, at, n);
      case Eight(bytes) =>
        PrefixAt(tag, bytes, buf, off);
        TagReadsBack(buf, off, f.number, 1);
        assert buf[at..][..8] == buf[at..at + 8];
      case Text(bytes) =>
        PrefixAt(tag, Varint(|bytes|) + bytes, buf, off);
        PrefixAt(Varint(|bytes|), bytes, buf, at);
        TagReadsBack(buf, off, f.number, 2);
        VarintReadsBack(buf, at, |bytes|);
        var e := at + |Varint(|bytes|)|;
        assert buf[e..][..|bytes|] == buf[e..e + |bytes|];
      case Four(_) =>
    }
  }

  /** Reading a concatenation of written fields yields them all, in order, without failing. */
  lemma {:induction false} FieldsReadBack(buf: seq<Byte>, off: nat, fs: seq<Field>)
    requires (forall i :: 0 <= i < |fs| ==> Writable(fs[i].value)) && off <= |buf| && buf[off..] == WriteAll(fs)
    ensures ReadAll(buf, off) == Reading(fs, false)
    decreases |fs|
  {
    hide ReadField, WriteField;
    if fs != [] {
      assert Writable(fs[0].value);
      var b := WriteField(fs[0]);
      FieldReadsBack(buf, off, fs[0]);
      assert buf[off..][|b|..] == buf[off + |b|..];
      FieldsReadBack(buf, off + |b|, fs[1..]);
      assert [fs[0]] + fs[1..] == fs;
    }
  }
}
