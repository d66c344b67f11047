/** The metadata block of a GGUF file: what the cursor reads, and that it never returns part
    of a block. */
module Gguf {
  import opened Bytes

  // ---- values and their encoding

  const STR := 8
  const ARR := 9

  /** Bytes of a fixed-size value type, 0 for every other type number. */
  function FixedSize(vtype: nat): (n: nat)
    ensures n > 0 ==> vtype != STR && vtype != ARR && vtype < 13
  {
    if vtype in {0, 1, 7} then 1
    else if vtype in {2, 3} then 2
    else if vtype in {4, 5, 6} then 4
    else if vtype in {10, 11, 12} then 8
    else 0
  }

  datatype Value = Fixed(vtype: nat, bytes: seq<Byte>) | Str(text: seq<Byte>) | Arr(inner: nat, items: seq<Value>) {
    function Type(): nat {
      match this case Fixed(t, _) => t case Str(_) => STR case Arr(_, _) => ARR
    }
  }

  function Limit(width: nat): (n: nat)
    ensures n > 0
  {
    if width == 0 then 1 else 256 * Limit(width - 1)
  }

  function LittleEndian(n: nat, width: nat): (b: seq<Byte>)
    ensures |b| == width
    decreases width
  {
    if width == 0 then [] else [n % 256] + LittleEndian(n / 256, width - 1)
  }

  function FromLittleEndian(b: seq<Byte>): nat
    decreases |b|
  {
    if b == [] then 0 else b[0] as nat + 256 * FromLittleEndian(b[1..])
  }

  lemma {:induction false} LittleEndianReadsBack(n: nat, width: nat)
    requires n < Limit(width)
    ensures FromLittleEndian(LittleEndian(n, width)) == n
    decreases width
  {
    if width > 0 {
      LittleEndianReadsBack(n / 256, width - 1);
      assert LittleEndian(n, width)[1..] == LittleEndian(n / 256, width - 1);
    }
  }

  /** What the format can hold: sizes fit their counters and array items share one type. */
  predicate WellFormed(v: Value)
    decreases v
  {
    match v
    case Fixed(t, bytes) => FixedSize(t) > 0 && |bytes| == FixedSize(t)
    case Str(text) => |text| < Limit(8)
    case Arr(inner, items) =>
      inner < Limit(4) && |items| < Limit(8) && forall i ::
        0 <= i < |items| ==> WellFormed(items[i]) && items[i].Type() == inner
  }

  function EncodeString(s: seq<Byte>): seq<Byte> {
    LittleEndian(|s|, 8) + s
  }

  function EncodeValue(v: Value): seq<Byte>
    decreases v
  {
    match v
    case Fixed(_, bytes) => bytes
    case Str(text) => EncodeString(text)
    case Arr(inner, items) => LittleEndian(inner, 4) + LittleEndian(|items|, 8) + EncodeItems(items)
  }

  function EncodeItems(items: seq<Value>): seq<Byte>
    decreases items
  {
    if items == [] then [] else EncodeValue(items[0]) + EncodeItems(items[1..])
  }

  // ---- reading

  datatype Error = Truncated | UnknownType | NotGguf | WrongVersion

  datatype Read<T> = Ok(value: T, next: nat) | Err(error: Error)

  function TakeAt(b: seq<Byte>, at: nat, n: nat): (r: Read<seq<Byte>>)
    ensures r.Ok? ==> at + n <= |b| && r.next == at + n
  {
    if at + n > |b| then Err(Truncated) else Ok(b[at..at + n], at + n)
  }

  function UintAt(b: seq<Byte>, at: nat, width: nat): (r: Read<nat>)
    ensures r.Ok? ==> r.next == at + width <= |b|
  {
    match TakeAt(b, at, width)
    case Err(e) => Err(e)
    case Ok(bytes, next) => Ok(FromLittleEndian(bytes), next)
  }

  function StringAt(b: seq<Byte>, at: nat): (r: Read<seq<Byte>>)
    ensures r.Ok? ==> at + 8 <= r.next <= |b|
  {
    match UintAt(b, at, 8)
    case Err(e) => Err(e)
    case Ok(n, next) => TakeAt(b, next, n)
  }

  /** One value of a type. Every value takes at least a byte, so nested arrays end. */
  function ValueAt(b: seq<Byte>, at: nat, vtype: nat): (r: Read<Value>)
    ensures r.Ok? ==> at < r.next <= |b|
    decreases if at <= |b| then |b| - at else 0, 0
  {
    if FixedSize(vtype) > 0 then
      match TakeAt(b, at, FixedSize(vtype))
      case Err(e) => Err(e)
      case Ok(bytes, next) => Ok(Fixed(vtype, bytes), next)
    else if vtype == STR then
      match StringAt(b, at)
      case Err(e) => Err(e)
      case Ok(text, next) => Ok(Str(text), next)
    else if vtype == ARR then
      match UintAt(b, at, 4)
      case Err(e) => Err(e)
      case Ok(inner, next) =>
        match UintAt(b, next, 8)
        case Err(e) => Err(e)
        case Ok(n, start) =>
          match ItemsAt(b, start, inner, n)
          case Err(e) => Err(e)
          case Ok(items, end) => Ok(Arr(inner, items), end)
    else Err(UnknownType)
  }

  function ItemsAt(b: seq<Byte>, at: nat, vtype: nat, n: nat): (r: Read<seq<Value>>)
    requires at <= |b|
    ensures r.Ok? ==> at <= r.next <= |b|
    decreases |b| - at, 1
  {
    if n == 0 then Ok([], at)
    else
      match ValueAt(b, at, vtype)
      case Err(e) => Err(e)
      case Ok(v, next) => Prepend([v], ItemsAt(b, next, vtype, n - 1))
  }

  function Prepend(front: seq<Value>, r: Read<seq<Value>>): (s: Read<seq<Value>>)
    ensures s.Ok? <==> r.Ok?
    ensures s.Ok? ==> s.next == r.next
  {
    match r case Err(e) => Err(e) case Ok(items, next) => Ok(front + items, next)
  }

  // ---- the cursor

  class Cursor {
    const b: seq<Byte>
    var at: nat

    constructor (blob: seq<Byte>)
      ensures b == blob && at == 0
    {
      b, at := blob, 0;
    }

    method Take(n: nat) returns (r: Read<seq<Byte>>)
      requires at <= |b|
      modifies this
      ensures at <= |b| && r == TakeAt(b, old(at), n) && (if r.Ok? then at == r.next else at == old(at))
    {
      if at + n > |b| {
        return Err(Truncated);
      }
      r := Ok(b[at..at + n], at + n);
      at := at + n;
    }

    method Uint(width: nat) returns (r: Read<nat>)
      requires at <= |b|
      modifies this
      ensures at <= |b| && r == UintAt(b, old(at), width) && (r.Ok? ==> at == r.next)
    {
      var bytes := Take(width);
      match bytes {
        case Err(e) => r := Err(e);
        case Ok(v, next) => r := Ok(FromLittleEndian(v), next);
      }
    }

    method String() returns (r: Read<seq<Byte>>)
      requires at <= |b|
      modifies this
      ensures at <= |b| && r == StringAt(b, old(at)) && (r.Ok? ==> at == r.next)
    {
      var n := Uint(8);
      match n {
        case Err(e) => r := Err(e);
        case Ok(size, _) => r := Take(size);
      }
    }

    method ReadValue(vtype: nat) returns (r: Read<Value>)
      requires at <= |b|
      modifies this
      ensures at <= |b| && r == ValueAt(b, old(at), vtype) && (r.Ok? ==> at == r.next)
      decreases |b| - at, 0
    {
      if FixedSize(vtype) > 0 {
        var bytes := Take(FixedSize(vtype));
        match bytes {
          case Err(e) => return Err(e);
          case Ok(v, next) => return Ok(Fixed(vtype, v), next);
        }
      }
      if vtype == STR {
        var text := String();
        match text {
          case Err(e) => return Err(e);
          case Ok(v, next) => return Ok(Str(v), next);
        }
      }
      if vtype == ARR {
        var inner := Uint(4);
        if inner.Err? {
          return Err(inner.error);
        }
        var n := Uint(8);
        if n.Err? {
          return Err(n.error);
        }
        var items := ReadItems(inner.value, n.value);
        match items {
          case Err(e) => return Err(e);
          case Ok(vs, next) => return Ok(Arr(inner.value, vs), next);
        }
      }
      return Err(UnknownType);
    }

    method ReadItems(vtype: nat, n: nat) returns (r: Read<seq<Value>>)
      requires at <= |b|
      modifies this
      ensures at <= |b| && r == ItemsAt(b, old(at), vtype, n) && (r.Ok? ==> at == r.next)
      decreases |b| - at, 1
    {
      hide ValueAt;
      var items: seq<Value> := [];
      PrependNothing(ItemsAt(b, at, vtype, n));
      for k := 0 to n
        invariant old(at) <= at <= |b|
        invariant ItemsAt(b, old(at), vtype, n) == Prepend(items, ItemsAt(b, at, vtype, n - k))
      {
        var v := ReadValue(vtype);
        if v.Err? {
          return Err(v.error);
        }
        PrependTwice(items, v.value, ItemsAt(b, at, vtype, n - k - 1));
        items := items + [v.value];
      }
      PrependNothing(Ok(items, at));
      assert items + [] == items;
      return Ok(items, at);
    }
  }

  lemma PrependNothing(r: Read<seq<Value>>)
    ensures Prepend([], r) == r
  {
    match r {
      case Err(_) =>
      case Ok(rest, _) => assert [] + rest == rest;
    }
  }

  lemma PrependTwice(items: seq<Value>, v: Value, r: Read<seq<Value>>)
    ensures Prepend(items, Prepend([v], r)) == Prepend(items + [v], r)
  {
    match r {
      case Err(_) =>
      case Ok(rest, _) => assert items + ([v] + rest) == (items + [v]) + rest;
    }
  }

  // ---- the metadata block

  datatype Pair = Pair(key: seq<Byte>, value: Value)

  const MAGIC: seq<Byte> := [71, 71, 85, 70]

  predicate PairFits(p: Pair) {
    |p.key| < Limit(8) && WellFormed(p.value)
  }

  function EncodePair(p: Pair): seq<Byte> {
    EncodeString(p.key) + LittleEndian(p.value.Type(), 4) + EncodeValue(p.value)
  }

  function EncodePairs(ps: seq<Pair>): seq<Byte>
    decreases |ps|
  {
    if ps == [] then [] else EncodePair(ps[0]) + EncodePairs(ps[1..])
  }

  function EncodeBlock(tensors: nat, ps: seq<Pair>): seq<Byte> {
    MAGIC + LittleEndian(3, 4) + LittleEndian(tensors, 8) + LittleEndian(|ps|, 8) + EncodePairs(ps)
  }

  function PairAt(b: seq<Byte>, at: nat): (r: Read<Pair>)
    ensures r.Ok? ==> at < r.next <= |b|
  {
    match StringAt(b, at)
    case Err(e) => Err(e)
    case Ok(key, next) =>
      match UintAt(b, next, 4)
      case Err(e) => Err(e)
      case Ok(vtype, start) =>
        match ValueAt(b, start, vtype)
        case Err(e) => Err(e)
        case Ok(v, end) => Ok(Pair(key, v), end)
  }

  type Dict = map<seq<Byte>, Value>

  /** Reads `n` pairs into the dictionary; a repeated key keeps its last value. */
  function PairsAt(b: seq<Byte>, at: nat, n: nat, out: Dict): (r: Read<Dict>)
    ensures r.Ok? && at <= |b| ==> at <= r.next <= |b|
    decreases n
  {
    if n == 0 then Ok(out, at)
    else
      match PairAt(b, at)
      case Err(e) => Err(e)
      case Ok(p, next) => PairsAt(b, next, n - 1, out[p.key := p.value])
  }

  function BlockAt(b: seq<Byte>): (r: Read<Dict>)
    ensures r.Ok? ==> r.next <= |b|
  {
    match TakeAt(b, 0, 4)
    case Err(e) => Err(e)
    case Ok(magic, _) =>
      if magic != MAGIC then Err(NotGguf) else
        match UintAt(b, 4, 4)
        case Err(e) => Err(e)
        case Ok(version, _) =>
          if version != 3 then Err(WrongVersion) else
            match UintAt(b, 8, 8)
            case Err(e) => Err(e)
            case Ok(_, _) =>
              match UintAt(b, 16, 8)
              case Err(e) => Err(e)
              case Ok(n, start) => PairsAt(b, start, n, map[])
  }

  function Head(file: seq<Byte>, readBytes: nat): seq<Byte> {
    if readBytes < |file| then file[..readBytes] else file
  }

  /** The metadata of a file of which only the first `readBytes` bytes are read. */
  method Metadata(file: seq<Byte>, readBytes: nat) returns (r: Read<Dict>)
    ensures r == BlockAt(Head(file, readBytes))
  {
    hide PairAt, ValueAt, StringAt;
    var blob := Head(file, readBytes);
    var c := new Cursor(blob);
    var magic := c.Take(4);
    if magic.Err? {
      return Err(magic.error);
    }
    if magic.value != MAGIC {
      return Err(NotGguf);
    }
    var version := c.Uint(4);
    if version.Err? {
      return Err(version.error);
    }
    if version.value != 3 {
      return Err(WrongVersion);
    }
    var tensors := c.Uint(8);
    if tensors.Err? {
      return Err(tensors.error);
    }
    var n := c.Uint(8);
    if n.Err? {
      return Err(n.error);
    }
    var out: Dict := map[];
    for k := 0 to n.value
      invariant c.at <= |blob|
      invariant PairsAt(blob, 24, n.value, map[]) == PairsAt(blob, c.at, n.value - k, out)
    {
      var p := ReadPair(c);
      if p.Err? {
        return Err(p.error);
      }
      out := out[p.value.key := p.value.value];
    }
    return Ok(out, c.at);
  }

  method ReadPair(c: Cursor) returns (r: Read<Pair>)
    requires c.at <= |c.b|
    modifies c
    ensures c.at <= |c.b| && r == PairAt(c.b, old(c.at)) && (r.Ok? ==> c.at == r.next)
  {
    hide ValueAt, StringAt;
    var key := c.String();
    if key.Err? {
      return Err(key.error);
    }
    var vtype := c.Uint(4);
    if vtype.Err? {
      return Err(vtype.error);
    }
    var v := c.ReadValue(vtype.value);
    if v.Err? {
      return Err(v.error);
    }
    return Ok(Pair(key.value, v.value), v.next);
  }
}
