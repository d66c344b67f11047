/** The golden-token file of the decode probe and the digest printed in it. */
module Golden {

  // ---- the digest: FNV-1a, a byte at a time, modulo 2^64

  const MODULUS := 0x1_0000_0000_0000_0000
  const OFFSET_BASIS := 1469598103934665603
  const PRIME := 1099511628211

  type Byte = x: int | 0 <= x < 256
  type Word = x: int | 0 <= x < MODULUS
  type Id = x: int | 0 <= x < 0x1_0000_0000

  /** Exclusive or of the low `n` bits. */
  function Xor(a: nat, b: nat, n: nat): (r: nat)
    decreases n
  {
    if n == 0 then 0 else (a + b) % 2 + 2 * Xor(a / 2, b / 2, n - 1)
  }

  /** Bit `k` of a number. */
  function Bit(a: nat, k: nat): nat {
    if k == 0 then a % 2 else Bit(a / 2, k - 1)
  }

  /** A bit of the exclusive or is set when exactly one of the two bits is. */
  lemma {:induction false} XorBits(a: nat, b: nat, n: nat, k: nat)
    requires k < n
    ensures Bit(Xor(a, b, n), k) == if Bit(a, k) == Bit(b, k) then 0 else 1
    decreases n
  {
    hide Xor;
    XorHalves(a, b, n);
    OddOnes(a, b);
    if k > 0 {
      XorBits(a / 2, b / 2, n - 1, k - 1);
    }
  }

  lemma XorHalves(a: nat, b: nat, n: nat)
    requires n > 0
    ensures Xor(a, b, n) % 2 == (a + b) % 2 && Xor(a, b, n) / 2 == Xor(a / 2, b / 2, n - 1)
  {
    Halves((a + b) % 2, Xor(a / 2, b / 2, n - 1));
  }

  lemma OddOnes(a: nat, b: nat)
    ensures (a + b) % 2 == if a % 2 == b % 2 then 0 else 1
  {
  }

  lemma Halves(bit: nat, r: nat)
    requires bit < 2
    ensures (bit + 2 * r) / 2 == r && (bit + 2 * r) % 2 == bit
  {
  }

  function Power2(n: nat): (p: nat)
    ensures p > 0
  {
    if n == 0 then 1 else 2 * Power2(n - 1)
  }

  lemma {:induction false} XorCancels(a: nat, b: nat, n: nat)
    requires a < Power2(n)
    ensures Xor(a, b, n) < Power2(n) && Xor(Xor(a, b, n), b, n) == a
    decreases n
  {
    if n > 0 {
      XorCancels(a / 2, b / 2, n - 1);
      BitStep(a, b, Xor(a / 2, b / 2, n - 1));
    }
  }

  lemma BitStep(a: nat, b: nat, r: nat)
    ensures var x := (a + b) % 2 + 2 * r; x / 2 == r && (x + b) % 2 + 2 * (a / 2) == a
  {
  }

  lemma {:induction false} XorCommutes(a: nat, b: nat, n: nat)
    ensures Xor(a, b, n) == Xor(b, a, n)
    decreases n
  {
    if n > 0 {
      XorCommutes(a / 2, b / 2, n - 1);
    }
  }

  lemma Power2Eight()
    ensures Power2(8) == 256
  {
    assert Power2(8) == 2 * Power2(7) == 4 * Power2(6) == 8 * Power2(5) == 16 * Power2(4);
    assert Power2(4) == 2 * Power2(3) == 4 * Power2(2) == 8 * Power2(1) == 16;
  }

  /** The word with its low byte or-ed exclusively with `b`. */
  function XorByte(h: Word, b: Byte): (r: Word) {
    XorIsByte(h % 256, b);
    LowReplaced(h, Xor(h % 256, b, 8));
    h - h % 256 + Xor(h % 256, b, 8)
  }

  lemma XorIsByte(a: Byte, b: Byte)
    ensures Xor(a, b, 8) < 256
  {
    hide Xor;
    Power2Eight();
    XorCancels(a, b, 8);
  }

  lemma LowReplaced(h: Word, r: Byte)
    ensures 0 <= h - h % 256 + r < MODULUS
  {
  }

  /** One step of the digest. */
  function Mix(h: Word, b: Byte): (r: Word) {
    XorByte(h, b) * PRIME % MODULUS
  }

  /** A byte is recovered from the exclusive or and the other byte. */
  lemma XorRecovers(a: Byte, b: Byte)
    ensures Xor(Xor(a, b, 8), b, 8) == a && Xor(Xor(a, b, 8), a, 8) == b
  {
    hide Xor;
    Power2Eight();
    XorCancels(a, b, 8);
    XorCommutes(a, b, 8);
    XorCancels(b, a, 8);
  }

  lemma XorByteInjective(h: Word, g: Word, b: Byte, c: Byte)
    requires XorByte(h, b) == XorByte(g, c) && (h == g || b == c)
    ensures h == g && b == c
  {
    hide Xor, Power2;
    XorIsByte(h % 256, b);
    XorIsByte(g % 256, c);
    SameLow(h, g, Xor(h % 256, b, 8), Xor(g % 256, c, 8));
    XorRecovers(h % 256, b);
    XorRecovers(g % 256, c);
  }

  lemma SameLow(h: nat, g: nat, x: nat, y: nat)
    requires x < 256 && y < 256 && h - h % 256 + x == g - g % 256 + y
    ensures x == y && h / 256 == g / 256
  {
  }

  /** Multiplying by the odd prime loses nothing modulo 2^64. */
  lemma TimesPrimeInjective(x: Word, y: Word)
    requires x * PRIME % MODULUS == y * PRIME % MODULUS
    ensures x == y
  {
    var q, p := x * PRIME / MODULUS, y * PRIME / MODULUS;
    var inverse := 0xCE965057AFF6957B;
    var k := (PRIME * inverse - 1) / MODULUS;
    assert PRIME * inverse == 1 + k * MODULUS;
    var d := x - y;
    assert PRIME * d == MODULUS * (q - p);
    assert d == MODULUS * ((q - p) * inverse - k * d);
    Multiple(d, (q - p) * inverse - k * d);
  }

  lemma Multiple(d: int, m: int)
    requires -MODULUS < d < MODULUS && d == MODULUS * m
    ensures d == 0
  {
  }

  /** A step separates different words and different bytes. */
  lemma MixInjective(h: Word, g: Word, b: Byte, c: Byte)
    requires Mix(h, b) == Mix(g, c) && (h == g || b == c)
    ensures h == g && b == c
  {
    hide XorByte;
    TimesPrimeInjective(XorByte(h, b), XorByte(g, c));
    XorByteInjective(h, g, b, c);
  }

  function Fold(h: Word, bytes: seq<Byte>): Word
    decreases |bytes|
  {
    if bytes == [] then h else Fold(Mix(h, bytes[0]), bytes[1..])
  }

  function BytesOf(id: Id): (bytes: seq<Byte>)
    ensures |bytes| == 4
  {
    [id % 256, id / 256 % 256, id / 0x1_0000 % 256, id / 0x100_0000 % 256]
  }

  /** An id is its four bytes, the lowest first. */
  lemma BytesAre(id: Id)
    ensures var b := BytesOf(id);
      id == (b[0] as int) + 256 * (b[1] as int) + 65536 * (b[2] as int) + 16777216 * (b[3] as int)
  {
    var m := id / 256;
    assert id / 65536 == m / 256 && id / 16777216 == m / 256 / 256;
  }

  function AllBytes(ids: seq<Id>): (bytes: seq<Byte>)
    ensures |bytes| == 4 * |ids|
    decreases |ids|
  {
    if ids == [] then [] else BytesOf(ids[0]) + AllBytes(ids[1..])
  }

  function Digest(ids: seq<Id>): Word {
    Fold(OFFSET_BASIS, AllBytes(ids))
  }

  lemma {:induction false} FoldConcat(h: Word, a: seq<Byte>, b: seq<Byte>)
    ensures Fold(h, a + b) == Fold(Fold(h, a), b)
    decreases |a|
  {
    hide Mix;
    if a == [] {
      assert a + b == b;
    } else {
      assert (a + b)[0] == a[0] && (a + b)[1..] == a[1..] + b;
      FoldConcat(Mix(h, a[0]), a[1..], b);
    }
  }

  /** The loop over tokens and their bytes computes the digest. */
  method ComputeDigest(ids: seq<Id>) returns (h: Word)
    ensures h == Digest(ids)
  {
    hide Mix;
    h := OFFSET_BASIS;
    assert ids[..0] == [];
    for i := 0 to |ids|
      invariant h == Fold(OFFSET_BASIS, AllBytes(ids[..i]))
    {
      var bytes := BytesOf(ids[i]);
      ghost var before := h;
      assert bytes[..0] == [];
      for b := 0 to 4
        invariant h == Fold(before, bytes[..b])
      {
        assert bytes[..b + 1] == bytes[..b] + [bytes[b]];
        FoldConcat(before, bytes[..b], [bytes[b]]);
        FoldOne(h, bytes[b]);
        h := Mix(h, bytes[b]);
      }
      assert bytes[..4] == bytes;
      assert ids[..i + 1] == ids[..i] + [ids[i]];
      AllBytesSnoc(ids[..i], ids[i]);
      FoldConcat(OFFSET_BASIS, AllBytes(ids[..i]), bytes);
    }
    assert ids[..|ids|] == ids;
  }

  lemma FoldOne(h: Word, b: Byte)
    ensures Fold(h, [b]) == Mix(h, b)
  {
    hide Mix;
    assert [b][1..] == [];
    assert Fold(Mix(h, b), []) == Mix(h, b);
  }

  lemma {:induction false} AllBytesSnoc(ids: seq<Id>, id: Id)
    ensures AllBytes(ids + [id]) == AllBytes(ids) + BytesOf(id)
    decreases |ids|
  {
    hide BytesOf;
    if ids == [] {
      assert ids + [id] == [id] && [id][1..] == [];
    } else {
      assert (ids + [id])[1..] == ids[1..] + [id];
      AllBytesSnoc(ids[1..], id);
    }
  }

  /** Equal bytes after a difference never make it vanish: digests of sequences that end
      alike are equal exactly when the digests before that end are. */
  lemma {:induction false} FoldSeparates(h: Word, g: Word, bytes: seq<Byte>)
    ensures Fold(h, bytes) == Fold(g, bytes) <==> h == g
    decreases |bytes|
  {
    hide Mix;
    if bytes != [] {
      FoldSeparates(Mix(h, bytes[0]), Mix(g, bytes[0]), bytes[1..]);
      if Mix(h, bytes[0]) == Mix(g, bytes[0]) {
        MixInjective(h, g, bytes[0], bytes[0]);
      }
    }
  }

  /** Two token sequences that differ in exactly one byte never share a digest. */
  lemma DigestSensitive(a: seq<Id>, b: seq<Id>, k: nat)
    requires |a| == |b| && k < 4 * |a| && AllBytes(a)[k] != AllBytes(b)[k]
    requires forall i :: 0 <= i < 4 * |a| && i != k ==> AllBytes(a)[i] == AllBytes(b)[i]
    ensures Digest(a) != Digest(b)
  {
    hide AllBytes, Mix;
    var (x, y) := (AllBytes(a), AllBytes(b));
    var front, back := x[..k], x[k + 1..];
    assert x == front + ([x[k]] + back) && y == front + ([y[k]] + back);
    var h := Fold(OFFSET_BASIS, front);
    FoldConcat(OFFSET_BASIS, front, [x[k]] + back);
    FoldConcat(OFFSET_BASIS, front, [y[k]] + back);
    assert ([x[k]] + back)[1..] == back && ([y[k]] + back)[1..] == back;
    FoldSeparates(Mix(h, x[k]), Mix(h, y[k]), back);
    if Mix(h, x[k]) == Mix(h, y[k]) {
      MixInjective(h, h, x[k], y[k]);
    }
  }
}
