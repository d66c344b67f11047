/** Base64 (section 4 of RFC 4648): the encoder, and the decoder of the Python library, which
    skips characters outside the alphabet and stops at the first complete padding. */
module Base64 {
  import opened Bytes
  import opened Options

  type Sextet = x: int | 0 <= x < 64

  // ---- alphabet

  function Letter(v: Sextet): (c: char)
    ensures c != '='
  {
    if v < 26 then 'A' + v as char
    else if v < 52 then 'a' + (v - 26) as char
    else if v < 62 then '0' + (v - 52) as char
    else if v == 62 then '+' else '/'
  }

  function ValueOf(c: char): Option<Sextet> {
    if 'A' <= c <= 'Z' then Some((c - 'A') as int)
    else if 'a' <= c <= 'z' then Some((c - 'a') as int + 26)
    else if '0' <= c <= '9' then Some((c - '0') as int + 52)
    else if c == '+' then Some(62)
    else if c == '/' then Some(63)
    else None
  }

  lemma LetterValue(v: Sextet)
    ensures ValueOf(Letter(v)) == Some(v)
  {
    if v < 26 {
      assert Letter(v) - 'A' == v as char;
    } else if v < 52 {
      assert Letter(v) - 'a' == (v - 26) as char;
    } else if v < 62 {
      assert Letter(v) - '0' == (v - 52) as char;
    }
  }

  // ---- encoder

  /** The four letters of three bytes. */
  function Group(a: Byte, b: Byte, c: Byte): (s: string)
    ensures |s| == 4 && '=' !in s
  {
    [Letter(a / 4), Letter(a % 4 * 16 + b / 16), Letter(b % 16 * 4 + c / 64), Letter(c % 64)]
  }

  /** The letters of `b` without padding. */
  function Body(b: seq<Byte>): (s: string)
    ensures '=' !in s
    ensures s == [] <==> b == []
    decreases |b|
  {
    if b == [] then ""
    else if |b| == 1 then [Letter(b[0] / 4), Letter(b[0] % 4 * 16)]
    else if |b| == 2 then [Letter(b[0] / 4), Letter(b[0] % 4 * 16 + b[1] / 16), Letter(b[1] % 16 * 4)]
    else Group(b[0], b[1], b[2]) + Body(b[3..])
  }

  /** `n` padding signs. */
  function Signs(n: nat): (s: string)
    ensures |s| == n && forall i :: 0 <= i < n ==> s[i] == '='
  {
    seq(n, _ => '=')
  }

  /** Padding signs that complete `n` bytes. */
  function PadFor(n: nat): nat {
    if n % 3 == 0 then 0 else 3 - n % 3
  }

  lemma PadForSum(m: nat, n: nat)
    requires m % 3 == 0
    ensures (m + n) % 3 == n % 3 && PadFor(m + n) == PadFor(n)
  {
  }

  function Encode(b: seq<Byte>): string {
    Body(b) + Signs(PadFor(|b|))
  }

  // ---- decoder

  /** Bytes so far, position in the group of four, bits left over, padding signs in a row,
      and whether complete padding has ended the input. */
  datatype Dec = Dec(out: seq<Byte>, quad: nat, left: nat, pads: nat, done: bool) {
    predicate Valid() {
      quad < 4 && (quad == 1 ==> left < 64) && (quad == 2 ==> left < 16) && (quad == 3 ==> left < 4)
    }
  }

  const START := Dec([], 0, 0, 0, false)

  function Take(d: Dec, v: Sextet): (r: Dec)
    requires d.Valid()
    ensures r.Valid()
  {
    if d.quad == 0 then Dec(d.out, 1, v, 0, false)
    else if d.quad == 1 then Dec(d.out + [d.left * 4 + v / 16], 2, v % 16, 0, false)
    else if d.quad == 2 then Dec(d.out + [d.left * 16 + v / 4], 3, v % 4, 0, false)
    else Dec(d.out + [d.left * 64 + v], 0, 0, 0, false)
  }

  function Step(d: Dec, c: char): (r: Dec)
    requires d.Valid()
    ensures r.Valid()
  {
    if d.done then d
    else if c == '=' then
      if d.quad < 2 then d
      else if d.quad + d.pads + 1 >= 4 then d.(pads := d.pads + 1, done := true)
      else d.(pads := d.pads + 1)
    else match ValueOf(c)
      case None => d
      case Some(v) => Take(d, v)
  }

  function Run(d: Dec, s: string): (r: Dec)
    requires d.Valid()
    ensures r.Valid()
    decreases |s|
  {
    if s == [] then d else Run(Step(d, s[0]), s[1..])
  }

  function Decode(s: string): Option<seq<Byte>> {
    var d := Run(START, s);
    if d.done || d.quad == 0 then Some(d.out) else None
  }

  // ---- decoding an encoding

  lemma {:induction false} RunConcat(d: Dec, a: string, b: string)
    requires d.Valid()
    ensures Run(d, a + b) == Run(Run(d, a), b)
    decreases |a|
  {
    hide Step;
    if a == [] {
      assert a + b == b;
    } else {
      assert (a + b)[0] == a[0] && (a + b)[1..] == a[1..] + b;
      RunConcat(Step(d, a[0]), a[1..], b);
    }
  }

  lemma StepLetter(d: Dec, v: Sextet)
    requires d.Valid() && !d.done
    ensures Step(d, Letter(v)) == Take(d, v)
  {
    hide Take, Letter, ValueOf;
    LetterValue(v);
  }

  lemma RunThree(d: Dec, x: Sextet, y: Sextet, z: Sextet)
    requires d.Valid() && !d.done
    ensures !Take(d, x).done && !Take(Take(d, x), y).done
    ensures Run(d, [Letter(x), Letter(y)]) == Take(Take(d, x), y)
    ensures Run(d, [Letter(x), Letter(y), Letter(z)]) == Take(Take(Take(d, x), y), z)
  {
    hide Letter, ValueOf, Step;
    StepLetter(d, x);
    StepLetter(Take(d, x), y);
    StepLetter(Take(Take(d, x), y), z);
    RunTwo(d, Letter(x), Letter(y));
    assert [Letter(x), Letter(y), Letter(z)][1..] == [Letter(y), Letter(z)];
    RunTwo(Step(d, Letter(x)), Letter(y), Letter(z));
  }

  lemma RunTwo(d: Dec, a: char, b: char)
    requires d.Valid()
    ensures Run(d, [a, b]) == Step(Step(d, a), b)
  {
    hide Step;
    assert [a, b][1..] == [b];
    assert [b][1..] == [];
    assert Run(Step(d, a), [b]) == Run(Step(Step(d, a), b), []);
  }

  lemma RunFour(d: Dec, w: Sextet, x: Sextet, y: Sextet, z: Sextet)
    requires d.Valid() && !d.done
    ensures !Take(d, w).done && !Take(Take(d, w), x).done && !Take(Take(Take(d, w), x), y).done
    ensures Run(d, [Letter(w), Letter(x), Letter(y), Letter(z)]) == Take(Take(Take(Take(d, w), x), y), z)
  {
    hide Letter, ValueOf, Step;
    StepLetter(d, w);
    RunThree(Take(d, w), x, y, z);
    assert [Letter(w), Letter(x), Letter(y), Letter(z)][1..] == [Letter(x), Letter(y), Letter(z)];
  }

  lemma ThreeBytes(out: seq<Byte>, a: Byte, b: Byte, c: Byte)
    ensures var d := Dec(out, 0, 0, 0, false);
      Take(Take(Take(Take(d, a / 4), a % 4 * 16 + b / 16), b % 16 * 4 + c / 64), c % 64) ==
        Dec(out + [a, b, c], 0, 0, 0, false)
  {
    assert out + [a] + [b] + [c] == out + [a, b, c];
  }

  lemma RunGroup(out: seq<Byte>, a: Byte, b: Byte, c: Byte)
    ensures Run(Dec(out, 0, 0, 0, false), Group(a, b, c)) == Dec(out + [a, b, c], 0, 0, 0, false)
  {
    hide Letter, Take, Run;
    ThreeBytes(out, a, b, c);
    RunFour(Dec(out, 0, 0, 0, false), a / 4, a % 4 * 16 + b / 16, b % 16 * 4 + c / 64, c % 64);
  }

  lemma TwoBytes(out: seq<Byte>, a: Byte, b: Byte)
    ensures var d := Dec(out, 0, 0, 0, false);
      Take(Take(Take(d, a / 4), a % 4 * 16 + b / 16), b % 16 * 4) == Dec(out + [a, b], 3, 0, 0, false)
  {
    assert out + [a] + [b] == out + [a, b];
  }

  lemma OneByte(out: seq<Byte>, a: Byte)
    ensures var d := Dec(out, 0, 0, 0, false); Take(Take(d, a / 4), a % 4 * 16) == Dec(out + [a], 2, 0, 0, false)
  {
  }

  /** Reading the letters of `b` yields its bytes and leaves only the group position. */
  lemma {:induction false} RunBody(out: seq<Byte>, b: seq<Byte>)
    ensures Run(Dec(out, 0, 0, 0, false), Body(b)) == Dec(out + b, if |b| % 3 == 0 then 0 else |b| % 3 + 1, 0, 0, false)
    decreases |b|
  {
    hide Take, Step, Letter, Run, Group;
    var d := Dec(out, 0, 0, 0, false);
    if b == [] {
      RunNothing(d);
      assert out + b == out;
    } else if |b| == 1 {
      OneByte(out, b[0]);
      RunThree(d, b[0] / 4, b[0] % 4 * 16, 0);
      assert b == [b[0]];
    } else if |b| == 2 {
      TwoBytes(out, b[0], b[1]);
      RunThree(d, b[0] / 4, b[0] % 4 * 16 + b[1] / 16, b[1] % 16 * 4);
      assert b == [b[0], b[1]];
    } else {
      RunGroup(out, b[0], b[1], b[2]);
      RunBody(out + b[..3], b[3..]);
      assert b[..3] == [b[0], b[1], b[2]];
      assert out + b[..3] + b[3..] == out + b;
      RunConcat(d, Group(b[0], b[1], b[2]), Body(b[3..]));
    }
  }

  lemma RunNothing(d: Dec)
    requires d.Valid()
    ensures Run(d, "") == d
  {
  }

  /** Once padding is complete, nothing more is read. */
  lemma {:induction false} RunDone(d: Dec, s: string)
    requires d.Valid() && d.done
    ensures Run(d, s) == d
    decreases |s|
  {
    if s != [] {
      RunDone(d, s[1..]);
    }
  }

  /** The letters of `b`, its padding and any further text decode to `b` alone: a text of
      several padded parts must be split before it is decoded. */
  lemma DecodeStops(b: seq<Byte>, rest: string)
    requires |b| % 3 != 0 || rest == []
    ensures Decode(Encode(b) + rest) == Some(b)
  {
    hide Body, Run, Step;
    var d := Dec(b, if |b| % 3 == 0 then 0 else |b| % 3 + 1, 0, 0, false);
    RunBody([], b);
    assert [] + b == b;
    var pads := Signs(PadFor(|b|));
    assert Encode(b) + rest == Body(b) + (pads + rest);
    RunConcat(START, Body(b), pads + rest);
    RunConcat(d, pads, rest);
    RunPadding(d, |b| % 3);
    if |b| % 3 == 0 {
      assert rest == "";
      RunNothing(d);
    } else {
      RunDone(Run(d, pads), rest);
    }
  }

  lemma RunPadding(d: Dec, r: nat)
    requires r < 3 && d == Dec(d.out, if r == 0 then 0 else r + 1, 0, 0, false)
    ensures Run(d, Signs(PadFor(r))).out == d.out && (Run(d, Signs(PadFor(r))).done <==> r != 0)
    ensures (r == 0 ==> Run(d, Signs(PadFor(r))) == d)
  {
    if r == 0 {
      assert Signs(0) == "";
    } else if r == 2 {
      assert Signs(1) == ['='];
      assert Run(d, ['=']) == Run(Step(d, '='), []);
    } else {
      assert Signs(2) == ['=', '='];
      RunTwo(d, '=', '=');
    }
  }

  /** Whole groups of three concatenate without padding. */
  lemma {:induction false} BodyConcat(a: seq<Byte>, b: seq<Byte>)
    requires |a| % 3 == 0
    ensures Body(a + b) == Body(a) + Body(b)
    decreases |a|
  {
    hide Letter, Group;
    if a == [] {
      assert a + b == b;
    } else {
      assert (a + b)[3..] == a[3..] + b;
      BodyConcat(a[3..], b);
      var group := Group(a[0], a[1], a[2]);
      assert Body(a + b) == group + Body(a[3..] + b);
      assert group + (Body(a[3..]) + Body(b)) == (group + Body(a[3..])) + Body(b);
    }
  }

  lemma {:induction false} BodyLength(b: seq<Byte>)
    ensures |Body(b)| % 4 == if |b| % 3 == 0 then 0 else |b| % 3 + 1
    decreases |b|
  {
    hide Letter, Group;
    if |b| >= 3 {
      BodyLength(b[3..]);
    }
  }
}
