/** Bytes, and stretches of a buffer that start with a known encoding. */
module Bytes {
  type Byte = x: int | 0 <= x < 256

  lemma PrefixTail(a: seq<Byte>, b: seq<Byte>)
    requires a <= b && a != []
    ensures a[1..] <= b[1..]
  {
    assert b == a + b[|a|..];
    assert b[1..] == a[1..] + b[|a|..];
  }

  /** Two encodings in a row: the second starts where the first ends. */
  lemma PrefixAt(a: seq<Byte>, b: seq<Byte>, buf: seq<Byte>, off: nat)
    requires off <= |buf| && a + b <= buf[off..]
    ensures a <= buf[off..] && off + |a| <= |buf| && b <= buf[off + |a|..]
  {
    assert buf[off..] == (a + b) + buf[off..][|a + b|..];
    assert (a + b) + buf[off..][|a + b|..] == a + (b + buf[off..][|a + b|..]);
    assert buf[off + |a|..] == buf[off..][|a|..];
  }
}
