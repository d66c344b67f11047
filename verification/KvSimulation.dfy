/** The simulation loops: rows, 32-value sub-blocks and 16-token channel groups traverse the
    same stream in different orders. */
module KvSimulation {
  import opened Quantisation

  /** Tokens per block of the paged cache. */
  const TOKEN_BLOCK := 16

  /** Values per sub-block within a row. */
  const ROW_SUB := 32

  /** Squared error and energy of what has been added. */
  class ErrAcc {
    var num: real
    var den: real

    constructor ()
      ensures num == den == 0.0
    {
      num, den := 0.0, 0.0;
    }

    method Add(x: real, xh: real)
      modifies this
      ensures num == old(num) + Sq(x - xh) && den == old(den) + Sq(x)
    {
      var d := x - xh;
      num := num + d * d;
      den := den + x * x;
    }
  }

  /** `k` times the error is at most `n` times the energy. */
  ghost predicate Bounded(acc: ErrAcc, k: real, n: nat)
    reads acc
  {
    k * acc.num <= Times(n, acc.den) && acc.den >= 0.0
  }

  lemma BoundedGrows(k: real, n: nat, num: real, den: real, e: real, s: real)
    requires k * num <= Times(n, den) && k * e <= Times(n, s)
    ensures k * (num + e) <= Times(n, den + s)
  {
    TimesSum(n, den, s);
    assert k * (num + e) == k * num + k * e;
  }

  // ---- the error of a block

  /** Symmetric by the block's own largest magnitude. */
  function SymBlockErr(xs: seq<real>): real {
    SymErr(xs, AbsMax(xs) / 127.0)
  }

  /** Affine between the block's own extremes. */
  function AffineBlockErr(xs: seq<real>): real
    requires xs != []
  {
    AffineErr(xs, Least(xs), Greatest(xs))
  }

  function BlockEnd(b0: nat, size: nat, n: nat): (be: nat) {
    if n < b0 + size then n else b0 + size
  }

  /** Symmetric by sub-blocks, from value `b0` on. */
  function SubErr(xs: seq<real>, b0: nat): real
    decreases |xs| - b0
  {
    if b0 >= |xs| then 0.0
    else
      var be := BlockEnd(b0, ROW_SUB, |xs|);
      SymBlockErr(xs[b0..be]) + SubErr(xs, be)
  }

  datatype Scheme = Sym | Affine | Sub

  function BlockErr(k: Scheme, xs: seq<real>): real
    requires xs != []
  {
    match k
    case Sym => SymBlockErr(xs)
    case Affine => AffineBlockErr(xs)
    case Sub => SubErr(xs, 0)
  }

  // ---- adding a block

  lemma Prefix(xs: seq<real>, i: nat)
    requires i < |xs|
    ensures xs[..i + 1][..i] == xs[..i] && xs[..i + 1][i] == xs[i]
  {
  }

  lemma SumSqNone(xs: seq<real>)
    ensures xs[..0] == [] && SumSq(xs[..0]) == 0.0
  {
  }

  /** Quantises one block symmetrically by its own largest magnitude. */
  method AddSym(xs: seq<real>, acc: ErrAcc, ghost n: nat)
    requires |xs| <= n && Bounded(acc, 64516.0, n)
    modifies acc
    ensures Bounded(acc, 64516.0, n) && acc.den == old(acc.den) + SumSq(xs)
    ensures acc.num == old(acc.num) + SymBlockErr(xs)
  {
    hide Sq, QuantSym;
    var am := 0.0;
    SumSqNone(xs);
    for i := 0 to |xs|
      invariant am == AbsMax(xs[..i]) && acc.num == old(acc.num) && acc.den == old(acc.den)
    {
      Prefix(xs, i);
      am := Max(am, Abs(xs[i]));
    }
    assert xs[..|xs|] == xs;
    var s := am / 127.0;
    assert SymErr(xs[..0], s) == 0.0;
    for i := 0 to |xs|
      invariant acc.num == old(acc.num) + SymErr(xs[..i], s) && acc.den == old(acc.den) + SumSq(xs[..i])
    {
      Prefix(xs, i);
      acc.Add(xs[i], QuantSym(xs[i], s));
    }
    SymBlock(xs, n);
    BoundedGrows(64516.0, n, old(acc.num), old(acc.den), SymErr(xs, s), SumSq(xs));
  }

  /** Quantises one block affinely between its own extremes. */
  method AddAffine(xs: seq<real>, acc: ErrAcc, ghost n: nat)
    requires xs != [] && |xs| <= n && Bounded(acc, 130050.0, n)
    modifies acc
    ensures Bounded(acc, 130050.0, n) && acc.den == old(acc.den) + SumSq(xs)
    ensures acc.num == old(acc.num) + AffineBlockErr(xs)
  {
    hide Sq, QuantAffine;
    var mn, mx := xs[0], xs[0];
    SumSqNone(xs);
    assert xs[..1] == [xs[0]];
    for i := 1 to |xs|
      invariant mn == Least(xs[..i]) && mx == Greatest(xs[..i]) && acc.num == old(acc.num) && acc.den == old(acc.den)
    {
      Prefix(xs, i);
      mn, mx := Min(mn, xs[i]), Max(mx, xs[i]);
    }
    assert xs[..|xs|] == xs;
    assert AffineErr(xs[..0], mn, mx) == 0.0;
    for i := 0 to |xs|
      invariant acc.num == old(acc.num) + AffineErr(xs[..i], mn, mx) && acc.den == old(acc.den) + SumSq(xs[..i])
    {
      Prefix(xs, i);
      acc.Add(xs[i], QuantAffine(xs[i], mn, mx));
    }
    AffineBlock(xs, n);
    BoundedGrows(130050.0, n, old(acc.num), old(acc.den), AffineErr(xs, mn, mx), SumSq(xs));
  }

  lemma {:induction false} SumSqConcat(a: seq<real>, b: seq<real>)
    ensures SumSq(a + b) == SumSq(a) + SumSq(b)
    decreases |b|
  {
    hide Sq;
    if b == [] {
      assert a + b == a;
    } else {
      SumSqConcat(a, b[..|b| - 1]);
      assert (a + b)[..|a + b| - 1] == a + b[..|b| - 1];
    }
  }

  lemma SumSqSplit(xs: seq<real>, i: nat, j: nat)
    requires i <= j <= |xs|
    ensures SumSq(xs[..j]) == SumSq(xs[..i]) + SumSq(xs[i..j])
  {
    SumSqConcat(xs[..i], xs[i..j]);
    assert xs[..i] + xs[i..j] == xs[..j];
  }

  /** The sub-blocks of one row of one head. */
  method AddSubBlocks(hr: seq<real>, acc: ErrAcc)
    requires Bounded(acc, 64516.0, ROW_SUB)
    modifies acc
    ensures Bounded(acc, 64516.0, ROW_SUB) && acc.den == old(acc.den) + SumSq(hr)
    ensures acc.num == old(acc.num) + SubErr(hr, 0)
  {
    hide Bounded, SymBlockErr;
    var b0 := 0;
    assert hr[..0] == [];
    while b0 < |hr|
      invariant b0 <= |hr| && Bounded(acc, 64516.0, ROW_SUB) && acc.den == old(acc.den) + SumSq(hr[..b0])
      invariant acc.num + SubErr(hr, b0) == old(acc.num) + SubErr(hr, 0)
    {
      var be := if |hr| < b0 + ROW_SUB then |hr| else b0 + ROW_SUB;
      AddSym(hr[b0..be], acc, ROW_SUB);
      SumSqSplit(hr, b0, be);
      b0 := be;
    }
    assert hr[..|hr|] == hr;
  }

  // ---- the stream

  lemma {:induction false} ProductOrder(a: nat, b: nat, width: nat)
    requires a <= b
    ensures a * width <= b * width
    decreases b
  {
    if a < b {
      ProductOrder(a, b - 1, width);
      assert b * width == (b - 1) * width + width;
    }
  }

  lemma RowBounds(r: nat, rows: nat, width: nat)
    requires r < rows
    ensures 0 <= r * width <= (r + 1) * width <= rows * width
  {
    ProductOrder(0, r, width);
    ProductOrder(r, r + 1, width);
    ProductOrder(r + 1, rows, width);
  }

  /** Row `r` of a stream stored row by row. */
  function Row(data: seq<real>, width: nat, rows: nat, r: nat): (xs: seq<real>)
    requires r < rows && rows * width <= |data|
    ensures |xs| == width
  {
    RowBounds(r, rows, width);
    assert (r + 1) * width == r * width + width;
    data[r * width..(r + 1) * width]
  }

  lemma HeadBounds(h: nat, heads: nat, dim: nat)
    requires h < heads
    ensures 0 <= h * dim <= (h + 1) * dim <= heads * dim && (h + 1) * dim == h * dim + dim
  {
    RowBounds(h, heads, dim);
    assert (h + 1) * dim == h * dim + dim;
  }

  /** The part of a row that belongs to head `h`. */
  function Head(row: seq<real>, heads: nat, dim: nat, h: nat): (xs: seq<real>)
    requires h < heads && heads * dim <= |row|
    ensures |xs| == dim
  {
    Row(row, dim, heads, h)
  }

  /** The error of a scheme over the first `h` heads of a row. */
  function RowErr(k: Scheme, row: seq<real>, heads: nat, dim: nat, h: nat): real
    requires dim > 0 && h <= heads && heads * dim <= |row|
    decreases h
  {
    if h == 0 then 0.0 else RowErr(k, row, heads, dim, h - 1) + BlockErr(k, Head(row, heads, dim, h - 1))
  }

  /** The error of a scheme over the first `r` rows, head by head. */
  function RowsErr(k: Scheme, data: seq<real>, rows: nat, heads: nat, dim: nat, r: nat): real
    requires dim > 0 && r <= rows && rows * (heads * dim) <= |data|
    decreases r
  {
    if r == 0 then 0.0
    else
      RowsErr(k, data, rows, heads, dim, r - 1) + RowErr(k, Row(data, heads * dim, rows, r - 1), heads, dim, heads)
  }

  /** The energy of the first `c` channels of rows `lo` to `hi`. */
  function Energy(data: seq<real>, width: nat, rows: nat, lo: nat, hi: nat, c: nat): (y: real)
    requires lo <= hi <= rows && rows * width <= |data| && c <= width
    ensures y >= 0.0
    decreases hi - lo
  {
    if lo == hi then 0.0
    else Energy(data, width, rows, lo, hi - 1, c) + SumSq(Row(data, width, rows, hi - 1)[..c])
  }

  lemma {:induction false} EnergyOfRows(data: seq<real>, width: nat, rows: nat, lo: nat, mid: nat, hi: nat, c: nat)
    requires lo <= mid <= hi <= rows && rows * width <= |data| && c <= width
    ensures Energy(data, width, rows, lo, hi, c) ==
      Energy(data, width, rows, lo, mid, c) + Energy(data, width, rows, mid, hi, c)
    decreases hi - mid
  {
    hide SumSq, Row;
    if mid < hi {
      EnergyOfRows(data, width, rows, lo, mid, hi - 1, c);
    }
  }

  /** The values of channel `c` in rows `lo` to `hi`. */
  function Column(data: seq<real>, width: nat, rows: nat, lo: nat, hi: nat, c: nat): (xs: seq<real>)
    requires lo <= hi <= rows && rows * width <= |data| && c < width
    ensures |xs| == hi - lo
    decreases hi - lo
  {
    if lo == hi then [] else Column(data, width, rows, lo, hi - 1, c) + [Row(data, width, rows, hi - 1)[c]]
  }

  /** Adding a channel to a group of rows adds that channel's values in each of them. */
  lemma {:induction false} EnergyOfColumn(data: seq<real>, width: nat, rows: nat, lo: nat, hi: nat, c: nat)
    requires lo <= hi <= rows && rows * width <= |data| && c < width
    ensures Energy(data, width, rows, lo, hi, c + 1) ==
      Energy(data, width, rows, lo, hi, c) + SumSq(Column(data, width, rows, lo, hi, c))
    decreases hi - lo
  {
    hide Sq, Row;
    if lo < hi {
      EnergyOfColumn(data, width, rows, lo, hi - 1, c);
      var row, col := Row(data, width, rows, hi - 1), Column(data, width, rows, lo, hi - 1, c);
      Prefix(row, c);
      assert (col + [row[c]])[..|col|] == col;
    }
  }

  lemma {:induction false} EnergyOfNothing(data: seq<real>, width: nat, rows: nat, lo: nat, hi: nat)
    requires lo <= hi <= rows && rows * width <= |data|
    ensures Energy(data, width, rows, lo, hi, 0) == 0.0
    decreases hi - lo
  {
    if lo < hi {
      EnergyOfNothing(data, width, rows, lo, hi - 1);
      assert Row(data, width, rows, hi - 1)[..0] == [];
    }
  }

  /** The error of a scheme over the first `c` channels of rows `lo` to `hi`, channel by channel. */
  function GroupErr(k: Scheme, data: seq<real>, width: nat, rows: nat, lo: nat, hi: nat, c: nat): real
    requires lo < hi <= rows && rows * width <= |data| && c <= width
    decreases c
  {
    if c == 0 then 0.0
    else
      GroupErr(k, data, width, rows, lo, hi, c - 1) + BlockErr(k, Column(data, width, rows, lo, hi, c - 1))
  }

  /** The error of a scheme over the groups of sixteen rows from row `g0` on. */
  function GroupsErr(k: Scheme, data: seq<real>, width: nat, rows: nat, g0: nat): real
    requires rows * width <= |data|
    decreases rows - g0
  {
    if g0 >= rows then 0.0
    else
      var ge := BlockEnd(g0, TOKEN_BLOCK, rows);
      GroupErr(k, data, width, rows, g0, ge, width) + GroupsErr(k, data, width, rows, ge)
  }

  // ---- the traversals

  /** A stream: its values row by row. */
  datatype Stream = Stream(rows: nat, data: seq<real>)

  predicate Holds(s: Stream, width: nat) {
    s.rows * width <= |s.data|
  }

  function StreamEnergy(s: Stream, width: nat): (y: real)
    requires Holds(s, width)
    ensures y >= 0.0
  {
    Energy(s.data, width, s.rows, 0, s.rows, width)
  }

  /** The five ways a stream is quantised: head by head in three ways, and channel by channel over
      sixteen rows in two. */
  datatype Plan = RowSym | RowAffine | Row32 | ChanSym | ChanAffine

  /** The squared error of a plan over one stream. */
  function StreamErr(plan: Plan, s: Stream, heads: nat, dim: nat): real
    requires dim > 0 && Holds(s, heads * dim)
  {
    match plan
    case RowSym => RowsErr(Sym, s.data, s.rows, heads, dim, s.rows)
    case RowAffine => RowsErr(Affine, s.data, s.rows, heads, dim, s.rows)
    case Row32 => RowsErr(Sub, s.data, s.rows, heads, dim, s.rows)
    case ChanSym => GroupsErr(Sym, s.data, heads * dim, s.rows, 0)
    case ChanAffine => GroupsErr(Affine, s.data, heads * dim, s.rows, 0)
  }

  /** The three row-granular schemes over one row, head by head. */
  method AddRow(row: seq<real>, heads: nat, dim: nat, sym: ErrAcc, affine: ErrAcc, sub: ErrAcc)
    requires dim > 0 && |row| == heads * dim && sym != affine && sym != sub && affine != sub
    requires Bounded(sym, 64516.0, dim) && Bounded(affine, 130050.0, dim) && Bounded(sub, 64516.0, ROW_SUB)
    modifies sym, affine, sub
    ensures Bounded(sym, 64516.0, dim) && Bounded(affine, 130050.0, dim) && Bounded(sub, 64516.0, ROW_SUB)
    ensures sym.den == old(sym.den) + SumSq(row) && affine.den == old(affine.den) + SumSq(row)
    ensures sub.den == old(sub.den) + SumSq(row)
    ensures sym.num == old(sym.num) + RowErr(Sym, row, heads, dim, heads)
    ensures affine.num == old(affine.num) + RowErr(Affine, row, heads, dim, heads)
    ensures sub.num == old(sub.num) + RowErr(Sub, row, heads, dim, heads)
  {
    hide Bounded, SumSq, SymBlockErr, AffineBlockErr, SubErr;
    SumSqNone(row);
    assert 0 * dim == 0;
    for h := 0 to heads
      invariant h * dim <= |row|
      invariant Bounded(sym, 64516.0, dim) && Bounded(affine, 130050.0, dim) && Bounded(sub, 64516.0, ROW_SUB)
      invariant var done := SumSq(row[..h * dim]);
        sym.den == old(sym.den) + done && affine.den == old(affine.den) + done && sub.den == old(sub.den) + done
      invariant sym.num == old(sym.num) + RowErr(Sym, row, heads, dim, h)
      invariant affine.num == old(affine.num) + RowErr(Affine, row, heads, dim, h)
      invariant sub.num == old(sub.num) + RowErr(Sub, row, heads, dim, h)
    {
      HeadBounds(h, heads, dim);
      var hr := row[h * dim..(h + 1) * dim];
      SumSqSplit(row, h * dim, (h + 1) * dim);
      AddSym(hr, sym, dim);
      AddAffine(hr, affine, dim);
      AddSubBlocks(hr, sub);
    }
    assert row[..heads * dim] == row;
  }

  /** The two channel-granular schemes over one group of rows, channel by channel. */
  method AddGroup(s: Stream, width: nat, lo: nat, hi: nat, sym: ErrAcc, affine: ErrAcc)
    requires Holds(s, width) && lo < hi <= s.rows && hi - lo <= TOKEN_BLOCK && sym != affine
    requires Bounded(sym, 64516.0, TOKEN_BLOCK) && Bounded(affine, 130050.0, TOKEN_BLOCK)
    modifies sym, affine
    ensures Bounded(sym, 64516.0, TOKEN_BLOCK) && Bounded(affine, 130050.0, TOKEN_BLOCK)
    ensures var e := Energy(s.data, width, s.rows, lo, hi, width);
      sym.den == old(sym.den) + e && affine.den == old(affine.den) + e
    ensures sym.num == old(sym.num) + GroupErr(Sym, s.data, width, s.rows, lo, hi, width)
    ensures affine.num == old(affine.num) + GroupErr(Affine, s.data, width, s.rows, lo, hi, width)
  {
    hide Bounded, SumSq, Energy, Column, SymBlockErr, AffineBlockErr;
    EnergyOfNothing(s.data, width, s.rows, lo, hi);
    for c := 0 to width
      invariant Bounded(sym, 64516.0, TOKEN_BLOCK) && Bounded(affine, 130050.0, TOKEN_BLOCK)
      invariant var e := Energy(s.data, width, s.rows, lo, hi, c);
        sym.den == old(sym.den) + e && affine.den == old(affine.den) + e
      invariant sym.num == old(sym.num) + GroupErr(Sym, s.data, width, s.rows, lo, hi, c)
      invariant affine.num == old(affine.num) + GroupErr(Affine, s.data, width, s.rows, lo, hi, c)
    {
      var xs := Column(s.data, width, s.rows, lo, hi, c);
      EnergyOfColumn(s.data, width, s.rows, lo, hi, c);
      AddSym(xs, sym, TOKEN_BLOCK);
      AddAffine(xs, affine, TOKEN_BLOCK);
    }
  }

  /** The five accumulators: symmetric and affine by row, symmetric by sub-block, symmetric
      and affine by channel. */
  datatype Schemes = Schemes(rowSym: ErrAcc, rowAffine: ErrAcc, row32: ErrAcc, chanSym: ErrAcc, chanAffine: ErrAcc) {
    ghost predicate Separate() {
      && rowSym != rowAffine && rowSym != row32 && rowSym != chanSym && rowSym != chanAffine
      && rowAffine != row32 && rowAffine != chanSym && rowAffine != chanAffine
      && row32 != chanSym && row32 != chanAffine && chanSym != chanAffine
    }

    /** Every scheme is within its bound: n is the head size, 32 or 16. */
    ghost predicate WithinBounds(dim: nat)
      reads rowSym, rowAffine, row32, chanSym, chanAffine
    {
      && Bounded(rowSym, 64516.0, dim) && Bounded(rowAffine, 130050.0, dim) && Bounded(row32, 64516.0, ROW_SUB)
      && Bounded(chanSym, 64516.0, TOKEN_BLOCK) && Bounded(chanAffine, 130050.0, TOKEN_BLOCK)
    }

    /** Every scheme has seen the same energy. */
    ghost predicate Energies(e: real)
      reads rowSym, rowAffine, row32, chanSym, chanAffine
    {
      rowSym.den == e && rowAffine.den == e && row32.den == e && chanSym.den == e && chanAffine.den == e
    }

    /** Every scheme has its own squared error of these streams. */
    ghost predicate Errors(streams: seq<Stream>, heads: nat, dim: nat)
      requires dim > 0 && forall i :: 0 <= i < |streams| ==> Holds(streams[i], heads * dim)
      reads rowSym, rowAffine, row32, chanSym, chanAffine
    {
      && rowSym.num == TotalErr(RowSym, streams, heads, dim)
      && rowAffine.num == TotalErr(RowAffine, streams, heads, dim)
      && row32.num == TotalErr(Row32, streams, heads, dim)
      && chanSym.num == TotalErr(ChanSym, streams, heads, dim)
      && chanAffine.num == TotalErr(ChanAffine, streams, heads, dim)
    }
  }

  /** One stream through all five schemes. */
  method AddStream(s: Stream, heads: nat, dim: nat, acc: Schemes, ghost before: real)
    requires dim > 0 && Holds(s, heads * dim) && acc.Separate() && acc.WithinBounds(dim) && acc.Energies(before)
    modifies acc.rowSym, acc.rowAffine, acc.row32, acc.chanSym, acc.chanAffine
    ensures acc.WithinBounds(dim) && acc.Energies(before + StreamEnergy(s, heads * dim))
    ensures acc.rowSym.num == old(acc.rowSym.num) + StreamErr(RowSym, s, heads, dim)
    ensures acc.rowAffine.num == old(acc.rowAffine.num) + StreamErr(RowAffine, s, heads, dim)
    ensures acc.row32.num == old(acc.row32.num) + StreamErr(Row32, s, heads, dim)
    ensures acc.chanSym.num == old(acc.chanSym.num) + StreamErr(ChanSym, s, heads, dim)
    ensures acc.chanAffine.num == old(acc.chanAffine.num) + StreamErr(ChanAffine, s, heads, dim)
  {
    hide Bounded, StreamEnergy, RowsErr, GroupsErr, Holds;
    AddRows(s, heads, dim, acc, before);
    AddGroups(s, heads * dim, dim, acc, before);
  }

  /** The row-granular schemes, row by row. */
  method AddRows(s: Stream, heads: nat, dim: nat, acc: Schemes, ghost before: real)
    requires dim > 0 && Holds(s, heads * dim) && acc.Separate() && acc.WithinBounds(dim) && acc.Energies(before)
    modifies acc.rowSym, acc.rowAffine, acc.row32
    ensures acc.WithinBounds(dim)
    ensures var all := before + StreamEnergy(s, heads * dim);
      acc.rowSym.den == all && acc.rowAffine.den == all && acc.row32.den == all
    ensures acc.rowSym.num == old(acc.rowSym.num) + RowsErr(Sym, s.data, s.rows, heads, dim, s.rows)
    ensures acc.rowAffine.num == old(acc.rowAffine.num) + RowsErr(Affine, s.data, s.rows, heads, dim, s.rows)
    ensures acc.row32.num == old(acc.row32.num) + RowsErr(Sub, s.data, s.rows, heads, dim, s.rows)
  {
    hide Bounded, SumSq, Row, RowErr;
    var width := heads * dim;
    for r := 0 to s.rows
      invariant acc.WithinBounds(dim) && acc.chanSym.den == before && acc.chanAffine.den == before
      invariant var e := before + Energy(s.data, width, s.rows, 0, r, width);
        acc.rowSym.den == e && acc.rowAffine.den == e && acc.row32.den == e
      invariant acc.rowSym.num == old(acc.rowSym.num) + RowsErr(Sym, s.data, s.rows, heads, dim, r)
      invariant acc.rowAffine.num == old(acc.rowAffine.num) + RowsErr(Affine, s.data, s.rows, heads, dim, r)
      invariant acc.row32.num == old(acc.row32.num) + RowsErr(Sub, s.data, s.rows, heads, dim, r)
    {
      var row := Row(s.data, width, s.rows, r);
      AddRow(row, heads, dim, acc.rowSym, acc.rowAffine, acc.row32);
      assert row[..width] == row;
    }
  }

  /** The channel-granular schemes, sixteen rows at a time. */
  method AddGroups(s: Stream, width: nat, ghost dim: nat, acc: Schemes, ghost before: real)
    requires Holds(s, width) && acc.Separate() && acc.WithinBounds(dim)
    requires acc.chanSym.den == before && acc.chanAffine.den == before
    modifies acc.chanSym, acc.chanAffine
    ensures acc.WithinBounds(dim)
    ensures var all := before + StreamEnergy(s, width); acc.chanSym.den == all && acc.chanAffine.den == all
    ensures acc.chanSym.num == old(acc.chanSym.num) + GroupsErr(Sym, s.data, width, s.rows, 0)
    ensures acc.chanAffine.num == old(acc.chanAffine.num) + GroupsErr(Affine, s.data, width, s.rows, 0)
  {
    hide Bounded, SumSq, Row, GroupErr;
    var g0 := 0;
    while g0 < s.rows
      invariant g0 <= s.rows && acc.WithinBounds(dim)
      invariant acc.chanSym.num + GroupsErr(Sym, s.data, width, s.rows, g0) ==
        old(acc.chanSym.num) + GroupsErr(Sym, s.data, width, s.rows, 0)
      invariant acc.chanAffine.num + GroupsErr(Affine, s.data, width, s.rows, g0) ==
        old(acc.chanAffine.num) + GroupsErr(Affine, s.data, width, s.rows, 0)
      invariant var e := before + Energy(s.data, width, s.rows, 0, g0, width);
        acc.chanSym.den == e && acc.chanAffine.den == e
    {
      var ge := if s.rows < g0 + TOKEN_BLOCK then s.rows else g0 + TOKEN_BLOCK;
      AddGroup(s, width, g0, ge, acc.chanSym, acc.chanAffine);
      EnergyOfRows(s.data, width, s.rows, 0, g0, ge, width);
      g0 := ge;
    }
  }

  function TotalErr(plan: Plan, streams: seq<Stream>, heads: nat, dim: nat): real
    requires dim > 0 && forall i :: 0 <= i < |streams| ==> Holds(streams[i], heads * dim)
  {
    if streams == [] then 0.0
    else
      TotalErr(plan, streams[..|streams| - 1], heads, dim) + StreamErr(plan, streams[|streams| - 1], heads, dim)
  }

  function TotalEnergy(streams: seq<Stream>, width: nat): real
    requires forall i :: 0 <= i < |streams| ==> Holds(streams[i], width)
  {
    if streams == [] then 0.0
    else TotalEnergy(streams[..|streams| - 1], width) + StreamEnergy(streams[|streams| - 1], width)
  }

  /** All prompts of one tensor. Every value is added exactly once to each accumulator, so
      the five denominators are the same energy, and each numerator stays within
      `n/254^2` (symmetric) or `n/(2*255^2)` (affine) of it. */
  method Simulate(streams: seq<Stream>, heads: nat, dim: nat) returns (acc: Schemes)
    requires dim > 0 && forall i :: 0 <= i < |streams| ==> Holds(streams[i], heads * dim)
    ensures acc.Energies(TotalEnergy(streams, heads * dim)) && acc.Errors(streams, heads, dim)
    ensures 64516.0 * acc.rowSym.num <= dim as real * acc.rowSym.den
    ensures 130050.0 * acc.rowAffine.num <= dim as real * acc.rowAffine.den
    ensures 64516.0 * acc.row32.num <= 32.0 * acc.row32.den
    ensures 64516.0 * acc.chanSym.num <= 16.0 * acc.chanSym.den
    ensures 130050.0 * acc.chanAffine.num <= 16.0 * acc.chanAffine.den
  {
    var a := new ErrAcc();
    var b := new ErrAcc();
    var c := new ErrAcc();
    var d := new ErrAcc();
    var e := new ErrAcc();
    acc := Schemes(a, b, c, d, e);
    NothingAdded(dim, ROW_SUB, TOKEN_BLOCK);
    hide Energy, TotalEnergy, StreamEnergy, Holds, TotalErr, Schemes.Errors;
    TotalNothing(streams, heads * dim);
    NoErrors(acc, streams, heads, dim);
    AddAll(streams, heads, dim, acc);
    BoundsAsProducts(acc, dim);
  }

  /** One stream after the other. */
  method AddAll(streams: seq<Stream>, heads: nat, dim: nat, acc: Schemes)
    requires dim > 0 && forall i :: 0 <= i < |streams| ==> Holds(streams[i], heads * dim)
    requires acc.Separate() && acc.WithinBounds(dim) && acc.Energies(TotalEnergy(streams[..0], heads * dim))
    requires acc.Errors(streams[..0], heads, dim)
    modifies acc.rowSym, acc.rowAffine, acc.row32, acc.chanSym, acc.chanAffine
    ensures acc.WithinBounds(dim) && acc.Energies(TotalEnergy(streams, heads * dim))
    ensures acc.Errors(streams, heads, dim)
  {
    hide TotalEnergy, Holds, Schemes.WithinBounds, Schemes.Energies, Schemes.Errors, Schemes.Separate;
    for p := 0 to |streams|
      invariant acc.Separate() && acc.WithinBounds(dim) && acc.Energies(TotalEnergy(streams[..p], heads * dim))
      invariant acc.Errors(streams[..p], heads, dim)
    {
      AddTo(streams, p, heads, dim, acc);
    }
    assert streams[..|streams|] == streams;
  }

  /** One more stream in all five accumulators. */
  method AddTo(streams: seq<Stream>, p: nat, heads: nat, dim: nat, acc: Schemes)
    requires p < |streams| && dim > 0 && forall i :: 0 <= i < |streams| ==> Holds(streams[i], heads * dim)
    requires acc.Separate() && acc.WithinBounds(dim) && acc.Energies(TotalEnergy(streams[..p], heads * dim))
    requires acc.Errors(streams[..p], heads, dim)
    modifies acc.rowSym, acc.rowAffine, acc.row32, acc.chanSym, acc.chanAffine
    ensures acc.WithinBounds(dim) && acc.Energies(TotalEnergy(streams[..p + 1], heads * dim))
    ensures acc.Errors(streams[..p + 1], heads, dim)
  {
    hide TotalEnergy, StreamEnergy, Holds, TotalErr, StreamErr;
    hide Schemes.WithinBounds, Schemes.Energies, Schemes.Separate;
    TotalStep(streams, p, heads * dim);
    TotalErrStep(streams, p, heads, dim);
    AddStream(streams[p], heads, dim, acc, TotalEnergy(streams[..p], heads * dim));
  }

  lemma TotalNothing(streams: seq<Stream>, width: nat)
    ensures TotalEnergy(streams[..0], width) == 0.0
  {
  }

  lemma NoErrors(acc: Schemes, streams: seq<Stream>, heads: nat, dim: nat)
    requires dim > 0 && forall i :: 0 <= i < |streams| ==> Holds(streams[i], heads * dim)
    requires acc.rowSym.num == acc.rowAffine.num == acc.row32.num == acc.chanSym.num == acc.chanAffine.num == 0.0
    ensures acc.Errors(streams[..0], heads, dim)
  {
    hide Holds;
  }

  lemma TotalErrStep(streams: seq<Stream>, p: nat, heads: nat, dim: nat)
    requires dim > 0 && p < |streams| && forall i :: 0 <= i < |streams| ==> Holds(streams[i], heads * dim)
    ensures forall plan ::
      var before, here := TotalErr(plan, streams[..p], heads, dim), StreamErr(plan, streams[p], heads, dim);
      TotalErr(plan, streams[..p + 1], heads, dim) == before + here
  {
    hide StreamErr, Holds;
    assert streams[..p + 1][..p] == streams[..p];
  }

  lemma TotalStep(streams: seq<Stream>, p: nat, width: nat)
    requires p < |streams| && forall i :: 0 <= i < |streams| ==> Holds(streams[i], width)
    ensures TotalEnergy(streams[..p + 1], width) == TotalEnergy(streams[..p], width) + StreamEnergy(streams[p], width)
  {
    hide StreamEnergy, Holds;
    assert streams[..p + 1][..p] == streams[..p];
  }

  lemma BoundsAsProducts(acc: Schemes, dim: nat)
    requires acc.WithinBounds(dim)
    ensures 64516.0 * acc.rowSym.num <= dim as real * acc.rowSym.den
    ensures 130050.0 * acc.rowAffine.num <= dim as real * acc.rowAffine.den
    ensures 64516.0 * acc.row32.num <= 32.0 * acc.row32.den
    ensures 64516.0 * acc.chanSym.num <= 16.0 * acc.chanSym.den
    ensures 130050.0 * acc.chanAffine.num <= 16.0 * acc.chanAffine.den
  {
    hide Times;
    TimesIsProduct(dim, acc.rowSym.den);
    TimesIsProduct(dim, acc.rowAffine.den);
    TimesIsProduct(ROW_SUB, acc.row32.den);
    TimesIsProduct(TOKEN_BLOCK, acc.chanSym.den);
    TimesIsProduct(TOKEN_BLOCK, acc.chanAffine.den);
  }

  lemma {:induction false} NothingAdded(x: nat, y: nat, z: nat)
    ensures Times(x, 0.0) == Times(y, 0.0) == Times(z, 0.0) == 0.0
  {
    TimesIsProduct(x, 0.0);
    TimesIsProduct(y, 0.0);
    TimesIsProduct(z, 0.0);
  }
}
