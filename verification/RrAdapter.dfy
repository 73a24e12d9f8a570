/** The RR adapter: K-block-major activations, scale groups of eight tiles,
    chunks of 128 tiles accumulated over all of K, and the copy out of the
    native-order C; the output is the reference product over the reals. */
module RrAdapter {
  import opened BitArithmetic
  import opened Floats
  import opened Quantized
  import opened VectorUnit
  import opened Gemm
  import opened Ime2Kernel
  import T1 = Ime1Tiles
  import T2 = Ime2Adapter
  import opened RrKernel

  const CHUNK: nat := 128   // kMTilesPerChunk

  /** The shapes the adapter admits: whole 8 x 32 tiles. */
  ghost predicate Accepted(p: Problem, aTiles: nat, bTiles: nat) {
    Valid(p) && p.m == aTiles * 8 && p.n == bTiles * 32
  }

  function Groups(aTiles: nat): nat { (aTiles + 7) / 8 }

  // ---------- Packed blocks ----------

  /** Windows of 128 bytes, sixteen bytes a row. */
  ghost predicate QuantPacked(qs: seq<Int8>, rows: seq<Q8>) {
    && |qs| == 256 && |rows| == 8
    && (forall m: nat :: m < 8 ==> T2.Segment(qs, 0, m, rows[m].qs[..16]))
    && (forall m: nat :: m < 8 ==> T2.Segment(qs, 0, 8 + m, rows[m].qs[16..]))
  }

  /** Column `s` of a scale group holds the rows' scales. */
  ghost predicate ScalesPacked(scales: seq<real>, rows: seq<Q8>, s: nat)
    requires s < 8
  {
    |scales| == 64 && |rows| == 8 && forall m: nat :: m < 8 ==> scales[8 * m + s] == rows[m].d
  }

  ghost predicate WeightsPacked(qs: seq<Byte>, scales: seq<real>, columns: seq<Q4>) {
    && |qs| == 512 && |scales| == 256 && |columns| == 32
    && (forall n: nat :: n < 32 ==> T2.Segment(qs, 0, n, columns[n].qs))
    && (forall n: nat :: n < 32 ==> scales[64 * (n / 8) + 8 * (n % 8)] == columns[n].d)
  }

  method PackQuant(rows: seq<Q8>) returns (packed: seq<Int8>)
    requires |rows| == 8
    ensures QuantPacked(packed, rows)
  {
    var first: seq<Int8> := [];
    var second: seq<Int8> := [];
    for row := 0 to 8
      invariant |first| == |second| == 16 * row
      invariant forall m: nat :: m < row ==>
                  T2.Segment(first, 0, m, rows[m].qs[..16]) && T2.Segment(second, 0, m, rows[m].qs[16..])
    {
      ghost var f, s := first, second;
      first, second := first + rows[row].qs[..16], second + rows[row].qs[16..];
      forall m: nat | m < row ensures T2.Segment(first, 0, m, rows[m].qs[..16])
          && T2.Segment(second, 0, m, rows[m].qs[16..]) {
        assert T2.Segment(f, 0, m, rows[m].qs[..16]) && T2.Segment(s, 0, m, rows[m].qs[16..]);
        assert first[16 * m..16 * m + 16] == f[16 * m..16 * m + 16]
            && second[16 * m..16 * m + 16] == s[16 * m..16 * m + 16];
      }
    }
    packed := first + second;
    forall m: nat | m < 8 ensures T2.Segment(packed, 0, m, rows[m].qs[..16]) {
      assert packed[16 * m..16 * m + 16] == first[16 * m..16 * m + 16];
    }
    forall m: nat | m < 8 ensures T2.Segment(packed, 0, 8 + m, rows[m].qs[16..]) {
      assert packed[16 * (8 + m)..16 * (8 + m) + 16] == second[16 * m..16 * m + 16];
    }
  }

  ghost predicate SameColumn(after: seq<real>, before: seq<real>, s: nat)
    requires s < 8
  {
    |after| == |before| == 64 && forall m: nat :: m < 8 ==> after[8 * m + s] == before[8 * m + s]
  }

  /** Only column `s` may have changed. */
  ghost predicate KeepsOthers(after: seq<real>, before: seq<real>, s: nat) {
    forall o: nat :: o < 8 && o != s ==> SameColumn(after, before, o)
  }

  /** Writes one tile's column of a scale group. */
  method PackScales(group: seq<real>, rows: seq<Q8>, s: nat) returns (packed: seq<real>)
    requires |group| == 64 && |rows| == 8 && s < 8
    ensures ScalesPacked(packed, rows, s)
    ensures KeepsOthers(packed, group, s)
  {
    packed := group;
    for row := 0 to 8
      invariant |packed| == 64
      invariant forall m: nat :: m < row ==> packed[8 * m + s] == rows[m].d
      invariant KeepsOthers(packed, group, s)
    {
      ghost var before := packed;
      packed := packed[8 * row + s := rows[row].d];
      forall o: nat | o < 8 && o != s ensures SameColumn(packed, group, o) { assert SameColumn(before, group, o); }
    }
  }

  method PackWeights(columns: seq<Q4>) returns (qs: seq<Byte>, scales: seq<real>)
    requires |columns| == 32
    ensures WeightsPacked(qs, scales, columns)
  {
    var bytes := new Byte[512];
    scales := seq(256, _ => 0.0);
    for column := 0 to 32
      invariant forall n: nat :: n < column ==> T2.Segment(bytes[..], 0, n, columns[n].qs)
      invariant |scales| == 256 && forall n: nat :: n < column ==> scales[64 * (n / 8) + 8 * (n % 8)] == columns[n].d
    {
      T2.PackColumn(bytes, 0, columns, column);
      var group, groupColumn := column / 8, column % 8;
      scales := scales[group * 64 + groupColumn * 8 := columns[column].d];
    }
    qs := bytes[..];
  }

  // ---------- A packed tile adds the reference term ----------

  lemma PackedRow(a: seq<Int8>, rows: seq<Q8>, row: nat)
    requires QuantPacked(a, rows) && row < 8
    ensures a[..128][16 * row..16 * row + 16] == rows[row].qs[..16]
            && a[128..][16 * row..16 * row + 16] == rows[row].qs[16..]
  {
    assert T2.Segment(a, 0, row, rows[row].qs[..16]) && T2.Segment(a, 0, 8 + row, rows[row].qs[16..]);
    assert a[..128][16 * row..16 * row + 16] == a[16 * row..16 * row + 16];
    SliceOfSlice(a, 128, 256, 16 * row, 16 * row + 16);
    assert a[128..] == a[128..256];
  }

  lemma PackedColumn(w: seq<Byte>, wScales: seq<real>, columns: seq<Q4>, g: nat, column: nat)
    requires WeightsPacked(w, wScales, columns) && g < 4 && column < 8
    ensures w[g * 128..g * 128 + 128][16 * column..16 * column + 16] == columns[8 * g + column].qs
    ensures wScales[64 * g + 8 * column] == columns[8 * g + column].d
  {
    var n := 8 * g + column;
    assert T2.Segment(w, 0, n, columns[n].qs);
    SliceOfSlice(w, g * 128, g * 128 + 128, 16 * column, 16 * column + 16);
    assert n / 8 == g && n % 8 == column;
  }

  lemma QuantIsBlockDot(a: seq<Int8>, w: seq<Byte>, wScales: seq<real>, rows: seq<Q8>, columns: seq<Q4>, g: nat,
                        row: nat, column: nat)
    requires QuantPacked(a, rows) && WeightsPacked(w, wScales, columns) && g < 4 && row < 8 && column < 8
    ensures Quant(a, w, g)[8 * row + column] == BlockDot(columns[8 * g + column], rows[row])
  {
    TwoDots(a[..128], a[128..], w[g * 128..g * 128 + 128], row, column);
    PackedRow(a, rows, row);
    PackedColumn(w, wScales, columns, g, column);
    BlockDotHalves(columns[8 * g + column], rows[row]);
  }

  lemma AddedIsValue(a: seq<Int8>, scales: seq<real>, s: nat, w: seq<Byte>, wScales: seq<real>, rows: seq<Q8>,
                     columns: seq<Q4>, g: nat, row: nat, column: nat)
    requires QuantPacked(a, rows) && s < 8 && ScalesPacked(scales, rows, s) && WeightsPacked(w, wScales, columns)
             && g < 4 && row < 8 && column < 8
    ensures Added(a, scales[8 * row + s], w, wScales[64 * g + 8 * column], g, row, column)
            == Value(BlockTerm(columns[8 * g + column], rows[row]))
  {
    QuantIsBlockDot(a, w, wScales, rows, columns, g, row, column);
    PackedColumn(w, wScales, columns, g, column);
    assert scales[8 * row + s] == rows[row].d;
    ProductIsValue(Quant(a, w, g)[8 * row + column], scales[8 * row + s], wScales[64 * g + 8 * column], rows[row],
                   columns[8 * g + column]);
  }

  lemma ProductIsValue(q: int, x: real, y: real, r: Q8, c: Q4)
    requires q == BlockDot(c, r) && x == r.d && y == c.d
    ensures Scaled(q, x, y) == Value(BlockTerm(c, r))
  {
    Rearrange(q as real, r.d, c.d);
  }

  lemma Rearrange(x: real, y: real, z: real)
    ensures x * (y * z) == x * z * y
  {}

  // ---------- The packed operands of a problem ----------

  /** Places `x` and `y` of the packed activations hold block `b` of tile `tm`. */
  ghost predicate AReadyAt(p: Problem, qs: seq<seq<Int8>>, scales: seq<seq<real>>, tm: nat, b: nat, x: nat, y: nat)
    requires Valid(p)
  {
    && b < p.k && 8 * tm + 8 <= p.m && x < |qs| && y < |scales|
    && QuantPacked(qs[x], T1.TileRows(p, tm, b)) && ScalesPacked(scales[y], T1.TileRows(p, tm, b), tm % 8)
  }

  function QuantPlace(aTiles: nat, tm: nat, b: nat): nat { b * aTiles + tm }

  function ScalePlace(aTiles: nat, tm: nat, b: nat): nat { b * Groups(aTiles) + tm / 8 }

  /** K-block-major: the block's tiles are consecutive, its scale groups too. */
  ghost predicate AReady(p: Problem, aTiles: nat, qs: seq<seq<Int8>>, scales: seq<seq<real>>, tm: nat, b: nat)
    requires Valid(p)
  {
    AReadyAt(p, qs, scales, tm, b, QuantPlace(aTiles, tm, b), ScalePlace(aTiles, tm, b))
  }

  function WeightPlace(k: nat, tn: nat, b: nat): nat { tn * k + b }

  ghost predicate BReady(p: Problem, qs: seq<seq<Byte>>, scales: seq<seq<real>>, tn: nat, b: nat)
    requires Valid(p)
  {
    BReadyAt(p, qs, scales, tn, b, WeightPlace(p.k, tn, b))
  }

  ghost predicate BReadyAt(p: Problem, qs: seq<seq<Byte>>, scales: seq<seq<real>>, tn: nat, b: nat, z: nat)
    requires Valid(p)
  {
    && b < p.k && 32 * tn + 32 <= p.n && z < |qs| && |qs| == |scales|
    && WeightsPacked(qs[z], scales[z], T2.TileColumns(p, tn, b))
  }

  lemma BKept(p: Problem, qs: seq<seq<Byte>>, scales: seq<seq<real>>, z: nat, w: seq<Byte>, wScales: seq<real>, tn: nat,
              b: nat, at: nat)
    requires Valid(p) && BReadyAt(p, qs, scales, tn, b, at) && z < |qs| && z != at
    ensures BReadyAt(p, qs[z := w], scales[z := wScales], tn, b, at)
  {}

  ghost predicate Wide(qs: seq<seq<Int8>>, scales: seq<seq<real>>) {
    && (forall x :: 0 <= x < |qs| ==> |qs[x]| == 256)
    && (forall x :: 0 <= x < |scales| ==> |scales[x]| == 64)
  }

  lemma Places(aTiles: nat, k: nat, tm: nat, b: nat)
    requires tm < aTiles && b < k
    ensures b * aTiles + tm < k * aTiles && tm / 8 < Groups(aTiles) && b * Groups(aTiles) + tm / 8 < k * Groups(aTiles)
  {
    CellBound(k, aTiles, b, tm);
    CellBound(k, Groups(aTiles), b, tm / 8);
  }

  lemma PlacesOf(p: Problem, aTiles: nat, bTiles: nat, blocks: nat, groups: nat, tile: nat, block: nat, x: nat, y: nat)
    requires Accepted(p, aTiles, bTiles) && blocks == p.k * aTiles && groups == p.k * Groups(aTiles) && tile < aTiles
             && block < p.k
    requires x == QuantPlace(aTiles, tile, block) && y == ScalePlace(aTiles, tile, block)
    ensures x < blocks && y < groups && 8 * tile + 8 <= p.m
  {
    MulStep(8, tile, aTiles);
    Places(aTiles, p.k, tile, block);
  }

  predicate Apart(x: nat, y: nat, s: nat, u: nat, v: nat, o: nat) {
    u != x && (v == y ==> o != s)
  }

  /** Different blocks have different places, or share a scale group in different columns. */
  lemma PlacesDiffer(aTiles: nat, tm: nat, b: nat, um: nat, c: nat)
    requires tm < aTiles && um < aTiles && (um, c) != (tm, b)
    ensures Apart(QuantPlace(aTiles, tm, b), ScalePlace(aTiles, tm, b), tm % 8, QuantPlace(aTiles, um, c),
                  ScalePlace(aTiles, um, c), um % 8)
  {
    CellOrder(aTiles, b, tm, c, um);
    CellOrder(Groups(aTiles), b, tm / 8, c, um / 8);
  }

  /** Packing one block keeps the blocks already packed. */
  lemma AKept(p: Problem, qs: seq<seq<Int8>>, scales: seq<seq<real>>, x: nat, block: seq<Int8>, y: nat,
              group: seq<real>, s: nat, um: nat, c: nat, u: nat, v: nat)
    requires Valid(p) && AReadyAt(p, qs, scales, um, c, u, v) && x < |qs| && y < |scales| && s < 8
    requires Apart(x, y, s, u, v, um % 8)
    requires KeepsOthers(group, scales[y], s)
    ensures AReadyAt(p, qs[x := block], scales[y := group], um, c, u, v)
  {
    if v == y { assert SameColumn(group, scales[y], um % 8); }
  }

  // ---------- Sums in native order ----------

  /** Element `(row, 8 * g + column)` of chunk tile `t` holds its first `upto` terms' sum. */
  ghost predicate SumAt(p: Problem, c: seq<real>, tm: nat, tn: nat, t: nat, upto: nat, g: nat, row: nat, column: nat)
    requires Valid(p) && 8 * tm + 8 <= p.m && 32 * tn + 32 <= p.n && upto <= p.k && PACKED_C * t + PACKED_C <= |c|
             && g < 4 && row < 8 && column < 8
  {
    SumIs(c, PACKED_C * t + CPlace(g, row, column), Terms(p, 8 * tm + row, 32 * tn + (8 * g + column)), upto)
  }

  ghost predicate SumIs(c: seq<real>, at: nat, terms: seq<Term>, upto: nat) {
    at < |c| && upto <= |terms| && c[at] == Sum(terms[..upto])
  }

  ghost predicate TileSums(p: Problem, c: seq<real>, tm: nat, tn: nat, t: nat, upto: nat)
    requires Valid(p)
  {
    && 8 * tm + 8 <= p.m && 32 * tn + 32 <= p.n && upto <= p.k && PACKED_C * t + PACKED_C <= |c|
    && forall g: nat, row: nat, column: nat :: g < 4 && row < 8 && column < 8 ==>
       SumAt(p, c, tm, tn, t, upto, g, row, column)
  }

  lemma SumNext(terms: seq<Term>, b: nat)
    requires b < |terms|
    ensures Sum(terms[..b + 1]) == Sum(terms[..b]) + Value(terms[b])
  {
    assert terms[..b + 1][..b] == terms[..b];
  }

  /** One kernel call advances every tile of the chunk by one K block. */
  lemma TileAdvanced(p: Problem, before: seq<real>, after: seq<real>, tm: nat, tn: nat, t: nat, b: nat, a: seq<Int8>,
                     scales: seq<real>, s: nat, w: seq<Byte>, wScales: seq<real>)
    requires Valid(p) && b < p.k && TileSums(p, before, tm, tn, t, b) && s < 8
    requires QuantPacked(a, T1.TileRows(p, tm, b)) && ScalesPacked(scales, T1.TileRows(p, tm, b), s)
             && WeightsPacked(w, wScales, T2.TileColumns(p, tn, b))
    requires TileAdded(before, after, t, a, scales, s, w, wScales)
    ensures TileSums(p, after, tm, tn, t, b + 1)
  {
    var upto := b + 1;
    forall g: nat, row: nat, column: nat | g < 4 && row < 8 && column < 8
      ensures SumAt(p, after, tm, tn, t, upto, g, row, column)
    {
      assert SumAt(p, before, tm, tn, t, b, g, row, column);
      LaneAdvanced(p, before, after, tm, tn, t, b, a, scales, s, w, wScales, g, row, column);
    }
  }

  lemma LaneAdvanced(p: Problem, before: seq<real>, after: seq<real>, tm: nat, tn: nat, t: nat, b: nat, a: seq<Int8>,
                     scales: seq<real>, s: nat, w: seq<Byte>, wScales: seq<real>, g: nat, row: nat, column: nat)
    requires Valid(p) && b < p.k && 8 * tm + 8 <= p.m && 32 * tn + 32 <= p.n && s < 8 && g < 4 && row < 8 && column < 8
    requires PACKED_C * t + PACKED_C <= |before| && SumAt(p, before, tm, tn, t, b, g, row, column)
    requires QuantPacked(a, T1.TileRows(p, tm, b)) && ScalesPacked(scales, T1.TileRows(p, tm, b), s)
    requires WeightsPacked(w, wScales, T2.TileColumns(p, tn, b))
             && TileAdded(before, after, t, a, scales, s, w, wScales)
    ensures PACKED_C * t + PACKED_C <= |after| && SumAt(p, after, tm, tn, t, b + 1, g, row, column)
  {
    var at := PACKED_C * t + CPlace(g, row, column);
    var value := LaneValue(before, after, t, a, scales, s, w, wScales, T1.TileRows(p, tm, b), T2.TileColumns(p, tn, b),
                           g, row, column);
    LaneSum(p, before, after, tm, tn, b, row, 8 * g + column, at, value);
  }

  /** The value a kernel call adds to one lane of a packed tile. */
  lemma LaneValue(before: seq<real>, after: seq<real>, t: nat, a: seq<Int8>, scales: seq<real>, s: nat, w: seq<Byte>,
                  wScales: seq<real>, rows: seq<Q8>, columns: seq<Q4>, g: nat, row: nat, column: nat)
    returns (value: real)
    requires s < 8 && g < 4 && row < 8 && column < 8
    requires QuantPacked(a, rows) && ScalesPacked(scales, rows, s) && WeightsPacked(w, wScales, columns)
    requires TileAdded(before, after, t, a, scales, s, w, wScales)
    ensures value == Value(BlockTerm(columns[8 * g + column], rows[row]))
    ensures var at := PACKED_C * t + CPlace(g, row, column); after[at] == before[at] + value
  {
    assert LaneAdded(before, after, t, a, scales, s, w, wScales, g, row, column);
    AddedIsValue(a, scales, s, w, wScales, rows, columns, g, row, column);
    value := Added(a, scales[8 * row + s], w, wScales[64 * g + 8 * column], g, row, column);
  }

  lemma LaneSum(p: Problem, before: seq<real>, after: seq<real>, tm: nat, tn: nat, b: nat, row: nat, column: nat,
                at: nat, added: real)
    requires Valid(p) && b < p.k && 8 * tm + 8 <= p.m && 32 * tn + 32 <= p.n && row < 8 && column < 32
             && |before| == |after|
    requires SumIs(before, at, Terms(p, 8 * tm + row, 32 * tn + column), b) && after[at] == before[at] + added
    requires added == Value(BlockTerm(T2.TileColumns(p, tn, b)[column], T1.TileRows(p, tm, b)[row]))
    ensures SumIs(after, at, Terms(p, 8 * tm + row, 32 * tn + column), b + 1)
  {
    TileTerm(p, tm, tn, b, row, column);
    SumAdvanced(before, after, at, Terms(p, 8 * tm + row, 32 * tn + column), b);
  }

  lemma SumAdvanced(before: seq<real>, after: seq<real>, at: nat, terms: seq<Term>, b: nat)
    requires SumIs(before, at, terms, b) && b < |terms| && |before| == |after|
             && after[at] == before[at] + Value(terms[b])
    ensures SumIs(after, at, terms, b + 1)
  {
    SumNext(terms, b);
  }

  lemma TileTerm(p: Problem, tm: nat, tn: nat, b: nat, row: nat, column: nat)
    requires Valid(p) && b < p.k && 8 * tm + 8 <= p.m && 32 * tn + 32 <= p.n && row < 8 && column < 32
    ensures Terms(p, 8 * tm + row, 32 * tn + column)[b]
            == BlockTerm(T2.TileColumns(p, tn, b)[column], T1.TileRows(p, tm, b)[row])
  {
    TermAt(p, 8 * tm + row, 32 * tn + column, b);
  }

  // ---------- The output ----------

  /** Output element `(i, j)` is the sum of its terms. */
  ghost predicate Right(p: Problem, output: seq<real>, i: nat, j: nat)
    requires Valid(p)
  {
    i < p.m && j < p.n && i * p.n + j < |output| && output[i * p.n + j] == Sum(Terms(p, i, j))
  }

  /** Nothing that was right is made wrong. */
  ghost predicate StillRight(p: Problem, before: seq<real>, after: seq<real>)
    requires Valid(p)
  {
    forall i: nat, j: nat :: Right(p, before, i, j) ==> Right(p, after, i, j)
  }

  /** The output columns of one N tile are right down to row `to`. */
  ghost predicate BandRight(p: Problem, output: seq<real>, to: nat, left: nat)
    requires Valid(p)
  {
    forall i: nat, j: nat :: i < to && i < p.m && left <= j < left + 32 ==> Right(p, output, i, j)
  }

  lemma BandGrows(p: Problem, before: seq<real>, after: seq<real>, from: nat, to: nat, next: nat, left: nat)
    requires Valid(p) && BandRight(p, before, from, left) && StillRight(p, before, after)
    requires forall i: nat, j: nat :: from <= i < to && left <= j < left + 32 ==> Right(p, after, i, j)
    requires to == next || p.m <= to
    ensures BandRight(p, after, next, left)
  {
    forall i: nat, j: nat | i < next && i < p.m && left <= j < left + 32 ensures Right(p, after, i, j) {
      if i < from { assert Right(p, before, i, j); }
    }
  }

  /** The matrix holds the output elements of the 8 x 8 window at `(top, left)`. */
  ghost predicate MatrixRight(p: Problem, matrix: seq<real>, top: nat, left: nat)
    requires Valid(p)
  {
    && |matrix| == 64 && top + 8 <= p.m && left + 8 <= p.n
    && forall row: nat, column: nat :: row < 8 && column < 8 ==> ElementRight(p, matrix, top, left, row, column)
  }

  ghost predicate ElementRight(p: Problem, matrix: seq<real>, top: nat, left: nat, row: nat, column: nat)
    requires Valid(p) && |matrix| == 64 && top + 8 <= p.m && left + 8 <= p.n && row < 8 && column < 8
  {
    matrix[8 * row + column] == Sum(Terms(p, top + row, left + column))
  }

  lemma WindowStored(p: Problem, before: seq<real>, after: seq<real>, top: nat, left: nat, matrix: seq<real>)
    requires Valid(p) && |before| == |after| == p.m * p.n && MatrixRight(p, matrix, top, left)
    requires RowsStored(after, p.n, top, left, 8, matrix, 8) && SameOutside(before, after, p.n, top, 8, left, 8)
    ensures StillRight(p, before, after)
    ensures forall i: nat, j: nat :: top <= i < top + 8 && left <= j < left + 8 ==> Right(p, after, i, j)
  {
    forall i: nat, j: nat | top <= i < top + 8 && left <= j < left + 8 ensures Right(p, after, i, j) {
      StoredRight(p, after, top, left, matrix, i - top, j - left);
    }
    forall i: nat, j: nat | Right(p, before, i, j) ensures Right(p, after, i, j) {
      if !(top <= i < top + 8 && left <= j < left + 8) { OutsideRight(p, before, after, top, left, i, j); }
    }
  }

  lemma OutsideRight(p: Problem, before: seq<real>, after: seq<real>, top: nat, left: nat, i: nat, j: nat)
    requires Valid(p) && |before| == |after| && SameOutside(before, after, p.n, top, 8, left, 8)
    requires Right(p, before, i, j) && !(top <= i < top + 8 && left <= j < left + 8)
    ensures Right(p, after, i, j)
  {
    assert Outside(before, after, p.n, top, 8, left, 8, i, j);
    RightKept(p, before, after, i, j, i * p.n + j);
  }

  lemma StoredRight(p: Problem, after: seq<real>, top: nat, left: nat, matrix: seq<real>, row: nat, column: nat)
    requires Valid(p) && |after| == p.m * p.n && |matrix| == 64 && top + 8 <= p.m && left + 8 <= p.n && row < 8
             && column < 8
    requires RowsStored(after, p.n, top, left, 8, matrix, 8) && MatrixRight(p, matrix, top, left)
    ensures Right(p, after, top + row, left + column)
  {
    assert RowStored(after, p.n, top, left, 8, matrix, row) && ElementRight(p, matrix, top, left, row, column);
    CellBound(p.m, p.n, top + row, left + column);
    SliceAgree(after, (top + row) * p.n + left, matrix, row * 8, 8, column);
  }

  lemma RightKept(p: Problem, before: seq<real>, after: seq<real>, i: nat, j: nat, at: nat)
    requires Valid(p) && Right(p, before, i, j) && |before| == |after| && at == i * p.n + j && after[at] == before[at]
    ensures Right(p, after, i, j)
  {}

  lemma WholeSum(c: seq<real>, at: nat, terms: seq<Term>)
    requires SumIs(c, at, terms, |terms|)
    ensures c[at] == Sum(terms)
  {
    assert terms[..|terms|] == terms;
  }

  lemma ElementOfTile(p: Problem, c: seq<real>, tm: nat, tn: nat, t: nat, g: nat, row: nat, column: nat)
    requires Valid(p) && TileSums(p, c, tm, tn, t, p.k) && g < 4 && row < 8 && column < 8
    ensures c[PACKED_C * t + CPlace(g, row, column)] == Sum(Terms(p, tm * 8 + row, 32 * tn + g * 8 + column))
  {
    assert SumAt(p, c, tm, tn, t, p.k, g, row, column);
    WholeSum(c, PACKED_C * t + CPlace(g, row, column), Terms(p, 8 * tm + row, 32 * tn + (8 * g + column)));
  }

  lemma MatrixOfTile(p: Problem, c: seq<real>, tm: nat, tn: nat, t: nat, g: nat)
    requires Valid(p) && TileSums(p, c, tm, tn, t, p.k) && g < 4
    ensures MatrixRight(p, c[PACKED_C * t + 64 * g..PACKED_C * t + 64 * g + 64], tm * 8, 32 * tn + g * 8)
  {
    var top, left, matrix := tm * 8, 32 * tn + g * 8, c[PACKED_C * t + 64 * g..PACKED_C * t + 64 * g + 64];
    forall row: nat, column: nat | row < 8 && column < 8 ensures ElementRight(p, matrix, top, left, row, column) {
      var at := PACKED_C * t + CPlace(g, row, column);
      ElementOfTile(p, c, tm, tn, t, g, row, column);
      assert matrix[8 * row + column] == c[at];
    }
  }

  /** What the kernel reads for tile `t` of a chunk. */
  lemma ChunkOperand(p: Problem, aTiles: nat, qs: seq<seq<Int8>>, scales: seq<seq<real>>, cb: nat, count: nat,
                     block: nat, x0: nat, y0: nat, t: nat)
    requires Valid(p) && t < count && cb + count <= aTiles && AReady(p, aTiles, qs, scales, cb + t, block)
             && cb % 8 == 0
    requires x0 == QuantPlace(aTiles, cb, block) && y0 == ScalePlace(aTiles, cb, block)
    requires x0 + count <= |qs| && y0 + (count + 7) / 8 <= |scales|
    ensures t / 8 < (count + 7) / 8
    ensures QuantPacked(qs[x0..x0 + count][t], T1.TileRows(p, cb + t, block))
    ensures ScalesPacked(scales[y0..y0 + (count + 7) / 8][t / 8], T1.TileRows(p, cb + t, block), t % 8)
  {
    GroupColumn(cb, t);
  }

  lemma GroupColumn(cb: nat, t: nat)
    requires cb % 8 == 0
    ensures (cb + t) / 8 == cb / 8 + t / 8 && (cb + t) % 8 == t % 8
  {}

  lemma ChunkBounds(aTiles: nat, k: nat, cb: nat, count: nat, block: nat)
    requires block < k && 0 < count && cb + count <= aTiles && cb % 8 == 0
    ensures QuantPlace(aTiles, cb, block) + count <= k * aTiles
    ensures ScalePlace(aTiles, cb, block) + (count + 7) / 8 <= k * Groups(aTiles)
  {
    MulStep(aTiles, block, k);
    MulStep(Groups(aTiles), block, k);
  }

  /** Every tile of a chunk holds its sums over `upto` blocks. */
  ghost predicate ChunkSums(p: Problem, c: seq<real>, cb: nat, tn: nat, count: nat, upto: nat)
    requires Valid(p)
  {
    forall t: nat :: t < count ==> ChunkTile(p, c, cb, tn, t, upto)
  }

  ghost predicate ChunkTile(p: Problem, c: seq<real>, cb: nat, tn: nat, t: nat, upto: nat)
    requires Valid(p)
  {
    TileSums(p, c, cb + t, tn, t, upto)
  }

  lemma ChunkAdvanced(p: Problem, aTiles: nat, qs: seq<seq<Int8>>, scales: seq<seq<real>>, before: seq<real>,
                      after: seq<real>, tn: nat, cb: nat, count: nat, block: nat, x0: nat, y0: nat, w: seq<Byte>,
                      wScales: seq<real>)
    requires Valid(p) && Wide(qs, scales) && 0 < count && cb + count <= aTiles && cb % 8 == 0 && block < p.k
             && 32 * tn + 32 <= p.n
    requires forall t: nat, b: nat :: t < aTiles && b < p.k ==> AReady(p, aTiles, qs, scales, t, b)
    requires x0 == QuantPlace(aTiles, cb, block) && y0 == ScalePlace(aTiles, cb, block)
    requires x0 + count <= |qs| && y0 + (count + 7) / 8 <= |scales|
             && WeightsPacked(w, wScales, T2.TileColumns(p, tn, block))
    requires ChunkSums(p, before, cb, tn, count, block)
    requires forall t: nat :: t < count ==>
               t / 8 < (count + 7) / 8 && Streamed(before, after, qs[x0..x0 + count], scales[y0..y0 + (count + 7) / 8],
                                                   w, wScales, t)
    ensures ChunkSums(p, after, cb, tn, count, block + 1)
  {
    var aQs, aScales, upto := qs[x0..x0 + count], scales[y0..y0 + (count + 7) / 8], block + 1;
    forall t: nat | t < count ensures ChunkTile(p, after, cb, tn, t, upto) {
      var u := cb + t;
      assert AReady(p, aTiles, qs, scales, u, block);
      assert Streamed(before, after, aQs, aScales, w, wScales, t) && ChunkTile(p, before, cb, tn, t, block);
      ChunkTileAdvanced(p, aTiles, qs, scales, before, after, tn, cb, count, block, x0, y0, w, wScales, t);
    }
  }

  lemma ChunkTileAdvanced(p: Problem, aTiles: nat, qs: seq<seq<Int8>>, scales: seq<seq<real>>, before: seq<real>,
                          after: seq<real>, tn: nat, cb: nat, count: nat, block: nat, x0: nat, y0: nat, w: seq<Byte>,
                          wScales: seq<real>, t: nat)
    requires Valid(p) && Wide(qs, scales) && t < count && cb + count <= aTiles && cb % 8 == 0 && block < p.k
             && t / 8 < (count + 7) / 8 && 32 * tn + 32 <= p.n
    requires AReady(p, aTiles, qs, scales, cb + t, block)
    requires x0 == QuantPlace(aTiles, cb, block) && y0 == ScalePlace(aTiles, cb, block)
    requires x0 + count <= |qs| && y0 + (count + 7) / 8 <= |scales|
             && WeightsPacked(w, wScales, T2.TileColumns(p, tn, block))
    requires Streamed(before, after, qs[x0..x0 + count], scales[y0..y0 + (count + 7) / 8], w, wScales, t)
    requires ChunkTile(p, before, cb, tn, t, block)
    ensures ChunkTile(p, after, cb, tn, t, block + 1)
  {
    ChunkOperand(p, aTiles, qs, scales, cb, count, block, x0, y0, t);
    TileAdvanced(p, before, after, cb + t, tn, t, block, qs[x0..x0 + count][t],
                 scales[y0..y0 + (count + 7) / 8][t / 8], t % 8, w, wScales);
  }

  lemma ChunkSized(qs: seq<seq<Int8>>, scales: seq<seq<real>>, x0: nat, count: nat, y0: nat)
    requires Wide(qs, scales) && x0 + count <= |qs| && y0 + (count + 7) / 8 <= |scales|
    ensures Streamable(qs[x0..x0 + count], scales[y0..y0 + (count + 7) / 8], count)
  {}

  lemma WeightsAt(p: Problem, qs: seq<seq<Byte>>, scales: seq<seq<real>>, bTiles: nat, tn: nat, block: nat, z: nat)
    requires Valid(p) && tn < bTiles && block < p.k && z == WeightPlace(p.k, tn, block)
    requires forall t: nat, b: nat :: t < bTiles && b < p.k ==> BReady(p, qs, scales, t, b)
    ensures z < |qs| == |scales| && 32 * tn + 32 <= p.n && WeightsPacked(qs[z], scales[z], T2.TileColumns(p, tn, block))
  {
    assert BReady(p, qs, scales, tn, block);
  }

  lemma CallFacts(p: Problem, aTiles: nat, bTiles: nat, qs: seq<seq<Int8>>, scales: seq<seq<real>>, bQs: seq<seq<Byte>>,
                  bScales: seq<seq<real>>, tn: nat, cb: nat, count: nat, block: nat, x0: nat, y0: nat, z: nat)
    requires Accepted(p, aTiles, bTiles) && |qs| == p.k * aTiles && |scales| == p.k * Groups(aTiles) && Wide(qs, scales)
    requires forall t: nat, b: nat :: t < bTiles && b < p.k ==> BReady(p, bQs, bScales, t, b)
    requires tn < bTiles && block < p.k && 0 < count && cb + count <= aTiles && cb % 8 == 0
    requires x0 == QuantPlace(aTiles, cb, block) && y0 == ScalePlace(aTiles, cb, block)
             && z == WeightPlace(p.k, tn, block)
    ensures x0 + count <= |qs| && y0 + (count + 7) / 8 <= |scales| && z < |bQs| == |bScales| && 32 * tn + 32 <= p.n
    ensures Streamable(qs[x0..x0 + count], scales[y0..y0 + (count + 7) / 8], count)
    ensures WeightsPacked(bQs[z], bScales[z], T2.TileColumns(p, tn, block))
  {
    ChunkBounds(aTiles, p.k, cb, count, block);
    WeightsAt(p, bQs, bScales, bTiles, tn, block, z);
    ChunkSized(qs, scales, x0, count, y0);
  }

  // ---------- Packing order ----------

  ghost predicate APackedTo(p: Problem, aTiles: nat, qs: seq<seq<Int8>>, scales: seq<seq<real>>, tile: nat, block: nat)
    requires Valid(p)
  {
    forall t: nat, b: nat :: t < aTiles && b < p.k && (t < tile || (t == tile && b < block)) ==>
        AReady(p, aTiles, qs, scales, t, b)
  }

  lemma APackedNext(p: Problem, aTiles: nat, qs: seq<seq<Int8>>, scales: seq<seq<real>>, x: nat, quant: seq<Int8>,
                    y: nat, group: seq<real>, tile: nat, block: nat)
    requires Valid(p) && tile < aTiles && block < p.k && 8 * tile + 8 <= p.m
             && APackedTo(p, aTiles, qs, scales, tile, block)
    requires x == QuantPlace(aTiles, tile, block) && x < |qs| && y == ScalePlace(aTiles, tile, block) && y < |scales|
    requires QuantPacked(quant, T1.TileRows(p, tile, block))
             && ScalesPacked(group, T1.TileRows(p, tile, block), tile % 8)
    requires KeepsOthers(group, scales[y], tile % 8)
    ensures APackedTo(p, aTiles, qs[x := quant], scales[y := group], tile, block + 1)
  {
    var newQs, newScales := qs[x := quant], scales[y := group];
    forall t: nat, b: nat | t < aTiles && b < p.k && (t < tile || (t == tile && b < block + 1))
      ensures AReady(p, aTiles, newQs, newScales, t, b)
    {
      if (t, b) != (tile, block) {
        assert AReady(p, aTiles, qs, scales, t, b);
        AStays(p, aTiles, qs, scales, x, quant, y, group, tile, block, t, b);
      }
    }
  }

  lemma AStays(p: Problem, aTiles: nat, qs: seq<seq<Int8>>, scales: seq<seq<real>>, x: nat, quant: seq<Int8>, y: nat,
               group: seq<real>, tile: nat, block: nat, t: nat, b: nat)
    requires Valid(p) && tile < aTiles && t < aTiles && (t, b) != (tile, block) && AReady(p, aTiles, qs, scales, t, b)
    requires x == QuantPlace(aTiles, tile, block) && x < |qs| && y == ScalePlace(aTiles, tile, block) && y < |scales|
    requires KeepsOthers(group, scales[y], tile % 8)
    ensures AReady(p, aTiles, qs[x := quant], scales[y := group], t, b)
  {
    PlacesDiffer(aTiles, tile, block, t, b);
    AKept(p, qs, scales, x, quant, y, group, tile % 8, t, b, QuantPlace(aTiles, t, b), ScalePlace(aTiles, t, b));
  }

  ghost predicate BPackedTo(p: Problem, bTiles: nat, qs: seq<seq<Byte>>, scales: seq<seq<real>>, tile: nat, block: nat)
    requires Valid(p)
  {
    forall t: nat, b: nat :: t < bTiles && b < p.k && (t < tile || (t == tile && b < block)) ==>
        BReady(p, qs, scales, t, b)
  }

  lemma BPackedNext(p: Problem, bTiles: nat, qs: seq<seq<Byte>>, scales: seq<seq<real>>, z: nat, w: seq<Byte>,
                    wScales: seq<real>, tile: nat, block: nat)
    requires Valid(p) && tile < bTiles && block < p.k && 32 * tile + 32 <= p.n
             && BPackedTo(p, bTiles, qs, scales, tile, block)
    requires z == WeightPlace(p.k, tile, block) && z < |qs| == |scales|
             && WeightsPacked(w, wScales, T2.TileColumns(p, tile, block))
    ensures BPackedTo(p, bTiles, qs[z := w], scales[z := wScales], tile, block + 1)
  {
    var newQs, newScales := qs[z := w], scales[z := wScales];
    forall t: nat, b: nat | t < bTiles && b < p.k && (t < tile || (t == tile && b < block + 1))
      ensures BReady(p, newQs, newScales, t, b)
    {
      if (t, b) != (tile, block) {
        assert BReady(p, qs, scales, t, b);
        CellOrder(p.k, t, b, tile, block);
        BKept(p, qs, scales, z, w, wScales, t, b, WeightPlace(p.k, t, b));
      }
    }
  }

  class RrState {
    const p: Problem
    const aTiles: nat
    const bTiles: nat
    const packedAQs: array<seq<Int8>>
    const packedAScales: array<seq<real>>
    const packedBQs: array<seq<Byte>>
    const packedBScales: array<seq<real>>
    const output: array<real>

    ghost predicate Shape() {
      && Accepted(p, aTiles, bTiles)
      && packedAQs.Length == p.k * aTiles && packedAScales.Length == p.k * Groups(aTiles)
      && packedBQs.Length == bTiles * p.k && packedBScales.Length == bTiles * p.k && output.Length == p.m * p.n
    }

    ghost predicate Prepared()
      reads packedAQs, packedAScales, packedBQs, packedBScales
    {
      && Shape() && Wide(packedAQs[..], packedAScales[..])
      && (forall t: nat, b: nat :: t < aTiles && b < p.k ==> AReady(p, aTiles, packedAQs[..], packedAScales[..], t, b))
      && (forall t: nat, b: nat :: t < bTiles && b < p.k ==> BReady(p, packedBQs[..], packedBScales[..], t, b))
    }

    /** One K block of a chunk. */
    method KernelCall(tn: nat, cb: nat, count: nat, block: nat, c: array<real>)
      requires Prepared() && tn < bTiles && 0 < count && cb + count <= aTiles && cb % 8 == 0 && block < p.k
               && PACKED_C * count <= c.Length
      requires ChunkSums(p, c[..], cb, tn, count, block)
      modifies c
      ensures ChunkSums(p, c[..], cb, tn, count, block + 1)
    {
      var x0, y0, z := QuantPlace(aTiles, cb, block), ScalePlace(aTiles, cb, block), WeightPlace(p.k, tn, block);
      var aQs, aScales := packedAQs[..], packedAScales[..];
      CallFacts(p, aTiles, bTiles, aQs, aScales, packedBQs[..], packedBScales[..], tn, cb, count, block, x0, y0, z);
      StreamChunk(tn, cb, count, block, c, x0, y0, aQs[x0..x0 + count], aScales[y0..y0 + (count + 7) / 8],
                  packedBQs[z], packedBScales[z]);
    }

    method StreamChunk(ghost tn: nat, ghost cb: nat, count: nat, ghost block: nat, c: array<real>, ghost x0: nat,
                       ghost y0: nat, aQs: seq<seq<Int8>>, aScales: seq<seq<real>>, w: seq<Byte>, wScales: seq<real>)
      requires Prepared() && 0 < count && cb + count <= aTiles && cb % 8 == 0 && block < p.k
               && PACKED_C * count <= c.Length && 32 * tn + 32 <= p.n
      requires x0 == QuantPlace(aTiles, cb, block) && y0 == ScalePlace(aTiles, cb, block)
      requires x0 + count <= packedAQs.Length && y0 + (count + 7) / 8 <= packedAScales.Length
      requires aQs == packedAQs[..][x0..x0 + count] && aScales == packedAScales[..][y0..y0 + (count + 7) / 8]
               && Streamable(aQs, aScales, count)
      requires WeightsPacked(w, wScales, T2.TileColumns(p, tn, block)) && ChunkSums(p, c[..], cb, tn, count, block)
      modifies c
      ensures ChunkSums(p, c[..], cb, tn, count, block + 1)
    {
      ghost var before, qs, scales := c[..], packedAQs[..], packedAScales[..];
      WStationary(aQs, aScales, w, wScales, c, count);
      ChunkAdvanced(p, aTiles, qs, scales, before, c[..], tn, cb, count, block, x0, y0, w, wScales);
    }

    /** `unpack_c_chunk` for one chunk tile: four 8 x 8 matrices, row by row. */
    method UnpackTile(c: array<real>, tm: nat, tn: nat, t: nat)
      requires Shape() && tm < aTiles && tn < bTiles && c != output && TileSums(p, c[..], tm, tn, t, p.k)
      modifies output
      ensures StillRight(p, old(output[..]), output[..])
      ensures forall i: nat, j: nat :: tm * 8 <= i < tm * 8 + 8 && 32 * tn <= j < 32 * tn + 32 ==>
                Right(p, output[..], i, j)
    {
      MulStep(8, tm, aTiles);
      MulOrder(tm * 8 + 8, p.m, p.n);
      for g := 0 to 4
        invariant StillRight(p, old(output[..]), output[..])
        invariant forall i: nat, j: nat :: tm * 8 <= i < tm * 8 + 8 && 32 * tn <= j < 32 * tn + 8 * g ==>
                    Right(p, output[..], i, j)
      {
        UnpackMatrix(c[PACKED_C * t + 64 * g..PACKED_C * t + 64 * g + 64], c, tm, tn, t, g);
      }
    }

    method UnpackMatrix(matrix: seq<real>, ghost c: array<real>, tm: nat, tn: nat, ghost t: nat, g: nat)
      requires Shape() && g < 4 && (tm * 8 + 8) * p.n <= output.Length && c != output
               && TileSums(p, c[..], tm, tn, t, p.k)
      requires matrix == c[PACKED_C * t + 64 * g..PACKED_C * t + 64 * g + 64]
      modifies output
      ensures StillRight(p, old(output[..]), output[..])
      ensures forall i: nat, j: nat :: tm * 8 <= i < tm * 8 + 8 && 32 * tn + g * 8 <= j < 32 * tn + g * 8 + 8 ==>
                Right(p, output[..], i, j)
    {
      ghost var before := output[..];
      MatrixOfTile(p, c[..], tm, tn, t, g);
      assert matrix == c[..][PACKED_C * t + 64 * g..PACKED_C * t + 64 * g + 64];
      StoreTile(output, p.n, tm * 8, 8, 32 * tn + g * 8, 8, matrix);
      WindowStored(p, before, output[..], tm * 8, 32 * tn + g * 8, matrix);
    }

    /** A chunk: zeroed, accumulated over all of K, copied out. */
    method RunChunk(tn: nat, cb: nat, count: nat, c: array<real>)
      requires Prepared() && tn < bTiles && 0 < count <= CHUNK && cb + count <= aTiles && cb % 8 == 0
               && c.Length == CHUNK * PACKED_C
      requires c != output
      modifies c, output
      ensures StillRight(p, old(output[..]), output[..])
      ensures forall i: nat, j: nat :: cb * 8 <= i < (cb + count) * 8 && 32 * tn <= j < 32 * tn + 32 ==>
                Right(p, output[..], i, j)
    {
      Accumulate(tn, cb, count, c);
      for t := 0 to count
        invariant ChunkSums(p, c[..], cb, tn, count, p.k)
        invariant StillRight(p, old(output[..]), output[..])
        invariant forall i: nat, j: nat :: cb * 8 <= i < (cb + t) * 8 && 32 * tn <= j < 32 * tn + 32 ==>
                    Right(p, output[..], i, j)
      {
        assert ChunkTile(p, c[..], cb, tn, t, p.k);
        UnpackTile(c, cb + t, tn, t);
      }
    }

    method Accumulate(tn: nat, cb: nat, count: nat, c: array<real>)
      requires Prepared() && tn < bTiles && 0 < count <= CHUNK && cb + count <= aTiles && cb % 8 == 0
               && c.Length == CHUNK * PACKED_C
      modifies c
      ensures ChunkSums(p, c[..], cb, tn, count, p.k)
    {
      ZeroFill(c, count * PACKED_C);
      ZeroSums(p, c[..], cb, tn, count, aTiles, bTiles);
      for block := 0 to p.k
        invariant ChunkSums(p, c[..], cb, tn, count, block)
      {
        KernelCall(tn, cb, count, block, c);
      }
    }

    /** One N tile of the parallel loop; its C chunk comes from TCM or the stack. */
    method RunTile(tn: nat)
      requires Prepared() && tn < bTiles
      modifies output
      ensures StillRight(p, old(output[..]), output[..])
      ensures forall i: nat, j: nat :: i < p.m && 32 * tn <= j < 32 * tn + 32 ==> Right(p, output[..], i, j)
    {
      var c := new real[CHUNK * PACKED_C];
      ghost var before := output[..];
      var chunkBegin: nat := 0;
      while chunkBegin < aTiles
        invariant chunkBegin % 8 == 0
        invariant StillRight(p, before, output[..]) && BandRight(p, output[..], chunkBegin * 8, 32 * tn)
      {
        NextChunk(tn, chunkBegin, c, before);
        chunkBegin := chunkBegin + CHUNK;
      }
    }

    /** One chunk of the loop, the last one cut at the end of the tiles. */
    method NextChunk(tn: nat, chunkBegin: nat, c: array<real>, ghost before: seq<real>)
      requires Prepared() && tn < bTiles && chunkBegin < aTiles && chunkBegin % 8 == 0
      requires c.Length == CHUNK * PACKED_C && c != output
      requires StillRight(p, before, output[..]) && BandRight(p, output[..], chunkBegin * 8, 32 * tn)
      modifies c, output
      ensures StillRight(p, before, output[..]) && BandRight(p, output[..], (chunkBegin + CHUNK) * 8, 32 * tn)
    {
      ghost var middle := output[..];
      var count := if CHUNK < aTiles - chunkBegin then CHUNK else aTiles - chunkBegin;
      RunChunk(tn, chunkBegin, count, c);
      BandGrows(p, middle, output[..], chunkBegin * 8, (chunkBegin + count) * 8, (chunkBegin + CHUNK) * 8, 32 * tn);
    }

    /** `run`, the N tiles taken in any order. */
    method Run(iterations: nat, order: seq<nat>)
      requires Prepared() && iterations >= 1 && Schedule(order, bTiles)
      modifies output
      ensures forall i: nat, j: nat :: i < p.m && j < p.n ==> Right(p, output[..], i, j)
    {
      for iteration := 0 to iterations
        invariant iteration > 0 ==> forall i: nat, j: nat :: i < p.m && j < p.n ==> Right(p, output[..], i, j)
      {
        RunOnce(order);
      }
    }

    method RunOnce(order: seq<nat>)
      requires Prepared() && Schedule(order, bTiles)
      modifies output
      ensures forall i: nat, j: nat :: i < p.m && j < p.n ==> Right(p, output[..], i, j)
    {
      for x := 0 to |order|
        invariant forall y, i: nat, j: nat :: 0 <= y < x && i < p.m && 32 * order[y] <= j < 32 * order[y] + 32 ==>
                    Right(p, output[..], i, j)
      {
        RunTile(order[x]);
      }
      forall i: nat, j: nat | i < p.m && j < p.n ensures Right(p, output[..], i, j) {
        var tn := j / 32;
        assert tn in order;
        var y :| 0 <= y < |order| && order[y] == tn;
        assert 32 * order[y] <= j < 32 * order[y] + 32;
      }
    }

    // ---------- Preparation ----------

    constructor (problem: Problem, tilesM: nat, tilesN: nat)
      requires Accepted(problem, tilesM, tilesN)
      ensures p == problem && aTiles == tilesM && bTiles == tilesN && Prepared() && fresh(output)
    {
      p, aTiles, bTiles := problem, tilesM, tilesN;
      packedAQs := new seq<Int8>[problem.k * tilesM](_ => seq(256, _ => 0));
      packedAScales := new seq<real>[problem.k * Groups(tilesM)](_ => seq(64, _ => 0.0));
      packedBQs := new seq<Byte>[tilesN * problem.k](_ => []);
      packedBScales := new seq<real>[tilesN * problem.k](_ => []);
      output := new real[problem.m * problem.n];
      new;
      assert packedAScales != packedBScales;
      PackActivations();
      PackAllWeights();
    }

    method PackActivations()
      requires Shape() && Wide(packedAQs[..], packedAScales[..])
      modifies packedAQs, packedAScales
      ensures Wide(packedAQs[..], packedAScales[..])
              && APackedTo(p, aTiles, packedAQs[..], packedAScales[..], aTiles, 0)
    {
      for tile := 0 to aTiles
        invariant Wide(packedAQs[..], packedAScales[..])
                  && APackedTo(p, aTiles, packedAQs[..], packedAScales[..], tile, 0)
      {
        for block := 0 to p.k
          invariant Wide(packedAQs[..], packedAScales[..])
                    && APackedTo(p, aTiles, packedAQs[..], packedAScales[..], tile, block)
        {
          PackActivationBlock(tile, block);
        }
      }
    }

    method PackActivationBlock(tile: nat, block: nat)
      requires Shape() && Wide(packedAQs[..], packedAScales[..]) && tile < aTiles && block < p.k
               && APackedTo(p, aTiles, packedAQs[..], packedAScales[..], tile, block)
      modifies packedAQs, packedAScales
      ensures Wide(packedAQs[..], packedAScales[..])
              && APackedTo(p, aTiles, packedAQs[..], packedAScales[..], tile, block + 1)
    {
      var x, y := QuantPlace(aTiles, tile, block), ScalePlace(aTiles, tile, block);
      PlacesOf(p, aTiles, bTiles, packedAQs.Length, packedAScales.Length, tile, block, x, y);
      PackActivationAt(tile, block, x, y);
    }

    method PackActivationAt(tile: nat, block: nat, x: nat, y: nat)
      requires Valid(p) && Wide(packedAQs[..], packedAScales[..]) && tile < aTiles && block < p.k && 8 * tile + 8 <= p.m
      requires x == QuantPlace(aTiles, tile, block) && x < packedAQs.Length && y == ScalePlace(aTiles, tile, block)
               && y < packedAScales.Length
      requires APackedTo(p, aTiles, packedAQs[..], packedAScales[..], tile, block)
      modifies packedAQs, packedAScales
      ensures Wide(packedAQs[..], packedAScales[..])
              && APackedTo(p, aTiles, packedAQs[..], packedAScales[..], tile, block + 1)
    {
      ghost var qs, scales := packedAQs[..], packedAScales[..];
      var group := packedAScales[y];
      assert group == scales[y];
      var quant, packed := PackBlock(T1.TileRows(p, tile, block), group, tile % 8);
      APackedNext(p, aTiles, qs, scales, x, quant, y, packed, tile, block);
      StoreActivationBlock(x, quant, y, packed);
    }

    method PackBlock(rows: seq<Q8>, column: seq<real>, s: nat) returns (quant: seq<Int8>, group: seq<real>)
      requires |rows| == 8 && |column| == 64 && s < 8
      ensures QuantPacked(quant, rows) && ScalesPacked(group, rows, s)
      ensures KeepsOthers(group, column, s)
    {
      quant := PackQuant(rows);
      group := PackScales(column, rows, s);
    }

    method StoreActivationBlock(x: nat, quant: seq<Int8>, y: nat, group: seq<real>)
      requires x < packedAQs.Length && y < packedAScales.Length && |quant| == 256 && |group| == 64
               && Wide(packedAQs[..], packedAScales[..])
      modifies packedAQs, packedAScales
      ensures packedAQs[..] == old(packedAQs[..])[x := quant] && packedAScales[..] == old(packedAScales[..])[y := group]
      ensures Wide(packedAQs[..], packedAScales[..])
    {
      packedAQs[x] := quant;
      packedAScales[y] := group;
    }

    method PackAllWeights()
      requires Shape() && packedAScales != packedBScales
      modifies packedBQs, packedBScales
      ensures BPackedTo(p, bTiles, packedBQs[..], packedBScales[..], bTiles, 0)
    {
      for tile := 0 to bTiles
        invariant BPackedTo(p, bTiles, packedBQs[..], packedBScales[..], tile, 0)
      {
        for block := 0 to p.k
          invariant BPackedTo(p, bTiles, packedBQs[..], packedBScales[..], tile, block)
        {
          PackWeightBlock(tile, block);
        }
      }
    }

    method PackWeightBlock(tile: nat, block: nat)
      requires Shape() && tile < bTiles && block < p.k
               && BPackedTo(p, bTiles, packedBQs[..], packedBScales[..], tile, block)
      modifies packedBQs, packedBScales
      ensures BPackedTo(p, bTiles, packedBQs[..], packedBScales[..], tile, block + 1)
    {
      MulStep(32, tile, bTiles);
      CellBound(bTiles, p.k, tile, block);
      ghost var qs, scales := packedBQs[..], packedBScales[..];
      var w, wScales := PackWeights(T2.TileColumns(p, tile, block));
      var z := WeightPlace(p.k, tile, block);
      packedBQs[z] := w;
      packedBScales[z] := wScales;
      BPackedNext(p, bTiles, qs, scales, z, w, wScales, tile, block);
    }
  }

  method ZeroFill(c: array<real>, count: nat)
    requires count <= c.Length
    modifies c
    ensures forall x :: 0 <= x < count ==> c[x] == 0.0
  {
    for i := 0 to count
      invariant forall x :: 0 <= x < i ==> c[x] == 0.0
    {
      c[i] := 0.0;
    }
  }

  lemma ZeroSums(p: Problem, c: seq<real>, cb: nat, tn: nat, count: nat, aTiles: nat, bTiles: nat)
    requires Accepted(p, aTiles, bTiles) && cb + count <= aTiles && tn < bTiles && PACKED_C * count <= |c|
    requires forall x :: 0 <= x < count * PACKED_C ==> c[x] == 0.0
    ensures ChunkSums(p, c, cb, tn, count, 0)
  {
    forall t: nat | t < count ensures ChunkTile(p, c, cb, tn, t, 0) {
      var tm := cb + t;
      forall g: nat, row: nat, column: nat | g < 4 && row < 8 && column < 8
        ensures SumAt(p, c, tm, tn, t, 0, g, row, column)
      {
      }
    }
  }

  /** The RR pipeline end to end, over the reals: each output element is the
      reference dot product of its row and column. */
  method Multiply(p: Problem, aTiles: nat, bTiles: nat, iterations: nat, order: seq<nat>) returns (output: seq<real>)
    requires Accepted(p, aTiles, bTiles) && iterations >= 1 && Schedule(order, bTiles)
    ensures |output| == p.m * p.n
    ensures forall i: nat, j: nat :: i < p.m && j < p.n ==> IsReference(p, output, i, j)
  {
    var state := new RrState(p, aTiles, bTiles);
    state.Run(iterations, order);
    output := state.output[..];
    forall i: nat, j: nat | i < p.m && j < p.n ensures IsReference(p, output, i, j) {
      assert Right(p, output, i, j);
      CellBound(p.m, p.n, i, j);
      MulStep(p.k, i, p.m);
      MulStep(p.k, j, p.n);
    }
  }

  ghost predicate IsReference(p: Problem, output: seq<real>, i: nat, j: nat)
    requires Valid(p)
  {
    && i * p.n + j < |output| && i * p.k + p.k <= |p.act| && j * p.k + p.k <= |p.wt|
    && output[i * p.n + j] == Reference(Row(p.wt, p.k, j), Row(p.act, p.k, i))
  }
}
