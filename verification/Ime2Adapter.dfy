/** The IME2 m8b adapter: packing of both operands into matrix-unit order, the
    tile loop, and the proof that the output is the matrix product. */
module Ime2Adapter {
  import opened BitArithmetic
  import opened Floats
  import opened Quantized
  import opened Reduction
  import opened Gemm
  import opened Ime2Kernel

  // ---------- Packing one block ----------

  /** Sixteen-byte segment of a packed activation block for row `m`, window `w`. */
  function ASegment(m: nat, w: nat): nat { (m / 8 * 2 + w) * 8 + m % 8 }

  ghost predicate Segment<T>(mem: seq<T>, base: nat, s: nat, values: seq<T>) {
    base + 16 * s + 16 <= |mem| && mem[base + 16 * s..base + 16 * s + 16] == values
  }

  lemma SegmentKept<T>(before: seq<T>, after: seq<T>, base: nat, s: nat, values: seq<T>, t: nat, written: seq<T>)
    requires Segment(before, base, s, values) && |written| == 16 && s != t
    requires Overwritten(before, after, base + 16 * t, written)
    ensures Segment(after, base, s, values)
  {
    forall k | base + 16 * s <= k < base + 16 * s + 16 ensures after[k] == before[k] {
      OverwrittenElsewhere(before, after, base + 16 * t, written, k);
    }
  }

  lemma ASegmentInjective(m: nat, w: nat, n: nat, v: nat)
    requires m < 16 && n < 16 && w < 2 && v < 2 && (m, w) != (n, v)
    ensures ASegment(m, w) != ASegment(n, v) && ASegment(m, w) < 32
  {
    var q, r := Digits(m, 8);
    var s, t := Digits(n, 8);
    ASegmentIs(q, r, w);
    ASegmentIs(s, t, v);
  }

  lemma ASegmentIs(q: nat, r: nat, w: nat)
    requires r < 8
    ensures ASegment(8 * q + r, w) == (2 * q + w) * 8 + r
  {
    assert (8 * q + r) / 8 == q && (8 * q + r) % 8 == r;
  }

  /** Block `tb` of the packed activations holds these sixteen rows' block. */
  ghost predicate APacked(qs: seq<Int8>, scales: seq<real>, tb: nat, rows: seq<Q8>)
    requires |rows| == 16
  {
    && (forall m: nat, w: nat :: m < 16 && w < 2 ==>
        Segment(qs, 512 * tb, ASegment(m, w), rows[m].qs[16 * w..16 * w + 16]))
    && 16 * tb + 16 <= |scales|
    && (forall m: nat :: m < 16 ==> scales[16 * tb..16 * tb + 16][m] == rows[m].d)
  }

  ghost predicate BPacked(qs: seq<Byte>, scales: seq<real>, tb: nat, columns: seq<Q4>)
    requires |columns| == 32
  {
    && (forall n: nat :: n < 32 ==> Segment(qs, 512 * tb, n, columns[n].qs))
    && 32 * tb + 32 <= |scales|
    && (forall n: nat :: n < 32 ==> scales[32 * tb..32 * tb + 32][n] == columns[n].d)
  }

  /** What packing one block leaves of the memory before it. */
  ghost predicate SamePrefix<T>(before: seq<T>, after: seq<T>, n: nat) {
    |before| == |after| && n <= |before| && after[..n] == before[..n]
  }

  method PackABlock(qs: array<Int8>, scales: array<real>, tb: nat, rows: seq<Q8>)
    requires |rows| == 16 && 512 * tb + 512 <= qs.Length && 16 * tb + 16 <= scales.Length
    modifies qs, scales
    ensures APacked(qs[..], scales[..], tb, rows)
    ensures SamePrefix(old(qs[..]), qs[..], 512 * tb) && SamePrefix(old(scales[..]), scales[..], 16 * tb)
  {
    ghost var qs0, scales0 := qs[..], scales[..];
    for row := 0 to 16
      invariant ASegmentsTo(qs[..], tb, rows, row, 0)
      invariant forall m: nat :: m < row ==> scales[16 * tb..16 * tb + 16][m] == rows[m].d
      invariant SamePrefix(qs0, qs[..], 512 * tb) && SamePrefix(scales0, scales[..], 16 * tb)
    {
      PackRow(qs, tb, rows, row);
      scales[16 * tb + row] := rows[row].d;
    }
  }

  /** Both K windows of one row. */
  method PackRow(qs: array<Int8>, tb: nat, rows: seq<Q8>, row: nat)
    requires |rows| == 16 && 512 * tb + 512 <= qs.Length && row < 16
    requires ASegmentsTo(qs[..], tb, rows, row, 0)
    modifies qs
    ensures ASegmentsTo(qs[..], tb, rows, row + 1, 0)
    ensures SamePrefix(old(qs[..]), qs[..], 512 * tb)
  {
    for window := 0 to 2
      invariant ASegmentsTo(qs[..], tb, rows, row, window)
      invariant SamePrefix(old(qs[..]), qs[..], 512 * tb)
    {
      PackWindow(qs, tb, rows, row, window);
    }
  }

  /** Segments written before window `window` of row `row`. */
  ghost predicate ASegmentsTo(mem: seq<Int8>, tb: nat, rows: seq<Q8>, row: nat, window: nat)
    requires |rows| == 16
  {
    forall m: nat, w: nat :: m < 16 && w < 2 && (m < row || (m == row && w < window)) ==>
        Segment(mem, 512 * tb, ASegment(m, w), rows[m].qs[16 * w..16 * w + 16])
  }

  method PackWindow(qs: array<Int8>, tb: nat, rows: seq<Q8>, row: nat, window: nat)
    requires |rows| == 16 && 512 * tb + 512 <= qs.Length && row < 16 && window < 2
             && ASegmentsTo(qs[..], tb, rows, row, window)
    modifies qs
    ensures ASegmentsTo(qs[..], tb, rows, row, window + 1) && SamePrefix(old(qs[..]), qs[..], 512 * tb)
  {
    ghost var before := qs[..];
    var group, groupRow := row / 8, row % 8;
    var values := rows[row].qs[16 * window..16 * window + 16];
    ASegmentBound(row, window);
    CopyRow(qs, 512 * tb + (group * 2 + window) * 128 + groupRow * 16, values);
    ASegmentsNext(before, qs[..], tb, rows, row, window, values);
    OverwrittenKeeps(before, qs[..], 512 * tb + 16 * ASegment(row, window), values, 0, 512 * tb);
  }

  lemma ASegmentBound(m: nat, w: nat)
    requires m < 16 && w < 2
    ensures ASegment(m, w) < 32 && (m / 8 * 2 + w) * 128 + m % 8 * 16 == 16 * ASegment(m, w)
  {
    ASegmentInjective(m, w, if m == 0 then 1 else 0, w);
  }

  lemma ASegmentsNext(before: seq<Int8>, after: seq<Int8>, tb: nat, rows: seq<Q8>, row: nat, window: nat,
                      values: seq<Int8>)
    requires |rows| == 16 && row < 16 && window < 2 && ASegmentsTo(before, tb, rows, row, window)
             && values == rows[row].qs[16 * window..16 * window + 16]
    requires Overwritten(before, after, 512 * tb + 16 * ASegment(row, window), values)
    ensures ASegmentsTo(after, tb, rows, row, window + 1)
  {
    forall m: nat, w: nat | m < 16 && w < 2 && (m < row || (m == row && w < window + 1))
      ensures Segment(after, 512 * tb, ASegment(m, w), rows[m].qs[16 * w..16 * w + 16])
    {
      if (m, w) == (row, window) {
        OverwrittenHas(before, after, 512 * tb + 16 * ASegment(row, window), values);
      } else {
        ASegmentInjective(m, w, row, window);
        SegmentKept(before, after, 512 * tb, ASegment(m, w), rows[m].qs[16 * w..16 * w + 16], ASegment(row, window),
                    values);
      }
    }
  }

  method PackBBlock(qs: array<Byte>, scales: array<real>, tb: nat, columns: seq<Q4>)
    requires |columns| == 32 && 512 * tb + 512 <= qs.Length && 32 * tb + 32 <= scales.Length
    modifies qs, scales
    ensures BPacked(qs[..], scales[..], tb, columns)
    ensures SamePrefix(old(qs[..]), qs[..], 512 * tb) && SamePrefix(old(scales[..]), scales[..], 32 * tb)
  {
    ghost var qs0, scales0 := qs[..], scales[..];
    for column := 0 to 32
      invariant forall n: nat :: n < column ==> Segment(qs[..], 512 * tb, n, columns[n].qs)
      invariant forall n: nat :: n < column ==> scales[32 * tb..32 * tb + 32][n] == columns[n].d
      invariant SamePrefix(qs0, qs[..], 512 * tb) && SamePrefix(scales0, scales[..], 32 * tb)
    {
      PackColumn(qs, tb, columns, column);
      scales[32 * tb + column] := columns[column].d;
    }
  }

  method PackColumn(qs: array<Byte>, tb: nat, columns: seq<Q4>, column: nat)
    requires |columns| == 32 && 512 * tb + 512 <= qs.Length && column < 32
    requires forall n: nat :: n < column ==> Segment(qs[..], 512 * tb, n, columns[n].qs)
    modifies qs
    ensures forall n: nat :: n < column + 1 ==> Segment(qs[..], 512 * tb, n, columns[n].qs)
    ensures SamePrefix(old(qs[..]), qs[..], 512 * tb)
  {
    ghost var before := qs[..];
    ColumnPlace(column);
    CopyRow(qs, 512 * tb + column / 8 * 128 + column % 8 * 16, columns[column].qs);
    SegmentsGrow(before, qs[..], 512 * tb, columns, column);
  }

  lemma ColumnPlace(column: nat)
    ensures column / 8 * 128 + column % 8 * 16 == 16 * column
  {
    var q, r := Digits(column, 8);
  }

  lemma SegmentsGrow(before: seq<Byte>, after: seq<Byte>, base: nat, columns: seq<Q4>, column: nat)
    requires column < |columns| && Overwritten(before, after, base + 16 * column, columns[column].qs)
    requires forall n: nat :: n < column ==> Segment(before, base, n, columns[n].qs)
    ensures forall n: nat :: n < column + 1 ==> Segment(after, base, n, columns[n].qs)
    ensures SamePrefix(before, after, base)
  {
    OverwrittenHas(before, after, base + 16 * column, columns[column].qs);
    forall n: nat | n < column ensures Segment(after, base, n, columns[n].qs) {
      SegmentKept(before, after, base, n, columns[n].qs, column, columns[column].qs);
    }
    OverwrittenKeeps(before, after, base + 16 * column, columns[column].qs, 0, base);
  }

  // ---------- A packed block yields the reference components ----------

  lemma SegmentSlice<T>(mem: seq<T>, base: nat, length: nat, s: nat, values: seq<T>)
    requires Segment(mem, base, s, values) && base + length <= |mem| && 16 * s + 16 <= length
    ensures mem[base..base + length][16 * s..16 * s + 16] == values
  {
    SliceOfSlice(mem, base, base + length, 16 * s, 16 * s + 16);
  }

  lemma ARowPacked(qs: seq<Int8>, scales: seq<real>, tb: nat, rows: seq<Q8>, m: nat, w: nat)
    requires |rows| == 16 && APacked(qs, scales, tb, rows) && m < 16 && w < 2 && 512 * tb + 512 <= |qs|
    ensures ARow(qs[512 * tb..512 * tb + 512], m, w) == rows[m].qs[16 * w..16 * w + 16]
  {
    ASegmentInjective(m, w, if m == 0 then 1 else 0, w);
    assert Segment(qs, 512 * tb, ASegment(m, w), rows[m].qs[16 * w..16 * w + 16]);
    SegmentSlice(qs, 512 * tb, 512, ASegment(m, w), rows[m].qs[16 * w..16 * w + 16]);
  }

  lemma BColumnPacked(qs: seq<Byte>, scales: seq<real>, tb: nat, columns: seq<Q4>, n: nat)
    requires |columns| == 32 && BPacked(qs, scales, tb, columns) && n < 32 && 512 * tb + 512 <= |qs|
    ensures BColumn(qs[512 * tb..512 * tb + 512], n) == columns[n].qs
  {
    assert Segment(qs, 512 * tb, n, columns[n].qs);
    SegmentSlice(qs, 512 * tb, 512, n, columns[n].qs);
    assert n / 8 * 128 + n % 8 * 16 == 16 * n;
  }

  /** The matrix-unit dots of packed blocks give the reference integer sum. */
  lemma ComponentIsBlockDot(a: seq<Int8>, w: seq<Byte>, m: nat, n: nat, row: Q8, column: Q4)
    requires |a| == 512 && |w| == 512 && m < 16 && n < 32
    requires ARow(a, m, 0) == row.qs[0..16] && ARow(a, m, 1) == row.qs[16..32] && BColumn(w, n) == column.qs
    ensures Component(a, w, m, n) == BlockDot(column, row)
  {
    BlockDotHalves(column, row);
    assert row.qs[0..16] == row.qs[..16] && row.qs[16..32] == row.qs[16..];
  }

  // ---------- The packed operands of a problem ----------

  /** The shapes `validate_shape<16, 32, 32>` admits, in tiles. */
  ghost predicate Accepted(p: Problem, tilesM: nat, tilesN: nat) {
    Valid(p) && p.m == tilesM * 16 && p.n == tilesN * 32
  }

  function TileRows(p: Problem, tm: nat, b: nat): (r: seq<Q8>)
    requires |p.act| == p.m * p.k && 16 * tm + 16 <= p.m && b < p.k
    ensures |r| == 16
  {
    seq(16, r requires 0 <= r < 16 => CellBound(p.m, p.k, 16 * tm + r, b); p.act[(16 * tm + r) * p.k + b])
  }

  function TileColumns(p: Problem, tn: nat, b: nat): (r: seq<Q4>)
    requires |p.wt| == p.n * p.k && 32 * tn + 32 <= p.n && b < p.k
    ensures |r| == 32
  {
    seq(32, c requires 0 <= c < 32 => CellBound(p.n, p.k, 32 * tn + c, b); p.wt[(32 * tn + c) * p.k + b])
  }

  /** Place of K block `b` of tile `t`. */
  function BlockPlace(k: nat, t: nat, b: nat): nat { t * k + b }

  lemma PlaceBefore(k: nat, t: nat, b: nat, tile: nat, block: nat)
    requires b < k && block < k && Before(t, b, tile, block)
    ensures BlockPlace(k, t, b) < BlockPlace(k, tile, block)
  {
    CellOrder(k, t, b, tile, block);
  }

  ghost predicate AReady(p: Problem, qs: seq<Int8>, scales: seq<real>, tm: nat, b: nat)
    requires Valid(p)
  {
    16 * tm + 16 <= p.m && b < p.k && APacked(qs, scales, BlockPlace(p.k, tm, b), TileRows(p, tm, b))
  }

  ghost predicate BReady(p: Problem, qs: seq<Byte>, scales: seq<real>, tn: nat, b: nat)
    requires Valid(p)
  {
    32 * tn + 32 <= p.n && b < p.k && BPacked(qs, scales, BlockPlace(p.k, tn, b), TileColumns(p, tn, b))
  }

  /** Packing a later block keeps the earlier ones. */
  lemma AKept(p: Problem, qs: seq<Int8>, scales: seq<real>, qs': seq<Int8>, scales': seq<real>, tm: nat, b: nat,
              tb: nat)
    requires Valid(p) && AReady(p, qs, scales, tm, b) && BlockPlace(p.k, tm, b) < tb
    requires SamePrefix(qs, qs', 512 * tb) && SamePrefix(scales, scales', 16 * tb)
    ensures AReady(p, qs', scales', tm, b)
  {
    APackedStays(qs, scales, qs', scales', BlockPlace(p.k, tm, b), TileRows(p, tm, b), tb);
  }

  lemma APackedStays(qs: seq<Int8>, scales: seq<real>, qs': seq<Int8>, scales': seq<real>, at: nat, rows: seq<Q8>,
                     tb: nat)
    requires |rows| == 16 && APacked(qs, scales, at, rows) && at < tb
    requires SamePrefix(qs, qs', 512 * tb) && SamePrefix(scales, scales', 16 * tb)
    ensures APacked(qs', scales', at, rows)
  {
    forall m: nat, w: nat | m < 16 && w < 2
      ensures Segment(qs', 512 * at, ASegment(m, w), rows[m].qs[16 * w..16 * w + 16])
    {
      assert Segment(qs, 512 * at, ASegment(m, w), rows[m].qs[16 * w..16 * w + 16]);
      ASegmentInjective(m, w, if m == 0 then 1 else 0, w);
      PrefixSlice(qs, qs', 512 * tb, 512 * at + 16 * ASegment(m, w), 512 * at + 16 * ASegment(m, w) + 16);
    }
    PrefixSlice(scales, scales', 16 * tb, 16 * at, 16 * at + 16);
  }

  lemma PrefixSlice<T>(before: seq<T>, after: seq<T>, n: nat, a: nat, b: nat)
    requires SamePrefix(before, after, n) && a <= b <= n
    ensures after[a..b] == before[a..b]
  {
    forall i | a <= i < b ensures after[i] == before[i] { assert after[..n][i] == before[..n][i]; }
  }

  lemma BKept(p: Problem, qs: seq<Byte>, scales: seq<real>, qs': seq<Byte>, scales': seq<real>, tn: nat, b: nat,
              tb: nat)
    requires Valid(p) && BReady(p, qs, scales, tn, b) && BlockPlace(p.k, tn, b) < tb
    requires SamePrefix(qs, qs', 512 * tb) && SamePrefix(scales, scales', 32 * tb)
    ensures BReady(p, qs', scales', tn, b)
  {
    BPackedStays(qs, scales, qs', scales', BlockPlace(p.k, tn, b), TileColumns(p, tn, b), tb);
  }

  lemma BPackedStays(qs: seq<Byte>, scales: seq<real>, qs': seq<Byte>, scales': seq<real>, at: nat, columns: seq<Q4>,
                     tb: nat)
    requires |columns| == 32 && BPacked(qs, scales, at, columns) && at < tb
    requires SamePrefix(qs, qs', 512 * tb) && SamePrefix(scales, scales', 32 * tb)
    ensures BPacked(qs', scales', at, columns)
  {
    forall n: nat | n < 32 ensures Segment(qs', 512 * at, n, columns[n].qs) {
      assert Segment(qs, 512 * at, n, columns[n].qs);
      PrefixSlice(qs, qs', 512 * tb, 512 * at + 16 * n, 512 * at + 16 * n + 16);
    }
    PrefixSlice(scales, scales', 32 * tb, 32 * at, 32 * at + 32);
  }

  /** Blocks before `(tile, block)` in packing order. */
  ghost predicate Before(t: nat, b: nat, tile: nat, block: nat) {
    t < tile || (t == tile && b < block)
  }

  /** The activation blocks before `(tile, block)` are packed. */
  ghost predicate AUpTo(p: Problem, qs: seq<Int8>, scales: seq<real>, tile: nat, block: nat)
    requires Valid(p)
  {
    forall t: nat, b: nat :: b < p.k && Before(t, b, tile, block) ==> AReady(p, qs, scales, t, b)
  }

  ghost predicate BUpTo(p: Problem, qs: seq<Byte>, scales: seq<real>, tile: nat, block: nat)
    requires Valid(p)
  {
    forall t: nat, b: nat :: b < p.k && Before(t, b, tile, block) ==> BReady(p, qs, scales, t, b)
  }

  lemma ANext(p: Problem, qs: seq<Int8>, scales: seq<real>, qs': seq<Int8>, scales': seq<real>, tile: nat, block: nat)
    requires Valid(p) && block < p.k && AUpTo(p, qs, scales, tile, block)
    requires SamePrefix(qs, qs', 512 * BlockPlace(p.k, tile, block))
             && SamePrefix(scales, scales', 16 * BlockPlace(p.k, tile, block))
    requires AReady(p, qs', scales', tile, block)
    ensures AUpTo(p, qs', scales', tile, block + 1)
  {
    forall t: nat, b: nat | b < p.k && Before(t, b, tile, block + 1) ensures AReady(p, qs', scales', t, b) {
      if (t, b) != (tile, block) {
        assert Before(t, b, tile, block);
        PlaceBefore(p.k, t, b, tile, block);
        AKept(p, qs, scales, qs', scales', t, b, BlockPlace(p.k, tile, block));
      }
    }
  }

  lemma BNext(p: Problem, qs: seq<Byte>, scales: seq<real>, qs': seq<Byte>, scales': seq<real>, tile: nat, block: nat)
    requires Valid(p) && block < p.k && BUpTo(p, qs, scales, tile, block)
    requires SamePrefix(qs, qs', 512 * BlockPlace(p.k, tile, block))
             && SamePrefix(scales, scales', 32 * BlockPlace(p.k, tile, block))
    requires BReady(p, qs', scales', tile, block)
    ensures BUpTo(p, qs', scales', tile, block + 1)
  {
    forall t: nat, b: nat | b < p.k && Before(t, b, tile, block + 1) ensures BReady(p, qs', scales', t, b) {
      if (t, b) != (tile, block) {
        assert Before(t, b, tile, block);
        PlaceBefore(p.k, t, b, tile, block);
        BKept(p, qs, scales, qs', scales', t, b, BlockPlace(p.k, tile, block));
      }
    }
  }

  /** The adapter's state: the shape, the packed operands and the output. */
  class M8State {
    const p: Problem
    const tilesM: nat
    const tilesN: nat
    const packedAQs: array<Int8>
    const packedAScales: array<real>
    const packedBQs: array<Byte>
    const packedBScales: array<real>
    const output: array<Flt>

    ghost predicate Prepared()
      reads packedAQs, packedAScales, packedBQs, packedBScales
    {
      && Accepted(p, tilesM, tilesN)
      && packedAQs.Length == 512 * (tilesM * p.k) && packedAScales.Length == 16 * (tilesM * p.k)
      && packedBQs.Length == 512 * (tilesN * p.k) && packedBScales.Length == 32 * (tilesN * p.k)
      && output.Length == p.m * p.n
      && AUpTo(p, packedAQs[..], packedAScales[..], tilesM, 0)
      && BUpTo(p, packedBQs[..], packedBScales[..], tilesN, 0)
    }

    constructor (problem: Problem, tm: nat, tn: nat)
      requires Accepted(problem, tm, tn)
      ensures p == problem && tilesM == tm && tilesN == tn && Prepared()
      ensures fresh(packedAQs) && fresh(packedAScales) && fresh(packedBQs) && fresh(packedBScales) && fresh(output)
    {
      p, tilesM, tilesN := problem, tm, tn;
      var aQs := new Int8[512 * (tm * problem.k)];
      var aScales := new real[16 * (tm * problem.k)];
      var bQs := new Byte[512 * (tn * problem.k)];
      var bScales := new real[32 * (tn * problem.k)];
      packedAQs, packedAScales, packedBQs, packedBScales := aQs, aScales, bQs, bScales;
      output := new Flt[problem.m * problem.n];
      new;
      PackActivations();
      PackWeights();
    }

    method PackActivations()
      requires Accepted(p, tilesM, tilesN)
      requires packedAQs.Length == 512 * (tilesM * p.k) && packedAScales.Length == 16 * (tilesM * p.k)
      modifies packedAQs, packedAScales
      ensures AUpTo(p, packedAQs[..], packedAScales[..], tilesM, 0)
    {
      for tile := 0 to tilesM
        invariant AUpTo(p, packedAQs[..], packedAScales[..], tile, 0)
      {
        for block := 0 to p.k
          invariant AUpTo(p, packedAQs[..], packedAScales[..], tile, block)
        {
          PackActivationBlock(tile, block);
        }
      }
    }

    method PackActivationBlock(tile: nat, block: nat)
      requires Accepted(p, tilesM, tilesN) && tile < tilesM && block < p.k
      requires packedAQs.Length == 512 * (tilesM * p.k) && packedAScales.Length == 16 * (tilesM * p.k)
      requires AUpTo(p, packedAQs[..], packedAScales[..], tile, block)
      modifies packedAQs, packedAScales
      ensures AUpTo(p, packedAQs[..], packedAScales[..], tile, block + 1)
    {
      ghost var qs, scales := packedAQs[..], packedAScales[..];
      CellBound(tilesM, p.k, tile, block);
      var tileBlock := BlockPlace(p.k, tile, block);
      PackABlock(packedAQs, packedAScales, tileBlock, TileRows(p, tile, block));
      ANext(p, qs, scales, packedAQs[..], packedAScales[..], tile, block);
    }

    method PackWeights()
      requires Accepted(p, tilesM, tilesN)
      requires packedBQs.Length == 512 * (tilesN * p.k) && packedBScales.Length == 32 * (tilesN * p.k)
      modifies packedBQs, packedBScales
      ensures BUpTo(p, packedBQs[..], packedBScales[..], tilesN, 0)
    {
      for tile := 0 to tilesN
        invariant BUpTo(p, packedBQs[..], packedBScales[..], tile, 0)
      {
        for block := 0 to p.k
          invariant BUpTo(p, packedBQs[..], packedBScales[..], tile, block)
        {
          PackWeightBlock(tile, block);
        }
      }
    }

    method PackWeightBlock(tile: nat, block: nat)
      requires Accepted(p, tilesM, tilesN) && tile < tilesN && block < p.k
      requires packedBQs.Length == 512 * (tilesN * p.k) && packedBScales.Length == 32 * (tilesN * p.k)
      requires BUpTo(p, packedBQs[..], packedBScales[..], tile, block)
      modifies packedBQs, packedBScales
      ensures BUpTo(p, packedBQs[..], packedBScales[..], tile, block + 1)
    {
      ghost var qs, scales := packedBQs[..], packedBScales[..];
      CellBound(tilesN, p.k, tile, block);
      var tileBlock := BlockPlace(p.k, tile, block);
      PackBBlock(packedBQs, packedBScales, tileBlock, TileColumns(p, tile, block));
      BNext(p, qs, scales, packedBQs[..], packedBScales[..], tile, block);
    }

    /** One output tile: a zeroed local tile, the kernel, and the row copies. */
    method ComputeTile(tm: nat, tn: nat, components: array<int>)
      requires Prepared() && tm < tilesM && tn < tilesN && components.Length == BATCH * TILE
      modifies output, components
      ensures forall um: nat, un: nat :: old(TileDone(p, output[..], 16, 32, um, un)) ==>
                TileDone(p, output[..], 16, 32, um, un)
      ensures TileDone(p, output[..], 16, 32, tm, tn)
    {
      var acc := KernelTile(tm, tn, components);
      ghost var before := output[..];
      MulStep(16, tm, tilesM);
      MulStep(32, tn, tilesN);
      assert (tm * 16 + 16) * p.n <= output.Length by { MulOrder(tm * 16 + 16, p.m, p.n); }
      StoreTile(output, p.n, tm * 16, 16, tn * 32, 32, acc);
      TileStored(p, before, output[..], 16, 32, tm, tn, acc);
    }

    /** The tile loops. The row tiles form a parallel loop, taken here in any order;
        every pass recomputes the whole output whatever it held before. */
    method Run(iterations: nat, order: seq<nat>)
      requires Prepared() && iterations >= 1 && Schedule(order, tilesM)
      modifies output
      ensures IsProduct(p, output[..])
    {
      var iteration := 0;
      while iteration < iterations
        invariant 0 <= iteration <= iterations
        invariant iteration > 0 ==> IsProduct(p, output[..])
      {
        RunOnce(order);
        iteration := iteration + 1;
      }
    }

    method RunOnce(order: seq<nat>)
      requires Prepared() && Schedule(order, tilesM)
      modifies output
      ensures IsProduct(p, output[..])
    {
      for k := 0 to |order|
        invariant forall l, tn :: 0 <= l < k && 0 <= tn < tilesN ==> TileDone(p, output[..], 16, 32, order[l], tn)
      {
        ComputeRowTile(order[k]);
      }
      forall tm, tn | 0 <= tm < tilesM && 0 <= tn < tilesN ensures TileDone(p, output[..], 16, 32, tm, tn) {
        assert tm in order;
      }
      AllTilesDone(p, output[..], 16, 32, tilesM, tilesN);
    }

    /** One row of tiles; the component buffer comes from TCM or the stack. */
    method ComputeRowTile(tm: nat)
      requires Prepared() && tm < tilesM
      modifies output
      ensures forall um: nat, un: nat :: old(TileDone(p, output[..], 16, 32, um, un)) ==>
                TileDone(p, output[..], 16, 32, um, un)
      ensures forall tn :: 0 <= tn < tilesN ==> TileDone(p, output[..], 16, 32, tm, tn)
    {
      hide TileDone;
      var components := new int[BATCH * TILE];
      for tn := 0 to tilesN
        invariant forall um: nat, un: nat :: old(TileDone(p, output[..], 16, 32, um, un)) ==>
                    TileDone(p, output[..], 16, 32, um, un)
        invariant forall un :: 0 <= un < tn ==> TileDone(p, output[..], 16, 32, tm, un)
      {
        ComputeTile(tm, tn, components);
      }
    }

    method KernelTile(tm: nat, tn: nat, components: array<int>) returns (tile: seq<Flt>)
      requires Prepared() && tm < tilesM && tn < tilesN && components.Length == BATCH * TILE
      modifies components
      ensures IsTile(p, tile, 16, 32, tm, tn)
    {
      MulStep(p.k, tm, tilesM);
      MulStep(p.k, tn, tilesN);
      var aBlock, bBlock := tm * p.k, tn * p.k;
      var o := TileOperands(packedAQs[..], packedAScales[..], packedBQs[..], packedBScales[..], aBlock, bBlock, p.k);
      MulStep(16, tm, tilesM);
      MulStep(32, tn, tilesN);
      TileDescribed(p, packedAQs[..], packedAScales[..], packedBQs[..], packedBScales[..], tilesM, tilesN, tm, tn,
                    aBlock, bBlock);
      tile := RunKernel(o, p.k, components, TileTable(p, tm, tn));
      TileIsElements(p, tile, tm, tn);
    }
  }

  /** The kernel on a zeroed tile. */
  method RunKernel(o: Operands, k: nat, components: array<int>, ghost table: seq<seq<Term>>) returns (tile: seq<Flt>)
    requires Sized(o, k) && components.Length == BATCH * TILE && Describes(table, o, k)
    modifies components
    ensures FromZero(tile, table)
  {
    var acc := new Flt[TILE](_ => ZERO);
    ghost var zero := acc[..];
    TileKernel(o, acc, k, components, table);
    tile := acc[..];
    forall e | 0 <= e < TILE ensures tile[e] == Fold(ZERO, table[e]) {
      assert table[e][0..k] == table[e];
    }
  }

  /** The operand pointers of a tile whose first blocks are `ta` and `tb`. */
  function TileOperands(aQs: seq<Int8>, aScales: seq<real>, wQs: seq<Byte>, wScales: seq<real>, ta: nat, tb: nat,
                        k: nat): (o: Operands)
    requires 512 * (ta + k) <= |aQs| && 16 * (ta + k) <= |aScales| && 512 * (tb + k) <= |wQs|
             && 32 * (tb + k) <= |wScales|
    ensures Sized(o, k)
  {
    Operands(aQs[512 * ta..512 * (ta + k)], aScales[16 * ta..16 * (ta + k)], wQs[512 * tb..512 * (tb + k)],
             wScales[32 * tb..32 * (tb + k)])
  }

  lemma OperandBlock(aQs: seq<Int8>, aScales: seq<real>, wQs: seq<Byte>, wScales: seq<real>, ta: nat, tb: nat, k: nat,
                     b: nat, m: nat, n: nat)
    requires 512 * (ta + k) <= |aQs| && 16 * (ta + k) <= |aScales| && 512 * (tb + k) <= |wQs|
             && 32 * (tb + k) <= |wScales|
    requires b < k && m < 16 && n < 32
    ensures var o := TileOperands(aQs, aScales, wQs, wScales, ta, tb, k);
            && ABlock(o, k, b) == aQs[512 * (ta + b)..512 * (ta + b) + 512]
            && WBlock(o, k, b) == wQs[512 * (tb + b)..512 * (tb + b) + 512]
            && o.aScales[16 * b + m] == aScales[16 * (ta + b) + m]
            && o.wScales[32 * b + n] == wScales[32 * (tb + b) + n]
  {
    SliceOfSlice(aQs, 512 * ta, 512 * (ta + k), 512 * b, 512 * b + 512);
    SliceOfSlice(wQs, 512 * tb, 512 * (tb + k), 512 * b, 512 * b + 512);
  }

  /** Packed blocks `ta` and `tb` yield the block term of row `m` and column `n`. */
  lemma PackedTerm(aQs: seq<Int8>, aScales: seq<real>, wQs: seq<Byte>, wScales: seq<real>, ta: nat, tb: nat,
                   rows: seq<Q8>, columns: seq<Q4>, m: nat, n: nat)
    requires |rows| == 16 && |columns| == 32 && m < 16 && n < 32
    requires 512 * ta + 512 <= |aQs| && 512 * tb + 512 <= |wQs|
    requires APacked(aQs, aScales, ta, rows) && BPacked(wQs, wScales, tb, columns)
    ensures Component(aQs[512 * ta..512 * ta + 512], wQs[512 * tb..512 * tb + 512], m, n)
            == BlockDot(columns[n], rows[m])
    ensures aScales[16 * ta + m] == rows[m].d && wScales[32 * tb + n] == columns[n].d
  {
    ARowPacked(aQs, aScales, ta, rows, m, 0);
    ARowPacked(aQs, aScales, ta, rows, m, 1);
    BColumnPacked(wQs, wScales, tb, columns, n);
    ComponentIsBlockDot(aQs[512 * ta..512 * ta + 512], wQs[512 * tb..512 * tb + 512], m, n, rows[m], columns[n]);
    assert aScales[16 * ta..16 * ta + 16][m] == aScales[16 * ta + m];
    assert wScales[32 * tb..32 * tb + 32][n] == wScales[32 * tb + n];
  }

  /** The table of output tile `(tm, tn)`. */
  function TileTable(p: Problem, tm: nat, tn: nat): (r: seq<seq<Term>>)
    requires |p.act| == p.m * p.k && |p.wt| == p.n * p.k && 16 * tm + 16 <= p.m && 32 * tn + 32 <= p.n
    ensures Shaped(r, TILE, p.k)
  {
    seq(512, e requires 0 <= e < 512 => Terms(p, 16 * tm + e / 32, 32 * tn + e % 32))
  }

  lemma TableAt(p: Problem, tm: nat, tn: nat, m: nat, n: nat)
    requires Valid(p) && 16 * tm + 16 <= p.m && 32 * tn + 32 <= p.n && m < 16 && n < 32
    ensures TileTable(p, tm, tn)[32 * m + n] == Terms(p, 16 * tm + m, 32 * tn + n)
  {
    assert (32 * m + n) / 32 == m && (32 * m + n) % 32 == n;
  }

  /** A tile folded from zero holds output elements. */
  ghost predicate FromZero(tile: seq<Flt>, table: seq<seq<Term>>) {
    |tile| == |table| && forall e :: 0 <= e < |tile| ==> tile[e] == Fold(ZERO, table[e])
  }

  lemma TileIsElements(p: Problem, tile: seq<Flt>, tm: nat, tn: nat)
    requires Valid(p) && 16 * tm + 16 <= p.m && 32 * tn + 32 <= p.n && FromZero(tile, TileTable(p, tm, tn))
    ensures IsTile(p, tile, 16, 32, tm, tn)
  {
    forall r: nat, c: nat | r < 16 && c < 32 ensures TileEntry(p, tile, 16, 32, tm, tn, r, c) {
      ElementOfTile(p, tile, tm, tn, r, c);
    }
  }

  lemma ElementOfTile(p: Problem, tile: seq<Flt>, tm: nat, tn: nat, r: nat, c: nat)
    requires Valid(p) && 16 * tm + 16 <= p.m && 32 * tn + 32 <= p.n && FromZero(tile, TileTable(p, tm, tn)) && r < 16
             && c < 32
    ensures TileEntry(p, tile, 16, 32, tm, tn, r, c)
  {
    ElementIs(p, tile, tm, tn, r, c);
    EntryIs(p, tile, tm, tn, r, c);
  }

  lemma ElementIs(p: Problem, tile: seq<Flt>, tm: nat, tn: nat, r: nat, c: nat)
    requires Valid(p) && 16 * tm + 16 <= p.m && 32 * tn + 32 <= p.n && FromZero(tile, TileTable(p, tm, tn)) && r < 16
             && c < 32
    ensures |tile| == 512 && tile[32 * r + c] == Element(p, 16 * tm + r, 32 * tn + c)
  {
    TableAt(p, tm, tn, r, c);
    FromZeroAt(tile, TileTable(p, tm, tn), 32 * r + c);
  }

  lemma EntryIs(p: Problem, tile: seq<Flt>, tm: nat, tn: nat, r: nat, c: nat)
    requires Valid(p) && 16 * tm + 16 <= p.m && 32 * tn + 32 <= p.n && r < 16 && c < 32
    requires |tile| == 512 && tile[32 * r + c] == Element(p, 16 * tm + r, 32 * tn + c)
    ensures TileEntry(p, tile, 16, 32, tm, tn, r, c)
  {}

  lemma FromZeroAt(tile: seq<Flt>, table: seq<seq<Term>>, e: nat)
    requires FromZero(tile, table) && e < |tile|
    ensures tile[e] == Fold(ZERO, table[e])
  {}

  lemma TileDescribed(p: Problem, aQs: seq<Int8>, aScales: seq<real>, wQs: seq<Byte>, wScales: seq<real>, tilesM: nat,
                      tilesN: nat, tm: nat, tn: nat, ta: nat, tb: nat)
    requires Accepted(p, tilesM, tilesN) && tm < tilesM && tn < tilesN && ta == tm * p.k && tb == tn * p.k
    requires 16 * tm + 16 <= p.m && 32 * tn + 32 <= p.n
    requires 512 * (ta + p.k) <= |aQs| && 16 * (ta + p.k) <= |aScales| && 512 * (tb + p.k) <= |wQs|
             && 32 * (tb + p.k) <= |wScales|
    requires AUpTo(p, aQs, aScales, tilesM, 0) && BUpTo(p, wQs, wScales, tilesN, 0)
    ensures Describes(TileTable(p, tm, tn), TileOperands(aQs, aScales, wQs, wScales, ta, tb, p.k), p.k)
  {
    var o := TileOperands(aQs, aScales, wQs, wScales, ta, tb, p.k);
    forall b, m, n | 0 <= b < p.k && 0 <= m < 16 && 0 <= n < 32 ensures Entry(TileTable(p, tm, tn), o, p.k, b, m, n) {
      assert Before(tm, b, tilesM, 0) && Before(tn, b, tilesN, 0);
      assert AReady(p, aQs, aScales, tm, b) && BReady(p, wQs, wScales, tn, b);
      TileTermIs(aQs, aScales, wQs, wScales, ta, tb, p.k, b, TileRows(p, tm, b), TileColumns(p, tn, b), m, n);
      TableTerm(p, tm, tn, b, m, n);
    }
  }

  lemma TileTermIs(aQs: seq<Int8>, aScales: seq<real>, wQs: seq<Byte>, wScales: seq<real>, ta: nat, tb: nat, k: nat,
                   b: nat, rows: seq<Q8>, columns: seq<Q4>, m: nat, n: nat)
    requires 512 * (ta + k) <= |aQs| && 16 * (ta + k) <= |aScales| && 512 * (tb + k) <= |wQs|
             && 32 * (tb + k) <= |wScales|
    requires |rows| == 16 && |columns| == 32 && m < 16 && n < 32 && b < k
    requires APacked(aQs, aScales, ta + b, rows) && BPacked(wQs, wScales, tb + b, columns)
    ensures TileTerm(TileOperands(aQs, aScales, wQs, wScales, ta, tb, k), k, b, m, n) == BlockTerm(columns[n], rows[m])
  {
    hide APacked, BPacked, ABlock, WBlock, Component, BlockDot;
    OperandBlock(aQs, aScales, wQs, wScales, ta, tb, k, b, m, n);
    PackedTerm(aQs, aScales, wQs, wScales, ta + b, tb + b, rows, columns, m, n);
  }

  lemma TableTerm(p: Problem, tm: nat, tn: nat, b: nat, m: nat, n: nat)
    requires Valid(p) && 16 * tm + 16 <= p.m && 32 * tn + 32 <= p.n && b < p.k && m < 16 && n < 32
    ensures TileTable(p, tm, tn)[32 * m + n][b] == BlockTerm(TileColumns(p, tn, b)[n], TileRows(p, tm, b)[m])
  {
    hide TileTable, Terms, BlockTerm, TileRows, TileColumns;
    TableAt(p, tm, tn, m, n);
    TileTermAt(p, tm, tn, b, m, n, 16 * tm + m, 32 * tn + n);
  }

  lemma TileTermAt(p: Problem, tm: nat, tn: nat, b: nat, m: nat, n: nat, i: nat, j: nat)
    requires Valid(p) && 16 * tm + 16 <= p.m && 32 * tn + 32 <= p.n && b < p.k && m < 16 && n < 32
    requires i == 16 * tm + m && j == 32 * tn + n
    ensures Terms(p, i, j)[b] == BlockTerm(TileColumns(p, tn, b)[n], TileRows(p, tm, b)[m])
  {
    hide Terms, BlockTerm;
    TermAt(p, i, j, b);
  }

  /** The whole pipeline: whatever the shape and the inputs, each output element
      is, over the reals, the reference dot product of its row and column. */
  method Multiply(p: Problem, tilesM: nat, tilesN: nat, iterations: nat, order: seq<nat>) returns (output: seq<Flt>)
    requires Accepted(p, tilesM, tilesN) && iterations >= 1 && Schedule(order, tilesM)
    ensures IsProduct(p, output)
    ensures forall i: nat, j: nat :: i < p.m && j < p.n ==> Matches(p, output, i, j)
  {
    var state := new M8State(p, tilesM, tilesN);
    state.Run(iterations, order);
    output := state.output[..];
    forall i: nat, j: nat | i < p.m && j < p.n ensures Matches(p, output, i, j) {
      ComputedIsReference(p, output, i, j);
    }
  }
}
