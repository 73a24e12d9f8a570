/** The two IQ2_XXS x Q8_K kernels on a 12 x 32 tile: interleaved operands, 16-bit
    subblock sums, and the batch or immediate reduction of eight subblocks. */
module Iq2Kernel {
  import opened BitArithmetic
  import opened Quantized
  import opened VectorUnit
  import opened Iq2Block

  /** Interleaved activation block, and decompressed weight block. */
  datatype ABlock = ABlock(d: seq<real>, qs: seq<Int8>)
  datatype WBlock = WBlock(d: seq<real>, scales: seq<int>, qs: seq<Int8>)

  ghost predicate ACode(qs: seq<Int8>, rows: seq<Q8K>, k: nat, r: nat)
    requires |rows| == MR && r < MR
  {
    k < |rows[r].qs| && k * 12 + r < |qs| && qs[k * 12 + r] == rows[r].qs[k]
  }

  ghost predicate APacked(a: ABlock, rows: seq<Q8K>) {
    && |rows| == MR && |a.d| == MR && (forall r: nat :: r < MR ==> Activation(rows[r]) && a.d[r] == rows[r].d)
    && forall k: nat, r: nat :: k < 256 && r < MR ==> ACode(a.qs, rows, k, r)
  }

  ghost predicate WValue(qs: seq<Int8>, columns: seq<W2>, k: nat, x: nat)
    requires |columns| == NR && x < NR
  {
    k < |columns[x].values| && k * 32 + x < |qs| && qs[k * 32 + x] == columns[x].values[k]
  }

  ghost predicate WScale(scales: seq<int>, columns: seq<W2>, s: nat, x: nat)
    requires |columns| == NR && x < NR
  {
    s < |columns[x].scales| && s * 32 + x < |scales| && scales[s * 32 + x] == columns[x].scales[s]
  }

  ghost predicate WPacked(w: WBlock, columns: seq<W2>) {
    && |columns| == NR && |w.d| == NR && |w.qs| == 8192 && |w.scales| == 256
    && (forall x: nat :: x < NR ==> Weight(columns[x]) && w.d[x] == columns[x].d)
    && (forall k: nat, x: nat :: k < 256 && x < NR ==> WValue(w.qs, columns, k, x))
    && (forall s: nat, x: nat :: s < 8 && x < NR ==> WScale(w.scales, columns, s, x))
  }

  /** The adapter's 12-row interleave. */
  method PackA(rows: seq<Q8K>) returns (a: ABlock)
    requires |rows| == MR && forall r :: 0 <= r < MR ==> Activation(rows[r])
    ensures APacked(a, rows)
  {
    var qs: seq<Int8> := [];
    for k := 0 to 256
      invariant |qs| == k * 12 && forall y: nat, r: nat :: y < k && r < MR ==> ACode(qs, rows, y, r)
    {
      ghost var before := qs;
      var step := seq(12, r requires 0 <= r < 12 => rows[r].qs[k]);
      qs := qs + step;
      forall y: nat, r: nat | y < k + 1 && r < MR ensures ACode(qs, rows, y, r) {
        if y < k { assert ACode(before, rows, y, r); } else { assert qs[k * 12 + r] == step[r]; }
      }
    }
    a := ABlock(seq(12, r requires 0 <= r < 12 => rows[r].d), qs);
  }

  /** The write-back of `decompress_iq2`, for one block of decoded columns. */
  method PackW(columns: seq<W2>) returns (w: WBlock)
    requires |columns| == NR && forall x :: 0 <= x < NR ==> Weight(columns[x])
    ensures WPacked(w, columns)
  {
    var qs: seq<Int8> := [];
    for k := 0 to 256
      invariant |qs| == k * 32 && forall y: nat, x: nat :: y < k && x < NR ==> WValue(qs, columns, y, x)
    {
      ghost var before := qs;
      var step := seq(32, x requires 0 <= x < 32 => columns[x].values[k]);
      qs := qs + step;
      forall y: nat, x: nat | y < k + 1 && x < NR ensures WValue(qs, columns, y, x) {
        if y < k { assert WValue(before, columns, y, x); } else { assert qs[k * 32 + x] == step[x]; }
      }
    }
    var scales: seq<int> := [];
    for s := 0 to 8
      invariant |scales| == s * 32 && forall y: nat, x: nat :: y < s && x < NR ==> WScale(scales, columns, y, x)
    {
      ghost var before := scales;
      var step := seq(32, x requires 0 <= x < 32 => columns[x].scales[s]);
      scales := scales + step;
      forall y: nat, x: nat | y < s + 1 && x < NR ensures WScale(scales, columns, y, x) {
        if y < s { assert WScale(before, columns, y, x); } else { assert scales[s * 32 + x] == step[x]; }
      }
    }
    w := WBlock(seq(32, x requires 0 <= x < 32 => columns[x].d), scales, qs);
  }

  // ---------- Subblock sums ----------

  function Product(x: int, y: int): int { x * y }

  /** The products of a subblock's first `n` codes. */
  function DotTo(a: Q8K, w: W2, s: nat, n: nat): int
    requires Activation(a) && Weight(w) && s < 8 && n <= 32
  {
    Dot(a.qs[32 * s..32 * s + 32][..n], w.values[32 * s..32 * s + 32][..n])
  }

  lemma DotToNext(a: Q8K, w: W2, s: nat, n: nat)
    requires Activation(a) && Weight(w) && s < 8 && n < 32
    ensures DotTo(a, w, s, n + 1) == DotTo(a, w, s, n) + Product(a.qs[32 * s + n], w.values[32 * s + n])
  {
    DotNext(a.qs[32 * s..32 * s + 32], w.values[32 * s..32 * s + 32], n);
  }

  lemma DotToAll(a: Q8K, w: W2, s: nat)
    requires Activation(a) && Weight(w) && s < 8
    ensures DotTo(a, w, s, 32) == SubDot(a, w, s)
  {
    assert a.qs[32 * s..32 * s + 32][..32] == a.qs[32 * s..32 * s + 32]
        && w.values[32 * s..32 * s + 32][..32] == w.values[32 * s..32 * s + 32];
  }

  /** Lane `x` of one row: the wrapped sum of the first `n` products. */
  ghost predicate RowTo(lanes: seq<int>, row: Q8K, columns: seq<W2>, s: nat, n: nat)
    requires |columns| == NR && s < 8 && n <= 32
  {
    |lanes| == NR && forall x: nat :: x < NR ==> LaneTo(lanes[x], row, columns[x], s, n)
  }

  ghost predicate LaneTo(lane: int, row: Q8K, column: W2, s: nat, n: nat)
    requires s < 8 && n <= 32
  {
    Activation(row) && Weight(column) && lane == Wrap16(DotTo(row, column, s, n))
  }

  ghost predicate RowsTo(sums: seq<seq<int>>, rows: seq<Q8K>, columns: seq<W2>, s: nat, n: nat)
    requires |columns| == NR && s < 8 && n <= 32
  {
    |sums| == |rows| && forall r: nat :: r < |rows| ==> RowTo(sums[r], rows[r], columns, s, n)
  }

  /** `vwmul` into, or `vwmacc` onto, 16-bit lanes. */
  function Multiply(scalar: int, v: seq<int>): (r: seq<int>)
    ensures |r| == |v|
  {
    seq(|v|, x requires 0 <= x < |v| => Product(scalar, v[x]))
  }

  function Accumulate(acc: seq<int>, scalar: int, v: seq<int>): (r: seq<int>)
    requires |acc| == |v|
    ensures |r| == |v|
  {
    seq(|v|, x requires 0 <= x < |v| => Wrap16(acc[x] + Product(scalar, v[x])))
  }

  lemma ByteProduct(a: int, w: int)
    requires -128 <= a < 128 && -128 <= w < 128
    ensures -0x8000 <= Product(a, w) < 0x8000
  {
    var k: nat := if w < 0 then -w else w;
    MulOrder(a, 127, k);
    MulOrder(-128, a, k);
    assert a * w == if w < 0 then -(a * k) else a * k;
    if w == -128 && a == -128 { assert a * w == 16384; }
  }

  lemma FirstProduct(row: Q8K, column: W2, s: nat)
    requires Activation(row) && Weight(column) && s < 8
    ensures LaneTo(Product(row.qs[32 * s], column.values[32 * s]), row, column, s, 1)
  {
    DotToNext(row, column, s, 0);
    ByteProduct(row.qs[32 * s], column.values[32 * s]);
    WrapMeaning(Product(row.qs[32 * s], column.values[32 * s]));
  }

  lemma NextProduct(lane: int, row: Q8K, column: W2, s: nat, n: nat)
    requires s < 8 && n < 32 && LaneTo(lane, row, column, s, n)
    ensures LaneTo(Wrap16(lane + Product(row.qs[32 * s + n], column.values[32 * s + n])), row, column, s, n + 1)
  {
    DotToNext(row, column, s, n);
    WrapAdds(DotTo(row, column, s, n), Product(row.qs[32 * s + n], column.values[32 * s + n]));
  }

  /** One row of one step. */
  method RowStep(lanes: seq<int>, code: int, v: seq<int>, n: nat, ghost s: nat, ghost row: Q8K, ghost columns: seq<W2>)
    returns (next: seq<int>)
    requires |columns| == NR && s < 8 && n < 32 && Activation(row)
    requires code == row.qs[32 * s + n] && |v| == NR
             && (forall x: nat :: x < NR ==> Weight(columns[x]) && v[x] == columns[x].values[32 * s + n])
    requires n > 0 ==> RowTo(lanes, row, columns, s, n)
    ensures RowTo(next, row, columns, s, n + 1)
  {
    next := if n == 0 then Multiply(code, v) else Accumulate(lanes, code, v);
    forall x: nat | x < NR ensures LaneTo(next[x], row, columns[x], s, n + 1) {
      if n == 0 { FirstProduct(row, columns[x], s); } else { NextProduct(lanes[x], row, columns[x], s, n); }
    }
  }

  lemma WRegister(w: WBlock, columns: seq<W2>, k: nat)
    requires WPacked(w, columns) && k < 256
    ensures forall x: nat :: x < NR ==> w.qs[k * 32..k * 32 + 32][x] == columns[x].values[k]
  {
    forall x: nat | x < NR
      ensures w.qs[k * 32..k * 32 + 32][x] == columns[x].values[k]
    {
      assert WValue(w.qs, columns, k, x);
    }
  }

  /** The twelve rows of one step. */
  method TileStep(sums: seq<seq<int>>, a: ABlock, w: WBlock, s: nat, n: nat, ghost rows: seq<Q8K>,
                  ghost columns: seq<W2>) returns (next: seq<seq<int>>)
    requires APacked(a, rows) && WPacked(w, columns) && s < 8 && n < 32 && (n > 0 ==> RowsTo(sums, rows, columns, s, n))
    ensures RowsTo(next, rows, columns, s, n + 1)
  {
    var k := s * 32 + n;
    var v := w.qs[k * 32..k * 32 + 32];
    WRegister(w, columns, k);
    next := [];
    ghost var done := n + 1;
    for r := 0 to MR
      invariant |next| == r && forall i: nat :: i < r ==> RowTo(next[i], rows[i], columns, s, done)
    {
      assert ACode(a.qs, rows, k, r);
      var lanes: seq<int> := [];
      if n > 0 {
        assert RowTo(sums[r], rows[r], columns, s, n);
        lanes := sums[r];
      }
      var row := RowStep(lanes, a.qs[k * 12 + r], v, n, s, rows[r], columns);
      next := next + [row];
    }
  }

  /** The 16-bit sums of subblock `s`. */
  method SubblockSums(a: ABlock, w: WBlock, s: nat, ghost rows: seq<Q8K>, ghost columns: seq<W2>)
    returns (sums: seq<seq<int>>)
    requires APacked(a, rows) && WPacked(w, columns) && s < 8
    ensures RowsTo(sums, rows, columns, s, 32)
  {
    sums := TileStep([], a, w, s, 0, rows, columns);
    for n := 1 to 32
      invariant RowsTo(sums, rows, columns, s, n)
    {
      sums := TileStep(sums, a, w, s, n, rows, columns);
    }
  }

  // ---------- Block sums ----------

  /** Every lane holds the block sum over its first `s` subblocks. */
  ghost predicate BlockRow(lanes: seq<int>, row: Q8K, columns: seq<W2>, s: nat)
    requires |columns| == NR && s <= 8
  {
    |lanes| == NR && forall x: nat :: x < NR ==> BlockLane(lanes[x], row, columns[x], s)
  }

  ghost predicate BlockLane(lane: int, row: Q8K, column: W2, s: nat)
    requires s <= 8
  {
    Activation(row) && Weight(column) && lane == KernelBlock(row, column, s)
  }

  ghost predicate BlockRows(sums: seq<seq<int>>, rows: seq<Q8K>, columns: seq<W2>, s: nat)
    requires |columns| == NR && s <= 8
  {
    |sums| == |rows| && forall r: nat :: r < |rows| ==> BlockRow(sums[r], rows[r], columns, s)
  }

  /** `vwmul.vv` into, or `vwmacc.vv` onto, 32-bit lanes, which never wrap here. */
  function Scale(first: bool, acc: seq<int>, sums: seq<int>, scales: seq<int>): (r: seq<int>)
    requires |sums| == |scales| == NR && (!first ==> |acc| == NR)
    ensures |r| == NR
  {
    seq(32, x requires 0 <= x < 32 => if first then sums[x] * scales[x] else acc[x] + sums[x] * scales[x])
  }

  lemma ScaleStep(acc: seq<int>, sums: seq<int>, scales: seq<int>, row: Q8K, columns: seq<W2>, s: nat)
    requires |columns| == NR && s < 8 && RowTo(sums, row, columns, s, 32) && (s > 0 ==> BlockRow(acc, row, columns, s))
    requires |scales| == NR && forall x: nat :: x < NR ==> Weight(columns[x]) && scales[x] == columns[x].scales[s]
    ensures BlockRow(Scale(s == 0, acc, sums, scales), row, columns, s + 1)
  {
    var next := Scale(s == 0, acc, sums, scales);
    forall x: nat | x < NR ensures BlockLane(next[x], row, columns[x], s + 1) {
      assert LaneTo(sums[x], row, columns[x], s, 32);
      DotToAll(row, columns[x], s);
      if s > 0 { assert BlockLane(acc[x], row, columns[x], s); } else { assert KernelBlock(row, columns[x], 0) == 0; }
    }
  }

  lemma ScalesOf(w: WBlock, columns: seq<W2>, s: nat)
    requires WPacked(w, columns) && s < 8
    ensures forall x: nat :: x < NR ==> w.scales[s * 32..s * 32 + 32][x] == columns[x].scales[s]
  {
    forall x: nat | x < NR
      ensures w.scales[s * 32..s * 32 + 32][x] == columns[x].scales[s]
    {
      assert WScale(w.scales, columns, s, x);
    }
  }

  /** Batch reduction: all eight subblock sums first, then the scales, row by row. */
  method BlockSumsBatch(a: ABlock, w: WBlock, ghost rows: seq<Q8K>, ghost columns: seq<W2>)
    returns (sums: seq<seq<int>>)
    requires APacked(a, rows) && WPacked(w, columns)
    ensures BlockRows(sums, rows, columns, 8)
  {
    var saved: seq<seq<seq<int>>> := [];
    for s := 0 to 8
      invariant |saved| == s && forall t: nat :: t < s ==> RowsTo(saved[t], rows, columns, t, 32)
    {
      var sub := SubblockSums(a, w, s, rows, columns);
      saved := saved + [sub];
    }
    sums := [];
    for r := 0 to MR
      invariant |sums| == r && forall i: nat :: i < r ==> BlockRow(sums[i], rows[i], columns, 8)
    {
      var row := ReduceRow(saved, w, r, rows, columns);
      sums := sums + [row];
    }
  }

  method ReduceRow(saved: seq<seq<seq<int>>>, w: WBlock, r: nat, ghost rows: seq<Q8K>, ghost columns: seq<W2>)
    returns (row: seq<int>)
    requires WPacked(w, columns) && r < |rows| && |saved| == 8 && forall t: nat :: t < 8 ==>
               RowsTo(saved[t], rows, columns, t, 32)
    ensures BlockRow(row, rows[r], columns, 8)
  {
    row := [];
    for s := 0 to 8
      invariant s > 0 ==> BlockRow(row, rows[r], columns, s)
    {
      assert RowsTo(saved[s], rows, columns, s, 32) && RowTo(saved[s][r], rows[r], columns, s, 32);
      ScalesOf(w, columns, s);
      var scales := w.scales[s * 32..s * 32 + 32];
      ScaleStep(row, saved[s][r], scales, rows[r], columns, s);
      row := Scale(s == 0, row, saved[s][r], scales);
    }
  }

  /** Immediate reduction: the scales of a subblock as soon as its sums are in. */
  method BlockSumsImmediate(a: ABlock, w: WBlock, ghost rows: seq<Q8K>, ghost columns: seq<W2>)
    returns (sums: seq<seq<int>>)
    requires APacked(a, rows) && WPacked(w, columns)
    ensures BlockRows(sums, rows, columns, 8)
  {
    sums := [];
    for s := 0 to 8
      invariant s > 0 ==> BlockRows(sums, rows, columns, s)
    {
      var sub := SubblockSums(a, w, s, rows, columns);
      sums := ReduceSubblock(sums, sub, w, s, rows, columns);
    }
  }

  method ReduceSubblock(sums: seq<seq<int>>, sub: seq<seq<int>>, w: WBlock, s: nat, ghost rows: seq<Q8K>,
                        ghost columns: seq<W2>) returns (next: seq<seq<int>>)
    requires WPacked(w, columns) && |rows| == MR && s < 8 && RowsTo(sub, rows, columns, s, 32)
             && (s > 0 ==> BlockRows(sums, rows, columns, s))
    ensures BlockRows(next, rows, columns, s + 1)
  {
    ScalesOf(w, columns, s);
    var scales := w.scales[s * 32..s * 32 + 32];
    next := [];
    ghost var done := s + 1;
    for r := 0 to MR
      invariant |next| == r && forall i: nat :: i < r ==> BlockRow(next[i], rows[i], columns, done)
    {
      var acc := [];
      if s > 0 { acc := sums[r]; }
      var row := ReduceSubblockRow(acc, sub[r], scales, s, rows[r], columns, sums, sub, rows, r);
      next := next + [row];
    }
  }

  method ReduceSubblockRow(acc: seq<int>, sub: seq<int>, scales: seq<int>, s: nat, ghost row: Q8K,
                           ghost columns: seq<W2>, ghost sums: seq<seq<int>>, ghost subs: seq<seq<int>>,
                           ghost rows: seq<Q8K>, ghost r: nat) returns (next: seq<int>)
    requires |columns| == NR && s < 8 && r < |rows| && row == rows[r] && RowsTo(subs, rows, columns, s, 32)
             && sub == subs[r]
    requires s > 0 ==> BlockRows(sums, rows, columns, s) && acc == sums[r]
    requires |scales| == NR && forall x: nat :: x < NR ==> Weight(columns[x]) && scales[x] == columns[x].scales[s]
    ensures BlockRow(next, row, columns, s + 1)
  {
    assert RowTo(subs[r], rows[r], columns, s, 32);
    if s > 0 { assert BlockRow(sums[r], rows[r], columns, s); }
    ScaleStep(acc, sub, scales, row, columns, s);
    next := Scale(s == 0, acc, sub, scales);
  }
}
