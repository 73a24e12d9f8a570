/** The IQ2_XXS x Q8_K GEMMs: batch-reduce with K panels of 64 blocks, and
    immediate-reduce over all of K at once. Values are over the reals. */
module Iq2Gemm {
  import opened BitArithmetic
  import opened Quantized
  import opened Iq2Block
  import opened Iq2Kernel
  import opened Iq2Safety
  import G = Gemm

  const PANEL: nat := 64   // KC / QK_K

  /** Quantized activations, packed weights, and the grid they index. */
  datatype Problem = Problem(m: nat, n: nat, k: nat, act: seq<Q8K>, wt: seq<PackedBlock>, grid: seq<seq<int>>)

  ghost predicate Valid(p: Problem) {
    && |p.act| == p.m * p.k && |p.wt| == p.n * p.k
    && (forall x :: 0 <= x < |p.act| ==> Activation(p.act[x]))
    && (forall x :: 0 <= x < |p.wt| ==> IsPacked(p.wt[x]))
    && IsGrid(p.grid)
  }

  /** The shapes `validate_shape<12, 32, 256>` admits. */
  ghost predicate Accepted(p: Problem, tilesM: nat, tilesN: nat) {
    Valid(p) && p.m == 12 * tilesM && p.n == 32 * tilesN && p.k > 0
  }

  ghost function ActAt(p: Problem, i: nat, b: nat): (a: Q8K)
    requires Valid(p) && i < p.m && b < p.k
    ensures Activation(a)
  {
    G.CellBound(p.m, p.k, i, b);
    p.act[i * p.k + b]
  }

  ghost function WtAt(p: Problem, j: nat, b: nat): (w: W2)
    requires Valid(p) && j < p.n && b < p.k
    ensures Weight(w)
  {
    Decode(p.grid, PackedAt(p, j, b))
  }

  /** What both kernels accumulate over blocks `from .. end`. */
  ghost function KernelSum(p: Problem, i: nat, j: nat, from: nat, end: nat): real
    requires Valid(p) && i < p.m && j < p.n && from <= end <= p.k
    decreases end - from
  {
    if end == from then 0.0
    else KernelSum(p, i, j, from, end - 1)
         + Scaled(KernelBlock(ActAt(p, i, end - 1), WtAt(p, j, end - 1), 8), WtAt(p, j, end - 1).d,
                  ActAt(p, i, end - 1).d)
  }

  /** The reference: `0.125 * d_w * d_a * sum` of every block. */
  ghost function ReferenceSum(p: Problem, i: nat, j: nat, end: nat): real
    requires Valid(p) && i < p.m && j < p.n && end <= p.k
  {
    if end == 0 then 0.0
    else ReferenceSum(p, i, j, end - 1)
         + 0.125 * Scaled(ExactBlock(ActAt(p, i, end - 1), WtAt(p, j, end - 1), 8), WtAt(p, j, end - 1).d,
                          ActAt(p, i, end - 1).d)
  }

  lemma {:induction false} PanelsAdd(p: Problem, i: nat, j: nat, from: nat, middle: nat, end: nat)
    requires Valid(p) && i < p.m && j < p.n && from <= middle <= end <= p.k
    ensures KernelSum(p, i, j, from, end) == KernelSum(p, i, j, from, middle) + KernelSum(p, i, j, middle, end)
    decreases end - middle
  {
    if end > middle { PanelsAdd(p, i, j, from, middle, end - 1); }
  }

  /** When every subblock sum of the row and column fits in 16 bits, the kernels'
      result is the reference's. */
  lemma {:induction false} FitsIsReference(p: Problem, i: nat, j: nat, end: nat)
    requires Valid(p) && i < p.m && j < p.n && end <= p.k
    requires forall b: nat :: b < p.k ==> Fits(ActAt(p, i, b), WtAt(p, j, b))
    ensures 0.125 * KernelSum(p, i, j, 0, end) == ReferenceSum(p, i, j, end)
  {
    if end > 0 {
      FitsIsReference(p, i, j, end - 1);
      FitsAgrees(ActAt(p, i, end - 1), WtAt(p, j, end - 1), 8);
    }
  }

  // ---------- A row and a column ----------

  ghost function ActRow(p: Problem, i: nat): (r: seq<Q8K>)
    requires Valid(p) && i < p.m
    ensures IsRow(r, p.k)
  {
    seq(p.k, b requires 0 <= b < p.k => ActAt(p, i, b))
  }

  ghost function PackedAt(p: Problem, j: nat, b: nat): (r: PackedBlock)
    requires Valid(p) && j < p.n && b < p.k
    ensures IsPacked(r)
  {
    G.CellBound(p.n, p.k, j, b);
    p.wt[j * p.k + b]
  }

  ghost function PackedColumn(p: Problem, j: nat): (r: seq<PackedBlock>)
    requires Valid(p) && j < p.n
    ensures |r| == p.k && IsPackedColumn(r)
  {
    seq(p.k, b requires 0 <= b < p.k => PackedAt(p, j, b))
  }

  /** The sums of element `(i, j)` are those of its row and column. */
  lemma {:induction false} ElementIs(p: Problem, i: nat, j: nat, end: nat)
    requires Valid(p) && i < p.m && j < p.n && end <= p.k
    ensures KernelSum(p, i, j, 0, end) == KernelElement(ActRow(p, i), DecodeColumn(p.grid, PackedColumn(p, j)), end)
    ensures ReferenceSum(p, i, j, end) == ReferenceElement(ActRow(p, i), DecodeColumn(p.grid, PackedColumn(p, j)), end)
  {
    hide Decode, KernelBlock, ExactBlock, Iq2Safety.Scaled;
    if end > 0 { ElementIs(p, i, j, end - 1); }
  }

  /** The quantizer's codes. */
  ghost predicate InRange(p: Problem) {
    forall x :: 0 <= x < |p.act| ==> Codes(p.act[x])
  }

  lemma SafeIsReference(p: Problem, i: nat, j: nat)
    requires Valid(p) && InRange(p) && i < p.m && j < p.n && SafeColumn(p.grid, PackedColumn(p, j))
    ensures 0.125 * KernelSum(p, i, j, 0, p.k) == ReferenceSum(p, i, j, p.k)
  {
    forall b | 0 <= b < p.k ensures Codes(ActRow(p, i)[b]) { G.CellBound(p.m, p.k, i, b); }
    SafeAgrees(p.grid, ActRow(p, i), PackedColumn(p, j));
    ElementIs(p, i, j, p.k);
  }

  // ---------- One tile over a range of blocks ----------

  ghost function Rows(p: Problem, top: nat, b: nat): (r: seq<Q8K>)
    requires Valid(p) && top + 12 <= p.m && b < p.k
    ensures |r| == 12
  {
    seq(12, r requires 0 <= r < 12 => ActAt(p, top + r, b))
  }

  ghost function Columns(p: Problem, left: nat, b: nat): (r: seq<W2>)
    requires Valid(p) && left + 32 <= p.n && b < p.k
    ensures |r| == 32
  {
    seq(32, x requires 0 <= x < 32 => WtAt(p, left + x, b))
  }

  /** Lane `32 * r + x` holds the sum over blocks `from .. to`. */
  ghost predicate LaneSum(p: Problem, sum: seq<real>, top: nat, left: nat, from: nat, to: nat, r: nat, x: nat)
    requires Valid(p) && top + 12 <= p.m && left + 32 <= p.n && from <= to <= p.k && r < 12 && x < 32
  {
    r * 32 + x < |sum| && sum[r * 32 + x] == KernelSum(p, top + r, left + x, from, to)
  }

  ghost predicate TileSum(p: Problem, sum: seq<real>, top: nat, left: nat, from: nat, to: nat)
    requires Valid(p)
  {
    && top + 12 <= p.m && left + 32 <= p.n && from <= to <= p.k && |sum| == 384
    && forall r: nat, x: nat :: r < 12 && x < 32 ==> LaneSum(p, sum, top, left, from, to, r, x)
  }

  /** Converts, scales and adds one block's sums: a product for the first block of
      the range, a fused multiply-add after. */
  method AddBlock(first: bool, sum: seq<real>, sums: seq<seq<int>>, wd: seq<real>, ad: seq<real>, ghost p: Problem,
                  ghost top: nat, ghost left: nat, ghost from: nat, ghost b: nat) returns (next: seq<real>)
    requires Valid(p) && top + 12 <= p.m && left + 32 <= p.n && from <= b < p.k && (first <==> b == from) && |wd| == 32
             && |ad| == 12
    requires BlockRows(sums, Rows(p, top, b), Columns(p, left, b), 8)
    requires (forall x: nat :: x < 32 ==> wd[x] == WtAt(p, left + x, b).d)
             && (forall r: nat :: r < 12 ==> ad[r] == ActAt(p, top + r, b).d)
    requires !first ==> TileSum(p, sum, top, left, from, b)
    ensures TileSum(p, next, top, left, from, b + 1)
  {
    next := [];
    ghost var to := b + 1;
    for r := 0 to 12
      invariant |next| == r * 32 && forall i: nat, x: nat :: i < r && x < 32 ==>
                  LaneSum(p, next, top, left, from, to, i, x)
    {
      assert BlockRow(sums[r], Rows(p, top, b)[r], Columns(p, left, b), 8);
      var part: seq<real> := [];
      if !first {
        part := sum[r * 32..r * 32 + 32];
        SumSlice(p, sum, top, left, from, b, r);
      }
      var row := AddRow(first, part, sums[r], wd, ad[r], p, top + r, left, from, b);
      RowAdded(p, next, row, top, left, from, to, r);
      next := next + row;
    }
  }

  lemma SumSlice(p: Problem, sum: seq<real>, top: nat, left: nat, from: nat, to: nat, r: nat)
    requires Valid(p) && TileSum(p, sum, top, left, from, to) && r < 12
    ensures var part, i := sum[r * 32..r * 32 + 32], top + r; forall x: nat :: x < 32 ==>
              part[x] == KernelSum(p, i, left + x, from, to)
  {
    var part, i := sum[r * 32..r * 32 + 32], top + r;
    forall x: nat | x < 32 ensures part[x] == KernelSum(p, i, left + x, from, to) {
      assert LaneSum(p, sum, top, left, from, to, r, x);
    }
  }

  lemma RowAdded(p: Problem, before: seq<real>, row: seq<real>, top: nat, left: nat, from: nat, to: nat, r: nat)
    requires Valid(p) && top + 12 <= p.m && left + 32 <= p.n && from <= to <= p.k && r < 12 && |before| == r * 32
    requires forall i: nat, x: nat :: i < r && x < 32 ==> LaneSum(p, before, top, left, from, to, i, x)
    requires |row| == 32 && forall x: nat :: x < 32 ==> row[x] == KernelSum(p, top + r, left + x, from, to)
    ensures forall i: nat, x: nat :: i < r + 1 && x < 32 ==> LaneSum(p, before + row, top, left, from, to, i, x)
  {
    var next := before + row;
    forall i: nat, x: nat | i < r + 1 && x < 32 ensures LaneSum(p, next, top, left, from, to, i, x) {
      if i < r { assert LaneSum(p, before, top, left, from, to, i, x); } else { assert next[r * 32 + x] == row[x]; }
    }
  }

  method AddRow(first: bool, sum: seq<real>, sums: seq<int>, wd: seq<real>, ad: real, ghost p: Problem, ghost i: nat,
                ghost left: nat, ghost from: nat, ghost b: nat) returns (next: seq<real>)
    requires Valid(p) && i < p.m && left + 32 <= p.n && from <= b < p.k && (first <==> b == from) && |wd| == 32
    requires BlockRow(sums, ActAt(p, i, b), Columns(p, left, b), 8)
    requires (forall x: nat :: x < 32 ==> wd[x] == WtAt(p, left + x, b).d) && ad == ActAt(p, i, b).d
    requires !first ==> |sum| == 32 && forall x: nat :: x < 32 ==> sum[x] == KernelSum(p, i, left + x, from, b)
    ensures |next| == 32 && forall x: nat :: x < 32 ==> next[x] == KernelSum(p, i, left + x, from, b + 1)
  {
    next := [];
    for x := 0 to 32
      invariant |next| == x && forall y: nat :: y < x ==> next[y] == KernelSum(p, i, left + y, from, b + 1)
    {
      assert BlockLane(sums[x], ActAt(p, i, b), Columns(p, left, b)[x], 8);
      var product := Scaled(sums[x], wd[x], ad);
      next := next + [if first then product else sum[x] + product];
    }
  }

  /** The blocks a tile reads from `from` on. */
  ghost predicate ABlocks(p: Problem, a: seq<ABlock>, top: nat, from: nat)
    requires Valid(p)
  {
    top + 12 <= p.m && from + |a| <= p.k && forall b: nat :: b < |a| ==> ABlockAt(p, a, top, from, b)
  }

  ghost predicate ABlockAt(p: Problem, a: seq<ABlock>, top: nat, from: nat, b: nat)
    requires Valid(p) && top + 12 <= p.m && from + |a| <= p.k && b < |a|
  {
    APacked(a[b], Rows(p, top, from + b))
  }

  ghost predicate WBlocks(p: Problem, w: seq<WBlock>, left: nat, from: nat)
    requires Valid(p)
  {
    left + 32 <= p.n && from + |w| <= p.k && forall b: nat :: b < |w| ==> WBlockAt(p, w, left, from, b)
  }

  ghost predicate WBlockAt(p: Problem, w: seq<WBlock>, left: nat, from: nat, b: nat)
    requires Valid(p) && left + 32 <= p.n && from + |w| <= p.k && b < |w|
  {
    WPacked(w[b], Columns(p, left, from + b))
  }

  /** The K loop of one tile, with batch or immediate reduction of subblocks. */
  method SumTile(immediate: bool, a: seq<ABlock>, w: seq<WBlock>, ghost p: Problem, ghost top: nat, ghost left: nat,
                 ghost from: nat) returns (sum: seq<real>)
    requires Valid(p) && |a| == |w| > 0 && ABlocks(p, a, top, from) && WBlocks(p, w, left, from)
    ensures TileSum(p, sum, top, left, from, from + |a|)
  {
    sum := [];
    for qk := 0 to |a|
      invariant qk > 0 ==> TileSum(p, sum, top, left, from, from + qk)
    {
      sum := TileBlock(immediate, qk == 0, sum, a[qk], w[qk], p, top, left, from, from + qk, a, w);
    }
  }

  method TileBlock(immediate: bool, first: bool, sum: seq<real>, ab: ABlock, wb: WBlock, ghost p: Problem,
                   ghost top: nat, ghost left: nat, ghost from: nat, ghost b: nat, ghost a: seq<ABlock>,
                   ghost w: seq<WBlock>) returns (next: seq<real>)
    requires Valid(p) && from <= b && b - from < |a| == |w| && ABlocks(p, a, top, from) && WBlocks(p, w, left, from)
             && ab == a[b - from] && wb == w[b - from]
    requires (first <==> b == from) && (!first ==> TileSum(p, sum, top, left, from, b))
    ensures TileSum(p, next, top, left, from, b + 1)
  {
    assert ABlockAt(p, a, top, from, b - from) && WBlockAt(p, w, left, from, b - from);
    ghost var rows, columns := Rows(p, top, b), Columns(p, left, b);
    var sums: seq<seq<int>>;
    if immediate {
      sums := BlockSumsImmediate(ab, wb, rows, columns);
    } else {
      sums := BlockSumsBatch(ab, wb, rows, columns);
    }
    forall x: nat | x < 32 ensures wb.d[x] == WtAt(p, left + x, b).d { assert wb.d[x] == columns[x].d; }
    forall r: nat | r < 12 ensures ab.d[r] == ActAt(p, top + r, b).d { assert ab.d[r] == rows[r].d; }
    next := AddBlock(first, sum, sums, wb.d, ab.d, p, top, left, from, b);
  }

  // ---------- Packing ----------

  method PackRowTile(p: Problem, top: nat) returns (a: seq<ABlock>)
    requires Valid(p) && top + 12 <= p.m
    ensures |a| == p.k && ABlocks(p, a, top, 0)
  {
    a := [];
    for b := 0 to p.k
      invariant |a| == b && forall i: nat :: i < b ==> APacked(a[i], Rows(p, top, i))
    {
      var block := PackRowBlock(p, top, b);
      a := a + [block];
    }
    forall b: nat | b < |a| ensures ABlockAt(p, a, top, 0, b) { assert APacked(a[b], Rows(p, top, b)); }
  }

  method PackRowBlock(p: Problem, top: nat, b: nat) returns (a: ABlock)
    requires Valid(p) && top + 12 <= p.m && b < p.k
    ensures APacked(a, Rows(p, top, b))
  {
    ghost var all := Rows(p, top, b);
    var rows: seq<Q8K> := [];
    for r := 0 to 12
      invariant rows == all[..r]
    {
      G.CellBound(p.m, p.k, top + r, b);
      var row := p.act[(top + r) * p.k + b];
      assert all[r] == ActAt(p, top + r, b);
      assert all[r] == row && all[..r + 1] == all[..r] + [all[r]];
      rows := rows + [row];
    }
    assert rows == all;
    forall r | 0 <= r < 12 ensures Activation(rows[r]) { assert all[r] == ActAt(p, top + r, b); }
    a := PackA(rows);
  }

  /** `decompress_iq2` of `count` blocks of a column tile. */
  method Decompress(p: Problem, left: nat, from: nat, count: nat) returns (w: seq<WBlock>)
    requires Valid(p) && left + 32 <= p.n && from + count <= p.k
    ensures |w| == count && WBlocks(p, w, left, from)
  {
    w := [];
    for b := 0 to count
      invariant |w| == b && forall i: nat :: i < b ==> WPackedAt(p, w[i], left, from, i)
    {
      var block := DecompressBlock(p, left, from + b);
      w := w + [block];
    }
    forall b: nat | b < |w| ensures WBlockAt(p, w, left, from, b) { assert WPackedAt(p, w[b], left, from, b); }
  }

  ghost predicate WPackedAt(p: Problem, w: WBlock, left: nat, from: nat, b: nat)
    requires Valid(p) && left + 32 <= p.n
  {
    from + b < p.k && WPacked(w, Columns(p, left, from + b))
  }

  method DecompressBlock(p: Problem, left: nat, b: nat) returns (w: WBlock)
    requires Valid(p) && left + 32 <= p.n && b < p.k
    ensures WPacked(w, Columns(p, left, b))
  {
    ghost var all := Columns(p, left, b);
    var columns: seq<W2> := [];
    for x := 0 to 32
      invariant columns == all[..x]
    {
      G.CellBound(p.n, p.k, left + x, b);
      var column := DecodeBlock(p.grid, p.wt[(left + x) * p.k + b]);
      assert all[x] == WtAt(p, left + x, b);
      assert all[x] == column && all[..x + 1] == all[..x] + [all[x]];
      columns := columns + [column];
    }
    assert columns == all;
    forall x | 0 <= x < 32 ensures Weight(columns[x]) { assert all[x] == WtAt(p, left + x, b); }
    w := PackW(columns);
  }

  // ---------- The output ----------

  /** Output element `(i, j)` covers its first `upto` blocks; before the first
      panel it may hold anything. */
  ghost predicate Done(p: Problem, output: seq<real>, i: nat, j: nat, upto: nat)
    requires Valid(p)
  {
    && i < p.m && j < p.n && upto <= p.k && i * p.n + j < |output|
    && (upto > 0 ==> output[i * p.n + j] == 0.125 * KernelSum(p, i, j, 0, upto))
  }

  /** A 12 x 32 window covers its first `upto` blocks. */
  ghost predicate WindowDone(p: Problem, output: seq<real>, top: nat, left: nat, upto: nat)
    requires Valid(p)
  {
    forall i: nat, j: nat :: top <= i < top + 12 && left <= j < left + 32 ==> Done(p, output, i, j, upto)
  }

  /** Every element outside the window keeps what it covers. */
  ghost predicate KeptElse(p: Problem, before: seq<real>, after: seq<real>, top: nat, left: nat)
    requires Valid(p)
  {
    forall i: nat, j: nat, u: nat :: !(top <= i < top + 12 && left <= j < left + 32) && Done(p, before, i, j, u) ==>
        Done(p, after, i, j, u)
  }

  /** The tile to store: element `(r, x)` of the window over `upto` blocks. */
  ghost predicate TileElement(p: Problem, tile: seq<real>, top: nat, left: nat, upto: nat, r: nat, x: nat)
    requires Valid(p) && top + 12 <= p.m && left + 32 <= p.n && upto <= p.k && r < 12 && x < 32
  {
    r * 32 + x < |tile| && tile[r * 32 + x] == 0.125 * KernelSum(p, top + r, left + x, 0, upto)
  }

  lemma WindowStored(p: Problem, before: seq<real>, after: seq<real>, top: nat, left: nat, tile: seq<real>, upto: nat)
    requires Valid(p) && |before| == |after| == p.m * p.n && top + 12 <= p.m && left + 32 <= p.n && upto <= p.k
             && |tile| == 384
    requires forall r: nat, x: nat :: r < 12 && x < 32 ==> TileElement(p, tile, top, left, upto, r, x)
    requires G.RowsStored(after, p.n, top, left, 32, tile, 12) && G.SameOutside(before, after, p.n, top, 12, left, 32)
    ensures WindowDone(p, after, top, left, upto) && KeptElse(p, before, after, top, left)
  {
    forall i: nat, j: nat | top <= i < top + 12 && left <= j < left + 32 ensures Done(p, after, i, j, upto) {
      var r, x := i - top, j - left;
      assert G.RowStored(after, p.n, top, left, 32, tile, r) && TileElement(p, tile, top, left, upto, r, x);
      G.CellBound(p.m, p.n, i, j);
      G.SliceAgree(after, i * p.n + left, tile, r * 32, 32, x);
    }
    forall i: nat, j: nat, u: nat | !(top <= i < top + 12 && left <= j < left + 32) && Done(p, before, i, j, u)
      ensures Done(p, after, i, j, u)
    {
      assert G.Outside(before, after, p.n, top, 12, left, 32, i, j);
    }
  }

  /** C after one panel: the scaled sum for the first, added onto C after. */
  method UpdateC(output: array<real>, sum: seq<real>, p: Problem, top: nat, left: nat, ghost from: nat, ghost end: nat,
                 first: bool)
    requires Valid(p) && output.Length == p.m * p.n && TileSum(p, sum, top, left, from, end) && from < end
             && (first <==> from == 0)
    requires WindowDone(p, output[..], top, left, from)
    modifies output
    ensures WindowDone(p, output[..], top, left, end) && KeptElse(p, old(output[..]), output[..], top, left)
  {
    ghost var before := output[..];
    var tile := BuildTile(output[..], sum, p, top, left, from, end, first);
    MulOrder(top + 12, p.m, p.n);
    G.StoreTile(output, p.n, top, 12, left, 32, tile);
    WindowStored(p, before, output[..], top, left, tile, end);
  }

  method BuildTile(c: seq<real>, sum: seq<real>, p: Problem, top: nat, left: nat, ghost from: nat, ghost end: nat,
                   first: bool) returns (tile: seq<real>)
    requires Valid(p) && |c| == p.m * p.n && TileSum(p, sum, top, left, from, end) && from < end
             && (first <==> from == 0)
    requires WindowDone(p, c, top, left, from)
    ensures |tile| == 384 && forall r: nat, x: nat :: r < 12 && x < 32 ==> TileElement(p, tile, top, left, end, r, x)
  {
    tile := [];
    for r := 0 to 12
      invariant |tile| == r * 32 && forall i: nat, x: nat :: i < r && x < 32 ==>
                  TileElement(p, tile, top, left, end, i, x)
    {
      var row := UpdateRow(c, sum, p, top, left, r, from, end, first);
      ElementsAdded(p, tile, row, top, left, end, r);
      tile := tile + row;
    }
  }

  lemma ElementsAdded(p: Problem, before: seq<real>, row: seq<real>, top: nat, left: nat, end: nat, r: nat)
    requires Valid(p) && top + 12 <= p.m && left + 32 <= p.n && end <= p.k && r < 12 && |before| == r * 32
    requires forall i: nat, x: nat :: i < r && x < 32 ==> TileElement(p, before, top, left, end, i, x)
    requires |row| == 32 && forall x: nat :: x < 32 ==> row[x] == 0.125 * KernelSum(p, top + r, left + x, 0, end)
    ensures forall i: nat, x: nat :: i < r + 1 && x < 32 ==> TileElement(p, before + row, top, left, end, i, x)
  {
    var next := before + row;
    forall i: nat, x: nat | i < r + 1 && x < 32 ensures TileElement(p, next, top, left, end, i, x) {
      if i < r { assert TileElement(p, before, top, left, end, i, x); } else { assert next[r * 32 + x] == row[x]; }
    }
  }

  method UpdateRow(c: seq<real>, sum: seq<real>, p: Problem, top: nat, left: nat, r: nat, ghost from: nat,
                   ghost end: nat, first: bool) returns (row: seq<real>)
    requires Valid(p) && |c| == p.m * p.n && TileSum(p, sum, top, left, from, end) && from < end
             && (first <==> from == 0) && r < 12
    requires WindowDone(p, c, top, left, from)
    ensures |row| == 32 && forall x: nat :: x < 32 ==> row[x] == 0.125 * KernelSum(p, top + r, left + x, 0, end)
  {
    hide KernelSum, LaneSum, WindowDone;
    row := [];
    ghost var i := top + r;
    for x := 0 to 32
      invariant |row| == x && forall y: nat :: y < x ==> row[y] == 0.125 * KernelSum(p, i, left + y, 0, end)
    {
      var at := (top + r) * p.n + (left + x);
      LaneContinued(p, c, sum, top, left, from, end, r, x, at);
      var scaled := 0.125 * sum[r * 32 + x];
      row := row + [if first then scaled else c[at] + scaled];
    }
  }

  lemma LaneContinued(p: Problem, c: seq<real>, sum: seq<real>, top: nat, left: nat, from: nat, end: nat, r: nat,
                      x: nat, at: nat)
    requires Valid(p) && |c| == p.m * p.n && TileSum(p, sum, top, left, from, end) && from < end && r < 12 && x < 32
    requires WindowDone(p, c, top, left, from) && at == (top + r) * p.n + (left + x)
    ensures at < |c| && top + r < p.m && left + x < p.n && from < end <= p.k
    ensures var scaled := 0.125 * sum[r * 32 + x];
            (if from == 0 then scaled else c[at] + scaled) == 0.125 * KernelSum(p, top + r, left + x, 0, end)
  {
    var i, j := top + r, left + x;
    assert LaneSum(p, sum, top, left, from, end, r, x);
    assert Done(p, c, i, j, from);
    Continued(p, c, i, j, at, sum[r * 32 + x], from, end);
  }

  lemma Continued(p: Problem, c: seq<real>, i: nat, j: nat, at: nat, lane: real, from: nat, end: nat)
    requires Valid(p) && Done(p, c, i, j, from) && at == i * p.n + j && from < end <= p.k
             && lane == KernelSum(p, i, j, from, end)
    ensures (if from == 0 then 0.125 * lane else c[at] + 0.125 * lane) == 0.125 * KernelSum(p, i, j, 0, end)
  {
    PanelsAdd(p, i, j, 0, from, end);
    ScaledSum(KernelSum(p, i, j, 0, from), lane, KernelSum(p, i, j, 0, end));
  }

  lemma ScaledSum(x: real, y: real, z: real)
    requires x + y == z
    ensures 0.125 * x + 0.125 * y == 0.125 * z
  {}

  /** Rows `lo .. hi` of the 32 columns from `left` cover `upto` blocks. */
  ghost predicate StripDone(p: Problem, output: seq<real>, lo: nat, hi: nat, left: nat, upto: nat)
    requires Valid(p)
  {
    forall i: nat, j: nat :: lo <= i < hi && left <= j < left + 32 ==> Done(p, output, i, j, upto)
  }

  /** Columns outside the strip keep what they cover. */
  ghost predicate OtherColumns(p: Problem, before: seq<real>, after: seq<real>, left: nat)
    requires Valid(p)
  {
    forall i: nat, j: nat, u: nat :: !(left <= j < left + 32) && Done(p, before, i, j, u) ==> Done(p, after, i, j, u)
  }

  lemma StripStep(p: Problem, start: seq<real>, before: seq<real>, after: seq<real>, top: nat, left: nat, from: nat,
                  end: nat)
    requires Valid(p) && top + 12 <= p.m && StripDone(p, before, 0, top, left, end)
             && StripDone(p, before, top, p.m, left, from)
    requires WindowDone(p, after, top, left, end) && KeptElse(p, before, after, top, left)
             && OtherColumns(p, start, before, left)
    ensures StripDone(p, after, 0, top + 12, left, end) && StripDone(p, after, top + 12, p.m, left, from)
            && OtherColumns(p, start, after, left)
  {
    forall i: nat, j: nat | i < top + 12 && left <= j < left + 32
      ensures Done(p, after, i, j, end)
    {
      if i < top { assert Done(p, before, i, j, end); }
    }
    forall i: nat, j: nat | top + 12 <= i < p.m && left <= j < left + 32
      ensures Done(p, after, i, j, from)
    {
      assert Done(p, before, i, j, from);
    }
    forall i: nat, j: nat, u: nat | !(left <= j < left + 32) && Done(p, start, i, j, u)
      ensures Done(p, after, i, j, u)
    {
      assert Done(p, before, i, j, u);
    }
  }

  /** One K panel of one column tile: every row tile, whatever C holds before the
      first panel. */
  method PanelStrip(output: array<real>, immediate: bool, a: seq<seq<ABlock>>, w: seq<WBlock>, p: Problem,
                    ghost tilesM: nat, ghost tilesN: nat, left: nat, from: nat)
    requires Accepted(p, tilesM, tilesN) && output.Length == p.m * p.n && |a| == tilesM && |w| > 0
             && WBlocks(p, w, left, from)
    requires forall t: nat :: t < tilesM ==> |a[t]| == p.k && ABlocks(p, a[t], 12 * t, 0)
    requires StripDone(p, output[..], 0, p.m, left, from)
    modifies output
    ensures StripDone(p, output[..], 0, p.m, left, from + |w|) && OtherColumns(p, old(output[..]), output[..], left)
  {
    ghost var start, end := output[..], from + |w|;
    for mr := 0 to |a|
      invariant StripDone(p, output[..], 0, 12 * mr, left, end) && StripDone(p, output[..], 12 * mr, p.m, left, from)
      invariant OtherColumns(p, start, output[..], left)
    {
      ghost var before := output[..];
      ghost var top := 12 * mr;
      PanelBlocks(p, a[mr], top, from, |w|);
      var sum := SumTile(immediate, a[mr][from..from + |w|], w, p, top, left, from);
      UpdateC(output, sum, p, 12 * mr, left, from, end, from == 0);
      StripStep(p, start, before, output[..], top, left, from, end);
    }
  }

  lemma PanelBlocks(p: Problem, a: seq<ABlock>, top: nat, from: nat, count: nat)
    requires Valid(p) && |a| == p.k && ABlocks(p, a, top, 0) && from + count <= p.k
    ensures ABlocks(p, a[from..from + count], top, from)
  {
    var part := a[from..from + count];
    forall b: nat | b < count ensures ABlockAt(p, part, top, from, b) {
      var c := from + b;
      assert ABlockAt(p, a, top, 0, c);
    }
  }

  /** One column tile of the batch-reduce kernel: K in panels of 16384, each
      panel's weights decompressed once and used by every row tile. */
  method ColumnTileBr(output: array<real>, a: seq<seq<ABlock>>, p: Problem, ghost tilesM: nat, ghost tilesN: nat,
                      left: nat)
    requires Accepted(p, tilesM, tilesN) && output.Length == p.m * p.n && |a| == tilesM && left + 32 <= p.n
    requires forall t: nat :: t < tilesM ==> |a[t]| == p.k && ABlocks(p, a[t], 12 * t, 0)
    modifies output
    ensures StripDone(p, output[..], 0, p.m, left, p.k) && OtherColumns(p, old(output[..]), output[..], left)
  {
    AnyStrip(p, output[..], left);
    var kc: nat := 0;
    while kc * PANEL < p.k
      invariant StripDone(p, output[..], 0, p.m, left, if kc * PANEL < p.k then kc * PANEL else p.k)
      invariant OtherColumns(p, old(output[..]), output[..], left)
    {
      var count := if p.k - kc * PANEL < PANEL then p.k - kc * PANEL else PANEL;
      var w := Decompress(p, left, kc * PANEL, count);
      PanelStrip(output, false, a, w, p, tilesM, tilesN, left, kc * PANEL);
      kc := kc + 1;
    }
  }

  lemma AnyStrip(p: Problem, output: seq<real>, left: nat)
    requires Valid(p) && left + 32 <= p.n && |output| == p.m * p.n
    ensures StripDone(p, output, 0, p.m, left, 0)
  {
    forall i: nat, j: nat | i < p.m && left <= j < left + 32
      ensures Done(p, output, i, j, 0)
    {
      G.CellBound(p.m, p.n, i, j);
    }
  }

  /** Columns before `left` are complete. */
  ghost predicate ColumnsDone(p: Problem, output: seq<real>, left: nat)
    requires Valid(p)
  {
    forall i: nat, j: nat :: i < p.m && j < left ==> Done(p, output, i, j, p.k)
  }

  lemma ColumnsNext(p: Problem, before: seq<real>, after: seq<real>, left: nat)
    requires Valid(p) && ColumnsDone(p, before, left) && OtherColumns(p, before, after, left)
             && StripDone(p, after, 0, p.m, left, p.k)
    ensures ColumnsDone(p, after, left + 32)
  {
    forall i: nat, j: nat | i < p.m && j < left + 32
      ensures Done(p, after, i, j, p.k)
    {
      if j < left { assert Done(p, before, i, j, p.k); }
    }
  }

  /** The batch-reduce GEMM. */
  method MultiplyBr(output: array<real>, a: seq<seq<ABlock>>, p: Problem, tilesM: nat, tilesN: nat)
    requires Accepted(p, tilesM, tilesN) && output.Length == p.m * p.n && |a| == tilesM
    requires forall t: nat :: t < tilesM ==> |a[t]| == p.k && ABlocks(p, a[t], 12 * t, 0)
    modifies output
    ensures ColumnsDone(p, output[..], p.n)
  {
    for nr := 0 to tilesN
      invariant ColumnsDone(p, output[..], 32 * nr)
    {
      ghost var before := output[..];
      ColumnTileBr(output, a, p, tilesM, tilesN, 32 * nr);
      ColumnsNext(p, before, output[..], 32 * nr);
    }
  }

  /** The immediate-reduce GEMM: all weights decompressed first, row tiles outside. */
  method MultiplyIr(output: array<real>, a: seq<seq<ABlock>>, p: Problem, tilesM: nat, tilesN: nat)
    requires Accepted(p, tilesM, tilesN) && output.Length == p.m * p.n && |a| == tilesM
    requires forall t: nat :: t < tilesM ==> |a[t]| == p.k && ABlocks(p, a[t], 12 * t, 0)
    modifies output
    ensures ColumnsDone(p, output[..], p.n)
  {
    var decompressed: seq<seq<WBlock>> := [];
    for nr := 0 to tilesN
      invariant |decompressed| == nr && forall t: nat :: t < nr ==>
                  |decompressed[t]| == p.k && WBlocks(p, decompressed[t], 32 * t, 0)
    {
      var w := Decompress(p, 32 * nr, 0, p.k);
      decompressed := decompressed + [w];
    }
    for mr := 0 to tilesM
      invariant forall i: nat, j: nat :: i < 12 * mr && j < p.n ==> Done(p, output[..], i, j, p.k)
    {
      RowTileIr(output, a[mr], decompressed, p, tilesM, tilesN, mr);
    }
  }

  method RowTileIr(output: array<real>, a: seq<ABlock>, decompressed: seq<seq<WBlock>>, p: Problem, ghost tilesM: nat,
                   tilesN: nat, mr: nat)
    requires Accepted(p, tilesM, tilesN) && output.Length == p.m * p.n && mr < tilesM && |a| == p.k
             && ABlocks(p, a, 12 * mr, 0)
    requires |decompressed| == tilesN && forall t: nat :: t < tilesN ==>
               |decompressed[t]| == p.k && WBlocks(p, decompressed[t], 32 * t, 0)
    modifies output
    ensures forall i: nat, j: nat :: 12 * mr <= i < 12 * mr + 12 && j < p.n ==> Done(p, output[..], i, j, p.k)
    ensures forall i: nat, j: nat :: i < 12 * mr && old(Done(p, output[..], i, j, p.k)) ==>
              Done(p, output[..], i, j, p.k)
  {
    for nr := 0 to tilesN
      invariant forall i: nat, j: nat :: 12 * mr <= i < 12 * mr + 12 && j < 32 * nr ==> Done(p, output[..], i, j, p.k)
      invariant forall i: nat, j: nat :: i < 12 * mr && old(Done(p, output[..], i, j, p.k)) ==>
                  Done(p, output[..], i, j, p.k)
    {
      var sum := SumTile(true, a, decompressed[nr], p, 12 * mr, 32 * nr, 0);
      ghost var before := output[..];
      AnyWindow(p, output[..], 12 * mr, 32 * nr);
      UpdateC(output, sum, p, 12 * mr, 32 * nr, 0, p.k, true);
    }
  }

  lemma AnyWindow(p: Problem, output: seq<real>, top: nat, left: nat)
    requires Valid(p) && top + 12 <= p.m && left + 32 <= p.n && |output| == p.m * p.n
    ensures WindowDone(p, output, top, left, 0)
  {
    forall i: nat, j: nat | top <= i < top + 12 && left <= j < left + 32
      ensures Done(p, output, i, j, 0)
    {
      G.CellBound(p.m, p.n, i, j);
    }
  }

  /** Both kernels, end to end, for any shape: they agree with each other in every
      element, and with the reference in every column whose packed weights are
      safe, whatever the activations, and wherever the subblock sums of a row and
      column fit in 16 bits. */
  method Compare(p: Problem, tilesM: nat, tilesN: nat) returns (br: array<real>, ir: array<real>)
    requires Accepted(p, tilesM, tilesN)
    ensures br[..] == ir[..] && br.Length == p.m * p.n
    ensures forall i: nat, j: nat ::
            i < p.m && j < p.n && (forall b: nat :: b < p.k ==> Fits(ActAt(p, i, b), WtAt(p, j, b))) ==>
              IsReference(p, br[..], i, j)
    ensures forall i: nat, j: nat :: InRange(p) && i < p.m && j < p.n && SafeColumn(p.grid, PackedColumn(p, j)) ==>
              IsReference(p, br[..], i, j)
  {
    var a: seq<seq<ABlock>> := [];
    for t := 0 to tilesM
      invariant |a| == t && forall u: nat :: u < t ==> |a[u]| == p.k && ABlocks(p, a[u], 12 * u, 0)
    {
      var tile := PackRowTile(p, 12 * t);
      a := a + [tile];
    }
    br := new real[p.m * p.n];
    ir := new real[p.m * p.n];
    MultiplyBr(br, a, p, tilesM, tilesN);
    MultiplyIr(ir, a, p, tilesM, tilesN);
    SameOutputs(p, br[..], ir[..]);
    forall i: nat, j: nat | i < p.m && j < p.n && (forall b: nat :: b < p.k ==> Fits(ActAt(p, i, b), WtAt(p, j, b)))
      ensures IsReference(p, br[..], i, j)
    {
      assert Done(p, br[..], i, j, p.k);
      FitsIsReference(p, i, j, p.k);
    }
    forall i: nat, j: nat | InRange(p) && i < p.m && j < p.n && SafeColumn(p.grid, PackedColumn(p, j))
      ensures IsReference(p, br[..], i, j)
    {
      assert Done(p, br[..], i, j, p.k);
      SafeIsReference(p, i, j);
    }
  }

  ghost predicate IsReference(p: Problem, output: seq<real>, i: nat, j: nat)
    requires Valid(p) && i < p.m && j < p.n
  {
    i * p.n + j < |output| && output[i * p.n + j] == ReferenceSum(p, i, j, p.k)
  }

  lemma SameOutputs(p: Problem, x: seq<real>, y: seq<real>)
    requires Valid(p) && |x| == |y| == p.m * p.n && p.k > 0 && ColumnsDone(p, x, p.n) && ColumnsDone(p, y, p.n)
    ensures x == y
  {
    forall e | 0 <= e < p.m * p.n ensures x[e] == y[e] {
      if p.n > 0 {
        var i, j := G.DivMod(e, p.n, p.m);
        assert Done(p, x, i, j, p.k) && Done(p, y, i, j, p.k);
      }
    }
  }
}
