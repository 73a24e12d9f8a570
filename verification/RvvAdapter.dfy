/** The RVV adapters and the K, N and M loops of the RVV kernels: the output is
    the same product, operation by operation, as that of the matrix-unit kernels. */
module RvvAdapter {
  import opened BitArithmetic
  import opened Floats
  import opened Quantized
  import opened Quantizers
  import opened Reduction
  import opened Gemm
  import opened RvvKernel

  /** The shapes `validate_shape` admits (12 or 8 rows, 32 columns), with
      activations as the Q8_0 quantizer produces them. */
  ghost predicate Accepted(p: Problem, mr: Rows, tilesM: nat, tilesN: nat) {
    Valid(p) && p.m == tilesM * mr && p.n == tilesN * 32 && forall x :: 0 <= x < |p.act| ==> InRange(p.act[x])
  }

  function RowBlocks(p: Problem, mr: Rows, top: nat, b: nat): (r: seq<Q8>)
    requires |p.act| == p.m * p.k && top + mr <= p.m && b < p.k
    ensures |r| == mr
  {
    seq(mr, r requires 0 <= r < mr => CellBound(p.m, p.k, top + r, b); p.act[(top + r) * p.k + b])
  }

  function ColumnBlocks(p: Problem, left: nat, b: nat): (r: seq<Q4>)
    requires |p.wt| == p.n * p.k && left + 32 <= p.n && b < p.k
    ensures |r| == 32
  {
    seq(32, x requires 0 <= x < 32 => CellBound(p.n, p.k, left + x, b); p.wt[(left + x) * p.k + b])
  }

  // ---------- Packing ----------

  /** Codes written before byte step `z`, row `row`. */
  ghost predicate CodesTo(qs: seq<Int8>, mr: Rows, rows: seq<Q8>, z: nat, row: nat)
    requires |rows| == mr
  {
    |qs| == 32 * mr && forall y: nat, h: nat, r: nat :: y < 16 && h < 2 && r < mr && (y < z || (y == z && r < row)) ==>
        ACode(qs, mr, rows, y, h, r)
  }

  method PackA(mr: Rows, rows: seq<Q8>) returns (packed: ABlock)
    requires |rows| == mr
    ensures AInterleaved(packed, mr, rows)
  {
    var qs: seq<Int8> := seq(32 * mr, _ => 0);
    for z := 0 to 16
      invariant CodesTo(qs, mr, rows, z, 0)
    {
      for row := 0 to mr
        invariant CodesTo(qs, mr, rows, z, row)
      {
        ghost var before := qs;
        PlaceInjective(mr, z, 0, row, z, 0, row);
        PlaceInjective(mr, z, 1, row, z, 1, row);
        PlaceInjective(mr, z, 0, row, z, 1, row);
        qs := qs[Place(mr, z, 0, row) := rows[row].qs[z]];
        qs := qs[Place(mr, z, 1, row) := rows[row].qs[z + 16]];
        CodesNext(before, qs, mr, rows, z, row);
      }
    }
    packed := ABlock(qs, seq(mr, r requires 0 <= r < mr => rows[r].d));
  }

  lemma CodesNext(before: seq<Int8>, after: seq<Int8>, mr: Rows, rows: seq<Q8>, z: nat, row: nat)
    requires |rows| == mr && z < 16 && row < mr && CodesTo(before, mr, rows, z, row) && |after| == |before|
    requires ACode(after, mr, rows, z, 0, row) && ACode(after, mr, rows, z, 1, row)
    requires forall i :: 0 <= i < |before| && i != Place(mr, z, 0, row) && i != Place(mr, z, 1, row) ==>
               after[i] == before[i]
    ensures CodesTo(after, mr, rows, z, row + 1)
  {
    forall y: nat, h: nat, r: nat | y < 16 && h < 2 && r < mr && (y < z || (y == z && r < row + 1))
      ensures ACode(after, mr, rows, y, h, r)
    {
      if (y, r) != (z, row) {
        assert ACode(before, mr, rows, y, h, r);
        PlaceInjective(mr, z, 0, row, y, h, r);
        PlaceInjective(mr, z, 1, row, y, h, r);
      }
    }
  }

  method PackB(columns: seq<Q4>) returns (packed: BBlock)
    requires |columns| == 32
    ensures BInterleaved(packed, columns)
  {
    var qs: seq<Byte> := seq(512, _ => 0);
    for x := 0 to 32
      invariant |qs| == 512 && forall y: nat, c: nat :: y < 16 && c < x ==> BCode(qs, columns, y, c)
    {
      for z := 0 to 16
        invariant |qs| == 512 && forall y: nat, c: nat :: y < 16 && (c < x || (c == x && y < z)) ==>
                    BCode(qs, columns, y, c)
      {
        ghost var before := qs;
        qs := qs[z * 32 + x := columns[x].qs[z]];
        forall y: nat, c: nat | y < 16 && (c < x || (c == x && y < z + 1)) ensures BCode(qs, columns, y, c) {
          if (y, c) != (z, x) { assert BCode(before, columns, y, c); }
        }
      }
    }
    packed := BBlock(qs, seq(32, x requires 0 <= x < 32 => columns[x].d));
  }

  ghost predicate AReady(p: Problem, mr: Rows, packed: seq<ABlock>, tm: nat, b: nat)
    requires Valid(p)
  {
    b < p.k && tm * mr + mr <= p.m && tm * p.k + b < |packed|
        && AInterleaved(packed[tm * p.k + b], mr, RowBlocks(p, mr, tm * mr, b))
  }

  ghost predicate BReady(p: Problem, packed: seq<BBlock>, tn: nat, b: nat)
    requires Valid(p)
  {
    b < p.k && tn * 32 + 32 <= p.n && tn * p.k + b < |packed|
        && BInterleaved(packed[tn * p.k + b], ColumnBlocks(p, tn * 32, b))
  }

  /** Packed tile by tile, block by block, up to block `block` of tile `tile`. */
  ghost predicate APackedTo(p: Problem, mr: Rows, packed: seq<ABlock>, tile: nat, block: nat)
    requires Valid(p)
  {
    && |packed| == tile * p.k + block
    && forall t: nat, b: nat :: b < p.k && (t < tile || (t == tile && b < block)) ==> AReady(p, mr, packed, t, b)
  }

  ghost predicate BPackedTo(p: Problem, packed: seq<BBlock>, tile: nat, block: nat)
    requires Valid(p)
  {
    && |packed| == tile * p.k + block
    && forall t: nat, b: nat :: b < p.k && (t < tile || (t == tile && b < block)) ==> BReady(p, packed, t, b)
  }

  lemma APackedNext(p: Problem, mr: Rows, packed: seq<ABlock>, packedBlock: ABlock, tile: nat, block: nat)
    requires Valid(p) && block < p.k && APackedTo(p, mr, packed, tile, block) && tile * mr + mr <= p.m
    requires AInterleaved(packedBlock, mr, RowBlocks(p, mr, tile * mr, block))
    ensures APackedTo(p, mr, packed + [packedBlock], tile, block + 1)
  {
    var next := packed + [packedBlock];
    forall t: nat, b: nat | b < p.k && (t < tile || (t == tile && b < block + 1)) ensures AReady(p, mr, next, t, b) {
      if (t, b) != (tile, block) { assert AReady(p, mr, packed, t, b); }
    }
  }

  lemma BPackedNext(p: Problem, packed: seq<BBlock>, packedBlock: BBlock, tile: nat, block: nat)
    requires Valid(p) && block < p.k && BPackedTo(p, packed, tile, block) && tile * 32 + 32 <= p.n
    requires BInterleaved(packedBlock, ColumnBlocks(p, tile * 32, block))
    ensures BPackedTo(p, packed + [packedBlock], tile, block + 1)
  {
    var next := packed + [packedBlock];
    forall t: nat, b: nat | b < p.k && (t < tile || (t == tile && b < block + 1)) ensures BReady(p, next, t, b) {
      if (t, b) != (tile, block) { assert BReady(p, packed, t, b); }
    }
  }

  method Prepare(p: Problem, mr: Rows, tilesM: nat, tilesN: nat) returns (a: seq<ABlock>, b: seq<BBlock>)
    requires Accepted(p, mr, tilesM, tilesN)
    ensures APackedTo(p, mr, a, tilesM, 0) && BPackedTo(p, b, tilesN, 0)
  {
    a, b := [], [];
    for tile := 0 to tilesM
      invariant APackedTo(p, mr, a, tile, 0)
    {
      MulStep(mr, tile, tilesM);
      for block := 0 to p.k
        invariant APackedTo(p, mr, a, tile, block)
      {
        var packed := PackA(mr, RowBlocks(p, mr, tile * mr, block));
        APackedNext(p, mr, a, packed, tile, block);
        a := a + [packed];
      }
    }
    for tile := 0 to tilesN
      invariant BPackedTo(p, b, tile, 0)
    {
      MulStep(32, tile, tilesN);
      for block := 0 to p.k
        invariant BPackedTo(p, b, tile, block)
      {
        var packed := PackB(ColumnBlocks(p, tile * 32, block));
        BPackedNext(p, b, packed, tile, block);
        b := b + [packed];
      }
    }
  }

  // ---------- The kernel's K loop ----------

  /** The terms of the tile whose first element is `(top, left)`. */
  function TileTable(p: Problem, mr: Rows, top: nat, left: nat): (r: seq<seq<Term>>)
    requires |p.act| == p.m * p.k && |p.wt| == p.n * p.k && top + mr <= p.m && left + 32 <= p.n
    ensures Shaped(r, 32 * mr, p.k)
  {
    seq(32 * mr, e requires 0 <= e < 32 * mr => Terms(p, top + e / 32, left + e % 32))
  }

  lemma TableAt(p: Problem, mr: Rows, top: nat, left: nat, r: nat, x: nat)
    requires Valid(p) && top + mr <= p.m && left + 32 <= p.n && r < mr && x < 32
    ensures TileTable(p, mr, top, left)[r * 32 + x] == Terms(p, top + r, left + x)
  {
    assert (r * 32 + x) / 32 == r && (r * 32 + x) % 32 == x;
  }

  lemma TableTerm(p: Problem, mr: Rows, top: nat, left: nat, b: nat, r: nat, x: nat)
    requires Valid(p) && top + mr <= p.m && left + 32 <= p.n && b < p.k && r < mr && x < 32
    ensures TileTable(p, mr, top, left)[r * 32 + x][b]
            == BlockTerm(ColumnBlocks(p, left, b)[x], RowBlocks(p, mr, top, b)[r])
  {
    TableAt(p, mr, top, left, r, x);
    TileTermAt(p, mr, top, left, b, r, x);
  }

  lemma TileTermAt(p: Problem, mr: Rows, top: nat, left: nat, b: nat, r: nat, x: nat)
    requires Valid(p) && top + mr <= p.m && left + 32 <= p.n && b < p.k && r < mr && x < 32
    ensures Terms(p, top + r, left + x)[b] == BlockTerm(ColumnBlocks(p, left, b)[x], RowBlocks(p, mr, top, b)[r])
  {
    TermAt(p, top + r, left + x, b);
  }

  /** The rows' sums side by side. */
  method Flatten(sums: seq<seq<int>>) returns (component: seq<int>)
    requires forall r :: 0 <= r < |sums| ==> |sums[r]| == 32
    ensures |component| == 32 * |sums|
    ensures forall r: nat :: r < |sums| ==> component[32 * r..32 * r + 32] == sums[r]
  {
    component := [];
    for row := 0 to |sums|
      invariant |component| == 32 * row
      invariant forall r: nat :: r < row ==> component[32 * r..32 * r + 32] == sums[r]
    {
      ghost var before := component;
      component := component + sums[row];
      forall r: nat | r < row
        ensures component[32 * r..32 * r + 32] == sums[r]
      {
        assert component[32 * r..32 * r + 32] == before[32 * r..32 * r + 32];
      }
    }
  }

  lemma BlockEntries(p: Problem, mr: Rows, top: nat, left: nat, b: nat, ab: ABlock, bb: BBlock, sums: seq<seq<int>>,
                     component: seq<int>)
    requires Valid(p) && top + mr <= p.m && left + 32 <= p.n && b < p.k
    requires AInterleaved(ab, mr, RowBlocks(p, mr, top, b)) && BInterleaved(bb, ColumnBlocks(p, left, b))
    requires TileHolds(sums, RowBlocks(p, mr, top, b), ColumnBlocks(p, left, b), 16, 0)
    requires |component| == 32 * mr && forall r: nat :: r < mr ==> component[32 * r..32 * r + 32] == sums[r]
    ensures Entries(TileTable(p, mr, top, left), p.k, b, component, bb.d, ab.d)
  {
    var table := TileTable(p, mr, top, left);
    forall r: nat, x: nat | r < mr && x < 32 ensures EntryAt(table, p.k, b, component, bb.d, ab.d, r, x) {
      SumsAreBlockDots(sums, RowBlocks(p, mr, top, b), ColumnBlocks(p, left, b), r, x);
      assert component[32 * r..32 * r + 32][x] == sums[r][x];
      TableTerm(p, mr, top, left, b, r, x);
    }
  }

  /** One K block: the sixteen-bit sums, converted, scaled and added to `sum_row`. */
  method ReduceBlock(sumRow: seq<Flt>, ab: ABlock, bb: BBlock, mr: Rows, ghost p: Problem, ghost top: nat,
                     ghost left: nat, ghost b: nat, ghost zero: seq<Flt>) returns (next: seq<Flt>)
    requires Valid(p) && top + mr <= p.m && left + 32 <= p.n && b < p.k && |zero| == |sumRow| == 32 * mr
    requires forall x :: 0 <= x < |p.act| ==> InRange(p.act[x])
    requires AInterleaved(ab, mr, RowBlocks(p, mr, top, b)) && BInterleaved(bb, ColumnBlocks(p, left, b))
    requires Folded(zero, sumRow, TileTable(p, mr, top, left), p.k, 0, b)
    ensures |next| == 32 * mr && Folded(zero, next, TileTable(p, mr, top, left), p.k, 0, b + 1)
  {
    ghost var rows, columns, table := RowBlocks(p, mr, top, b), ColumnBlocks(p, left, b), TileTable(p, mr, top, left);
    RowsInRange(p, mr, top, b);
    var sums := BlockSums(ab, bb, mr, rows, columns);
    forall r: nat | r < mr ensures |sums[r]| == 32 { assert RowHolds(sums[r], rows[r], columns, 16, 0); }
    var component := Flatten(sums);
    BlockEntries(p, mr, top, left, b, ab, bb, sums, component);
    next := ReduceTile(sumRow, component, bb.d, ab.d);
    TileReducedSteps(sumRow, next, table, p.k, b, component, bb.d, ab.d);
    FoldedStep(zero, sumRow, next, table, p.k, 0, b);
  }

  lemma RowsInRange(p: Problem, mr: Rows, top: nat, b: nat)
    requires Valid(p) && top + mr <= p.m && b < p.k && forall x :: 0 <= x < |p.act| ==> InRange(p.act[x])
    ensures forall r: nat :: r < mr ==> InRange(RowBlocks(p, mr, top, b)[r])
  {
    forall r: nat | r < mr ensures InRange(RowBlocks(p, mr, top, b)[r]) { CellBound(p.m, p.k, top + r, b); }
  }

  /** The kernel on one tile. */
  method SumTile(a: seq<ABlock>, b: seq<BBlock>, mr: Rows, ghost p: Problem, ghost tm: nat, ghost tn: nat)
    returns (sumRow: seq<Flt>)
    requires Valid(p) && |a| == |b| == p.k && tm * mr + mr <= p.m && tn * 32 + 32 <= p.n
             && forall x :: 0 <= x < |p.act| ==> InRange(p.act[x])
    requires forall i: nat :: i < p.k ==> AInterleaved(a[i], mr, RowBlocks(p, mr, tm * mr, i))
    requires forall i: nat :: i < p.k ==> BInterleaved(b[i], ColumnBlocks(p, tn * 32, i))
    ensures IsTile(p, sumRow, mr, 32, tm, tn)
  {
    sumRow := seq(32 * mr, _ => ZERO);
    ghost var zero, table := sumRow, TileTable(p, mr, tm * mr, tn * 32);
    FoldedNone(zero, table, p.k, 0);
    for block := 0 to |a|
      invariant |sumRow| == 32 * mr && Folded(zero, sumRow, table, p.k, 0, block)
    {
      sumRow := ReduceBlock(sumRow, a[block], b[block], mr, p, tm * mr, tn * 32, block, zero);
    }
    FoldedTile(p, mr, tm, tn, zero, sumRow);
  }

  lemma FoldedTile(p: Problem, mr: Rows, tm: nat, tn: nat, zero: seq<Flt>, tile: seq<Flt>)
    requires Valid(p) && tm * mr + mr <= p.m && tn * 32 + 32 <= p.n && zero == seq(32 * mr, _ => ZERO)
    requires Folded(zero, tile, TileTable(p, mr, tm * mr, tn * 32), p.k, 0, p.k)
    ensures IsTile(p, tile, mr, 32, tm, tn)
  {
    forall r: nat, c: nat | r < mr && c < 32 ensures TileEntry(p, tile, mr, 32, tm, tn, r, c) {
      FoldedElement(p, mr, tm * mr, tn * 32, zero, tile, r, c);
      FoldedEntry(p, mr, tm, tn, tm * mr, tile, r, c);
    }
  }

  lemma FoldedEntry(p: Problem, mr: Rows, tm: nat, tn: nat, top: nat, tile: seq<Flt>, r: nat, c: nat)
    requires Valid(p) && top == tm * mr && top + mr <= p.m && tn * 32 + 32 <= p.n && r < mr && c < 32
    requires r * 32 + c < |tile| && tile[r * 32 + c] == Element(p, top + r, tn * 32 + c)
    ensures TileEntry(p, tile, mr, 32, tm, tn, r, c)
  {}

  lemma FoldedElement(p: Problem, mr: Rows, top: nat, left: nat, zero: seq<Flt>, tile: seq<Flt>, r: nat, c: nat)
    requires Valid(p) && top + mr <= p.m && left + 32 <= p.n && r < mr && c < 32 && zero == seq(32 * mr, _ => ZERO)
    requires Folded(zero, tile, TileTable(p, mr, top, left), p.k, 0, p.k)
    ensures tile[r * 32 + c] == Element(p, top + r, left + c)
  {
    TableAt(p, mr, top, left, r, c);
    WholeTerms(Terms(p, top + r, left + c));
  }

  // ---------- The tile loops ----------

  /** One call of the kernel: tile `(tm, tn)` of the output. */
  method RunTile(a: seq<ABlock>, b: seq<BBlock>, mr: Rows, output: array<Flt>, p: Problem, ghost tilesM: nat,
                 ghost tilesN: nat, tm: nat, tn: nat)
    requires Accepted(p, mr, tilesM, tilesN) && tm < tilesM && tn < tilesN && output.Length == p.m * p.n
    requires APackedTo(p, mr, a, tilesM, 0) && BPackedTo(p, b, tilesN, 0)
    modifies output
    ensures forall um: nat, un: nat :: old(TileDone(p, output[..], mr, 32, um, un)) ==>
              TileDone(p, output[..], mr, 32, um, un)
    ensures TileDone(p, output[..], mr, 32, tm, tn)
  {
    var ta, tb := tm * p.k, tn * p.k;
    TileOperands(p, mr, a, b, tilesM, tilesN, tm, tn, ta, tb);
    var tile := SumTile(a[ta..ta + p.k], b[tb..tb + p.k], mr, p, tm, tn);
    StoreAt(output, mr, p, tilesM, tm, tn, tile);
  }

  method StoreAt(output: array<Flt>, mr: Rows, p: Problem, ghost tilesM: nat, tm: nat, tn: nat, tile: seq<Flt>)
    requires Valid(p) && p.m == tilesM * mr && tm < tilesM && tn * 32 + 32 <= p.n && output.Length == p.m * p.n
             && IsTile(p, tile, mr, 32, tm, tn)
    modifies output
    ensures forall um: nat, un: nat :: old(TileDone(p, output[..], mr, 32, um, un)) ==>
              TileDone(p, output[..], mr, 32, um, un)
    ensures TileDone(p, output[..], mr, 32, tm, tn)
  {
    ghost var before := output[..];
    TileRowsFit(p.m, p.n, tilesM, mr, tm);
    StoreTile(output, p.n, tm * mr, mr, tn * 32, 32, tile);
    TileStored(p, before, output[..], mr, 32, tm, tn, tile);
  }

  lemma TileRowsFit(m: nat, n: nat, tilesM: nat, mr: nat, tm: nat)
    requires m == tilesM * mr && tm < tilesM
    ensures (tm * mr + mr) * n <= m * n
  {
    MulStep(mr, tm, tilesM);
    MulOrder(tm * mr + mr, m, n);
  }

  lemma TileOperands(p: Problem, mr: Rows, a: seq<ABlock>, b: seq<BBlock>, tilesM: nat, tilesN: nat, tm: nat, tn: nat,
                     ta: nat, tb: nat)
    requires Accepted(p, mr, tilesM, tilesN) && tm < tilesM && tn < tilesN && ta == tm * p.k && tb == tn * p.k
    requires APackedTo(p, mr, a, tilesM, 0) && BPackedTo(p, b, tilesN, 0)
    ensures tm * mr + mr <= p.m && tn * 32 + 32 <= p.n && ta + p.k <= |a| && tb + p.k <= |b|
    ensures forall i: nat :: i < p.k ==> AInterleaved(a[ta..ta + p.k][i], mr, RowBlocks(p, mr, tm * mr, i))
    ensures forall i: nat :: i < p.k ==> BInterleaved(b[tb..tb + p.k][i], ColumnBlocks(p, tn * 32, i))
  {
    OperandBounds(p, mr, a, b, tilesM, tilesN, tm, tn, ta, tb);
    AOperands(p, mr, a, tilesM, tm, ta);
    BOperands(p, b, tilesN, tn, tb);
  }

  lemma OperandBounds(p: Problem, mr: Rows, a: seq<ABlock>, b: seq<BBlock>, tilesM: nat, tilesN: nat, tm: nat, tn: nat,
                      ta: nat, tb: nat)
    requires Accepted(p, mr, tilesM, tilesN) && tm < tilesM && tn < tilesN && ta == tm * p.k && tb == tn * p.k
    requires |a| == tilesM * p.k && |b| == tilesN * p.k
    ensures tm * mr + mr <= p.m && tn * 32 + 32 <= p.n && ta + p.k <= |a| && tb + p.k <= |b|
  {
    MulStep(mr, tm, tilesM);
    MulStep(32, tn, tilesN);
    MulStep(p.k, tm, tilesM);
    MulStep(p.k, tn, tilesN);
  }

  lemma AOperands(p: Problem, mr: Rows, a: seq<ABlock>, tilesM: nat, tm: nat, ta: nat)
    requires Valid(p) && tm < tilesM && APackedTo(p, mr, a, tilesM, 0) && ta == tm * p.k && ta + p.k <= |a|
             && tm * mr + mr <= p.m
    ensures forall i: nat :: i < p.k ==> AInterleaved(a[ta..ta + p.k][i], mr, RowBlocks(p, mr, tm * mr, i))
  {
    forall i: nat | i < p.k ensures AInterleaved(a[ta..ta + p.k][i], mr, RowBlocks(p, mr, tm * mr, i)) {
      assert AReady(p, mr, a, tm, i);
      AOperand(p, mr, a, tm, ta, i);
    }
  }

  lemma BOperands(p: Problem, b: seq<BBlock>, tilesN: nat, tn: nat, tb: nat)
    requires Valid(p) && tn < tilesN && BPackedTo(p, b, tilesN, 0) && tb == tn * p.k && tb + p.k <= |b|
             && tn * 32 + 32 <= p.n
    ensures forall i: nat :: i < p.k ==> BInterleaved(b[tb..tb + p.k][i], ColumnBlocks(p, tn * 32, i))
  {
    forall i: nat | i < p.k ensures BInterleaved(b[tb..tb + p.k][i], ColumnBlocks(p, tn * 32, i)) {
      assert BReady(p, b, tn, i);
      BOperand(p, b, tn, tb, i);
    }
  }

  lemma AOperand(p: Problem, mr: Rows, a: seq<ABlock>, tm: nat, ta: nat, i: nat)
    requires Valid(p) && AReady(p, mr, a, tm, i) && ta == tm * p.k && ta + p.k <= |a|
    ensures i < p.k && tm * mr + mr <= p.m && AInterleaved(a[ta..ta + p.k][i], mr, RowBlocks(p, mr, tm * mr, i))
  {}

  lemma BOperand(p: Problem, b: seq<BBlock>, tn: nat, tb: nat, i: nat)
    requires Valid(p) && BReady(p, b, tn, i) && tb == tn * p.k && tb + p.k <= |b|
    ensures i < p.k && tn * 32 + 32 <= p.n && BInterleaved(b[tb..tb + p.k][i], ColumnBlocks(p, tn * 32, i))
  {}

  /** The RVV pipelines end to end: because the activation codes lie within 127,
      no 16-bit sum wraps, and the output is the product. */
  method Multiply(p: Problem, mr: Rows, tilesM: nat, tilesN: nat, iterations: nat) returns (output: array<Flt>)
    requires Accepted(p, mr, tilesM, tilesN) && iterations >= 1
    ensures output.Length == p.m * p.n && IsProduct(p, output[..])
    ensures forall i: nat, j: nat :: i < p.m && j < p.n ==> Matches(p, output[..], i, j)
  {
    var a, b := Prepare(p, mr, tilesM, tilesN);
    output := new Flt[p.m * p.n](_ => ZERO);
    for iteration := 0 to iterations
      invariant iteration > 0 ==> IsProduct(p, output[..])
    {
      RunOnce(a, b, mr, output, p, tilesM, tilesN);
    }
    forall i: nat, j: nat | i < p.m && j < p.n
      ensures Matches(p, output[..], i, j)
    {
      ComputedIsReference(p, output[..], i, j);
    }
  }

  method RunOnce(a: seq<ABlock>, b: seq<BBlock>, mr: Rows, output: array<Flt>, p: Problem, tilesM: nat, tilesN: nat)
    requires Accepted(p, mr, tilesM, tilesN) && output.Length == p.m * p.n
    requires APackedTo(p, mr, a, tilesM, 0) && BPackedTo(p, b, tilesN, 0)
    modifies output
    ensures IsProduct(p, output[..])
  {
    for tm := 0 to tilesM
      invariant forall um, un :: 0 <= um < tm && 0 <= un < tilesN ==> TileDone(p, output[..], mr, 32, um, un)
    {
      for tn := 0 to tilesN
        invariant forall um, un :: 0 <= um < tm && 0 <= un < tilesN ==> TileDone(p, output[..], mr, 32, um, un)
        invariant forall un :: 0 <= un < tn ==> TileDone(p, output[..], mr, 32, tm, un)
      {
        RunTile(a, b, mr, output, p, tilesM, tilesN, tm, tn);
      }
    }
    AllTilesDone(p, output[..], mr, 32, tilesM, tilesN);
  }
}
