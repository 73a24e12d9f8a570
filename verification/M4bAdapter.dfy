/** The m4b adapter: each tile folded by the m4b kernel's own multiply-add and
    stored; over the reals the output is the reference product. */
module M4bAdapter {
  import opened BitArithmetic
  import opened Floats
  import opened Quantized
  import opened Reduction
  import opened Gemm
  import opened TileShapes
  import opened OutputCells
  import opened TileOperands
  import opened M4bKernel
  import opened M4iAdapter

  lemma OwnTableIs(p: Problem, top: nat, left: nat)
    requires Valid(p) && top + 4 <= p.m && left + 16 <= p.n
    ensures OwnTable(WindowTable(p, 4, 16, top, left, 0, p.k), RowsPanel(p, 4, top, 0, p.k),
                     ColumnsPanel(p, 16, left, 0, p.k), p.k)
  {
    WindowDescribed(p, 4, 16, top, left, 0, p.k);
  }

  lemma OwnMeets(p: Problem, tile: seq<Flt>, top: nat, left: nat)
    requires Valid(p) && top + 4 <= p.m && left + 16 <= p.n && |tile| == 64
    requires forall e :: 0 <= e < 64 ==> tile[e] == OwnFold(ZERO, WindowTable(p, 4, 16, top, left, 0, p.k)[e])
    ensures TileMeets(p, tile, top, 4, left, 16, Own)
  {
    forall r: nat, c: nat | r < 4 && c < 16 ensures TileCell(p, tile, top, left, 16, r, c, Own) {
      WindowTableAt(p, 4, 16, top, left, 0, p.k, r, c);
      WholeTerms(Terms(p, top + r, left + c));
    }
  }

  /** One tile of the kernel's column loop. */
  method ComputeOwnTile(output: array<Flt>, a: seq<ABlock>, b: seq<BBlock>, p: Problem, tm: nat, tn: nat)
    requires Valid(p) && output.Length == p.m * p.n && |a| == |b| == p.k && APanel(p, 4, a, 4 * tm, 0)
             && BPanel(p, 16, b, 16 * tn, 0)
    modifies output
    ensures WindowHolds(p, output[..], 4 * tm, 4, 16 * tn, 16, Own)
    ensures KeptOutside(p, old(output[..]), output[..], 4 * tm, 4, 16 * tn, 16)
  {
    OwnTableIs(p, 4 * tm, 16 * tn);
    PanelOperands(p, 4, 16, a, b, 4 * tm, 16 * tn, 0);
    var tile := KernelM4b(a, b, RowsPanel(p, 4, 4 * tm, 0, p.k), ColumnsPanel(p, 16, 16 * tn, 0, p.k),
                          WindowTable(p, 4, 16, 4 * tm, 16 * tn, 0, p.k));
    OwnMeets(p, tile, 4 * tm, 16 * tn);
    StoreWindow(output, p, 4 * tm, 4, 16 * tn, 16, tile, Own);
  }

  /** The m4b run, tile rows in order. */
  method RunOwn(output: array<Flt>, a: seq<seq<ABlock>>, b: seq<seq<BBlock>>, p: Problem, tilesM: nat, tilesN: nat)
    requires Accepted(p, tilesM, tilesN) && output.Length == p.m * p.n
    requires |a| == tilesM && APrepared(p, 4, a) && |b| == tilesN && BPrepared(p, 16, b)
    modifies output
    ensures AllCells(p, output[..], Own)
  {
    ghost var order := seq(tilesM, i requires 0 <= i < tilesM => i);
    for tm := 0 to tilesM
      invariant RowsHold(p, output[..], order, tm, 0, Own)
    {
      for tn := 0 to tilesN
        invariant RowsHold(p, output[..], order, tm, tn, Own)
      {
        assert ATile(p, 4, a, tm) && BTile(p, 16, b, tn);
        ghost var before := output[..];
        ComputeOwnTile(output, a[tm], b[tn], p, tm, tn);
        TileRowNext(p, before, output[..], order, tm, tn, Own);
      }
      RowFinished(p, output[..], order, tm, tilesN, Own);
    }
    InOrder(order, tilesM);
    AllRows(p, output[..], order, tilesM, Own);
  }

  lemma InOrder(order: seq<nat>, tiles: nat)
    requires |order| == tiles && forall i :: 0 <= i < tiles ==> order[i] == i
    ensures Schedule(order, tiles)
  {
    forall x | 0 <= x < tiles ensures x in order { assert order[x] == x; }
  }

  /** The m4b pipeline end to end: its own fold in every element, which over the
      reals is the reference dot product. */
  method MultiplyOwn(p: Problem, tilesM: nat, tilesN: nat) returns (output: array<Flt>)
    requires Accepted(p, tilesM, tilesN)
    ensures output.Length == p.m * p.n && AllCells(p, output[..], Own)
    ensures forall i: nat, j: nat :: i < p.m && j < p.n ==> Matches(p, output[..], i, j)
  {
    var a := PackActivations(p, 4, tilesM);
    var b := PackWeights(p, 16, tilesN);
    output := new Flt[p.m * p.n](_ => ZERO);
    RunOwn(output, a, b, p, tilesM, tilesN);
    forall i: nat, j: nat | i < p.m && j < p.n ensures Matches(p, output[..], i, j) {
      assert Cell(p, output[..], i, j, Own);
      OutputCells.OwnMatches(p, output[..], i, j);
    }
  }
}
