/** Row-major output elements and how far each has come, for the kernels that
    accumulate in the output itself or copy finished tiles into it. */
module OutputCells {
  import opened BitArithmetic
  import opened Floats
  import opened Quantized
  import opened Gemm
  import opened M4bKernel

  /** What an element holds: anything, its fold over the first blocks, or the m4b
      kernel's own fold over all of them. */
  datatype Goal = Anything | Upto(blocks: nat) | Own

  ghost predicate Meets(p: Problem, x: Flt, i: nat, j: nat, goal: Goal)
    requires Valid(p) && i < p.m && j < p.n
  {
    match goal
    case Anything => true
    case Upto(blocks) => blocks <= p.k && x == Fold(ZERO, Terms(p, i, j)[..blocks])
    case Own => x == OwnFold(ZERO, Terms(p, i, j))
  }

  ghost predicate Cell(p: Problem, output: seq<Flt>, i: nat, j: nat, goal: Goal)
    requires Valid(p)
  {
    i < p.m && j < p.n && CellAt(p, output, i, j, goal, Place(p.n, i, j))
  }

  function Place(width: nat, i: nat, j: nat): nat { i * width + j }

  ghost predicate CellAt(p: Problem, output: seq<Flt>, i: nat, j: nat, goal: Goal, at: nat)
    requires Valid(p) && i < p.m && j < p.n
  {
    at < |output| && Meets(p, output[at], i, j, goal)
  }

  /** A row-major tile whose element `(r, c)` is to be output element `(top + r, left + c)`. */
  ghost predicate TileMeets(p: Problem, tile: seq<Flt>, top: nat, rows: nat, left: nat, columns: nat, goal: Goal)
    requires Valid(p)
  {
    && |tile| == rows * columns && top + rows <= p.m && left + columns <= p.n
    && forall r: nat, c: nat :: r < rows && c < columns ==> TileCell(p, tile, top, left, columns, r, c, goal)
  }

  ghost predicate TileCell(p: Problem, tile: seq<Flt>, top: nat, left: nat, columns: nat, r: nat, c: nat, goal: Goal)
    requires Valid(p)
  {
    top + r < p.m && left + c < p.n && CellAt(p, tile, top + r, left + c, goal, Place(columns, r, c))
  }

  predicate Inside(i: nat, j: nat, top: nat, rows: nat, left: nat, columns: nat) {
    top <= i < top + rows && left <= j < left + columns
  }

  ghost predicate WindowHolds(p: Problem, output: seq<Flt>, top: nat, rows: nat, left: nat, columns: nat, goal: Goal)
    requires Valid(p)
  {
    forall i: nat, j: nat :: Inside(i, j, top, rows, left, columns) ==> Cell(p, output, i, j, goal)
  }

  /** Elements outside the window keep what they hold. */
  ghost predicate KeptOutside(p: Problem, before: seq<Flt>, after: seq<Flt>, top: nat, rows: nat, left: nat,
                              columns: nat)
    requires Valid(p)
  {
    forall i: nat, j: nat, goal: Goal ::
      !Inside(i, j, top, rows, left, columns) && Cell(p, before, i, j, goal) ==> Cell(p, after, i, j, goal)
  }

  lemma StoredCell(p: Problem, after: seq<Flt>, top: nat, rows: nat, left: nat, columns: nat, tile: seq<Flt>,
                   goal: Goal, r: nat, c: nat)
    requires Valid(p) && |after| == p.m * p.n && TileMeets(p, tile, top, rows, left, columns, goal) && r < rows
             && c < columns
    requires RowsStored(after, p.n, top, left, columns, tile, rows)
    ensures Cell(p, after, top + r, left + c, goal)
  {
    assert TileCell(p, tile, top, left, columns, r, c, goal) && RowStored(after, p.n, top, left, columns, tile, r);
    CellBound(p.m, p.n, top + r, left + c);
    SliceAgree(after, (top + r) * p.n + left, tile, r * columns, columns, c);
    CellMoved(p, tile, after, top + r, left + c, goal, Place(columns, r, c), Place(p.n, top + r, left + c));
  }

  lemma CellMoved(p: Problem, x: seq<Flt>, y: seq<Flt>, i: nat, j: nat, goal: Goal, at: nat, to': nat)
    requires Valid(p) && i < p.m && j < p.n && CellAt(p, x, i, j, goal, at) && to' < |y| && y[to'] == x[at]
    ensures CellAt(p, y, i, j, goal, to')
  {}

  lemma OutsideCell(p: Problem, before: seq<Flt>, after: seq<Flt>, top: nat, rows: nat, left: nat, columns: nat, i: nat,
                    j: nat, goal: Goal)
    requires Valid(p) && SameOutside(before, after, p.n, top, rows, left, columns)
    requires !Inside(i, j, top, rows, left, columns) && Cell(p, before, i, j, goal)
    ensures Cell(p, after, i, j, goal)
  {
    assert Outside(before, after, p.n, top, rows, left, columns, i, j);
    CellMoved(p, before, after, i, j, goal, Place(p.n, i, j), Place(p.n, i, j));
  }

  lemma WindowStored(p: Problem, before: seq<Flt>, after: seq<Flt>, top: nat, rows: nat, left: nat, columns: nat,
                     tile: seq<Flt>, goal: Goal)
    requires Valid(p) && |before| == |after| == p.m * p.n && TileMeets(p, tile, top, rows, left, columns, goal)
    requires RowsStored(after, p.n, top, left, columns, tile, rows)
             && SameOutside(before, after, p.n, top, rows, left, columns)
    ensures WindowHolds(p, after, top, rows, left, columns, goal)
            && KeptOutside(p, before, after, top, rows, left, columns)
  {
    forall i: nat, j: nat | Inside(i, j, top, rows, left, columns) ensures Cell(p, after, i, j, goal) {
      StoredCell(p, after, top, rows, left, columns, tile, goal, i - top, j - left);
    }
    forall i: nat, j: nat, g: Goal | !Inside(i, j, top, rows, left, columns) && Cell(p, before, i, j, g)
      ensures Cell(p, after, i, j, g)
    {
      OutsideCell(p, before, after, top, rows, left, columns, i, j, g);
    }
  }

  /** Copies a finished tile to its window. */
  method StoreWindow(output: array<Flt>, p: Problem, top: nat, rows: nat, left: nat, columns: nat, tile: seq<Flt>,
                     ghost goal: Goal)
    requires Valid(p) && output.Length == p.m * p.n && TileMeets(p, tile, top, rows, left, columns, goal)
    modifies output
    ensures WindowHolds(p, output[..], top, rows, left, columns, goal)
    ensures KeptOutside(p, old(output[..]), output[..], top, rows, left, columns)
  {
    ghost var before := output[..];
    MulOrder(top + rows, p.m, p.n);
    StoreTile(output, p.n, top, rows, left, columns, tile);
    WindowStored(p, before, output[..], top, rows, left, columns, tile, goal);
  }

  /** Reads a window, row by row. */
  method LoadWindow(output: array<Flt>, p: Problem, top: nat, rows: nat, left: nat, columns: nat, ghost goal: Goal)
    returns (tile: seq<Flt>)
    requires Valid(p) && output.Length == p.m * p.n && top + rows <= p.m && left + columns <= p.n
    requires WindowHolds(p, output[..], top, rows, left, columns, goal)
    ensures TileMeets(p, tile, top, rows, left, columns, goal)
  {
    tile := [];
    for r := 0 to rows
      invariant |tile| == r * columns
      invariant forall x: nat, c: nat :: x < r && c < columns ==> TileCell(p, tile, top, left, columns, x, c, goal)
    {
      tile := LoadRow(output, p, top, rows, left, columns, tile, r, goal);
    }
  }

  method LoadRow(output: array<Flt>, p: Problem, top: nat, ghost rows: nat, left: nat, columns: nat, tile: seq<Flt>,
                 r: nat, ghost goal: Goal) returns (next: seq<Flt>)
    requires Valid(p) && output.Length == p.m * p.n && r < rows && top + rows <= p.m && left + columns <= p.n
             && |tile| == r * columns
    requires WindowHolds(p, output[..], top, rows, left, columns, goal)
    requires forall x: nat, c: nat :: x < r && c < columns ==> TileCell(p, tile, top, left, columns, x, c, goal)
    ensures |next| == (r + 1) * columns
    ensures forall x: nat, c: nat :: x < r + 1 && c < columns ==> TileCell(p, next, top, left, columns, x, c, goal)
  {
    RowWithin(p.m, p.n, top + r, left, columns);
    var at := (top + r) * p.n + left;
    next := tile + output[at..at + columns];
    forall x: nat, c: nat | x < r + 1 && c < columns ensures TileCell(p, next, top, left, columns, x, c, goal) {
      if x < r {
        TileCellKept(p, tile, next, top, left, columns, x, c, r, goal);
      } else { LoadedCell(p, output[..], tile, top, left, columns, r, c, goal, at, rows); }
    }
  }

  lemma RowWithin(m: nat, n: nat, i: nat, left: nat, columns: nat)
    requires i < m && left + columns <= n
    ensures 0 <= i * n && i * n + left + columns <= m * n
  {
    MulStep(n, i, m);
  }

  lemma TileCellKept(p: Problem, tile: seq<Flt>, next: seq<Flt>, top: nat, left: nat, columns: nat, x: nat, c: nat,
                     r: nat, goal: Goal)
    requires Valid(p) && TileCell(p, tile, top, left, columns, x, c, goal) && |tile| <= |next| && next[..|tile|] == tile
    ensures TileCell(p, next, top, left, columns, x, c, goal)
  {
    assert next[..|tile|][Place(columns, x, c)] == next[Place(columns, x, c)];
  }

  lemma LoadedCell(p: Problem, output: seq<Flt>, tile: seq<Flt>, top: nat, left: nat, columns: nat, r: nat, c: nat,
                   goal: Goal, at: nat, rows: nat)
    requires Valid(p) && r < rows && c < columns && |tile| == r * columns && at == (top + r) * p.n + left
             && at + columns <= |output|
    requires WindowHolds(p, output, top, rows, left, columns, goal)
    ensures TileCell(p, tile + output[at..at + columns], top, left, columns, r, c, goal)
  {
    hide Meets;
    assert Inside(top + r, left + c, top, rows, left, columns);
    assert Cell(p, output, top + r, left + c, goal);
    CellMoved(p, output, tile + output[at..at + columns], top + r, left + c, goal, at + c, |tile| + c);
  }

  // ---------- A finished output ----------

  ghost predicate AllCells(p: Problem, output: seq<Flt>, goal: Goal)
    requires Valid(p)
  {
    forall i: nat, j: nat :: i < p.m && j < p.n ==> Cell(p, output, i, j, goal)
  }

  lemma FinishedIsProduct(p: Problem, output: seq<Flt>)
    requires Valid(p) && |output| == p.m * p.n && AllCells(p, output, Upto(p.k))
    ensures IsProduct(p, output)
  {
    forall i, j | 0 <= i < p.m && 0 <= j < p.n ensures Computed(p, output, i, j) {
      assert Cell(p, output, i, j, Upto(p.k));
      assert Terms(p, i, j)[..p.k] == Terms(p, i, j);
      CellBound(p.m, p.n, i, j);
    }
  }

  lemma OwnMatches(p: Problem, output: seq<Flt>, i: nat, j: nat)
    requires Valid(p) && |output| == p.m * p.n && Cell(p, output, i, j, Own)
    ensures i < p.m && j < p.n && Matches(p, output, i, j)
  {
    CellBound(p.m, p.n, i, j);
    MulStep(p.k, i, p.m);
    MulStep(p.k, j, p.n);
    OwnFoldEval(ZERO, Terms(p, i, j));
  }
}
