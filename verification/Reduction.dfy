/** Batched reduction of component tiles, independent of tile shape: a table
    gives, for every tile element, its terms in K order. */
module Reduction {
  import opened Floats
  import opened BitArithmetic

  /** `tile` elements with `blocks` terms each. */
  ghost predicate Shaped(table: seq<seq<Term>>, tile: nat, blocks: nat) {
    |table| == tile && forall e :: 0 <= e < tile ==> |table[e]| == blocks
  }

  /** Every element of `after` is that of `before` folded with terms `from .. to`. */
  ghost predicate Folded(before: seq<Flt>, after: seq<Flt>, table: seq<seq<Term>>, blocks: nat, from: nat, to: nat)
    requires Shaped(table, |before|, blocks) && from <= to <= blocks
  {
    |after| == |before| && forall e :: 0 <= e < |before| ==> after[e] == Fold(before[e], table[e][from..to])
  }

  /** Every element of `after` is that of `before` reduced with its term `b`. */
  ghost predicate Stepped(before: seq<Flt>, after: seq<Flt>, table: seq<seq<Term>>, blocks: nat, b: nat)
    requires Shaped(table, |before|, blocks) && b < blocks
  {
    |after| == |before| && forall e :: 0 <= e < |before| ==> after[e] == Reduce(before[e], table[e][b])
  }

  /** The buffer holds, from `base` on, the components of block `b`. */
  ghost predicate Holds(mem: seq<int>, base: nat, table: seq<seq<Term>>, tile: nat, blocks: nat, b: nat)
    requires Shaped(table, tile, blocks) && b < blocks && base + tile <= |mem|
  {
    forall e :: 0 <= e < tile ==> mem[base..base + tile][e] == table[e][b].component
  }

  lemma FoldExtend(acc: Flt, terms: seq<Term>, from: nat, b: nat)
    requires from <= b < |terms|
    ensures Fold(acc, terms[from..b + 1]) == Reduce(Fold(acc, terms[from..b]), terms[b])
  {
    assert terms[from..b + 1][..b - from] == terms[from..b];
  }

  lemma FoldedNone(x: seq<Flt>, table: seq<seq<Term>>, blocks: nat, b: nat)
    requires Shaped(table, |x|, blocks) && b <= blocks
    ensures Folded(x, x, table, blocks, b, b)
  {}

  lemma FoldedStep(x: seq<Flt>, y: seq<Flt>, z: seq<Flt>, table: seq<seq<Term>>, blocks: nat, from: nat, b: nat)
    requires Shaped(table, |x|, blocks) && from <= b < blocks
    requires Folded(x, y, table, blocks, from, b) && Stepped(y, z, table, blocks, b)
    ensures Folded(x, z, table, blocks, from, b + 1)
  {
    forall e | 0 <= e < |x| ensures z[e] == Fold(x[e], table[e][from..b + 1]) {
      FoldExtend(x[e], table[e], from, b);
    }
  }

  lemma FoldPieces(acc: Flt, terms: seq<Term>, a: nat, b: nat, c: nat)
    requires a <= b <= c <= |terms|
    ensures Fold(acc, terms[a..c]) == Fold(Fold(acc, terms[a..b]), terms[b..c])
  {
    FoldConcat(acc, terms[a..b], terms[b..c]);
    assert terms[a..b] + terms[b..c] == terms[a..c];
  }

  lemma FoldedTrans(x: seq<Flt>, y: seq<Flt>, z: seq<Flt>, table: seq<seq<Term>>, blocks: nat, a: nat, b: nat, c: nat)
    requires Shaped(table, |x|, blocks) && a <= b <= c <= blocks
    requires Folded(x, y, table, blocks, a, b) && Folded(y, z, table, blocks, b, c)
    ensures Folded(x, z, table, blocks, a, c)
  {
    forall e | 0 <= e < |x| ensures z[e] == Fold(x[e], table[e][a..c]) {
      FoldPieces(x[e], table[e], a, b, c);
    }
  }

  /** A batch buffer: tiles `0 .. count` hold blocks `start .. start + count`. */
  ghost predicate Buffered(mem: seq<int>, table: seq<seq<Term>>, tile: nat, blocks: nat, start: nat, count: nat)
    requires Shaped(table, tile, blocks) && start + count <= blocks
  {
    forall i :: 0 <= i < count ==> Slot(mem, table, tile, blocks, start, i)
  }

  ghost predicate Slot(mem: seq<int>, table: seq<seq<Term>>, tile: nat, blocks: nat, start: nat, i: nat)
    requires Shaped(table, tile, blocks) && start + i < blocks
  {
    tile * i + tile <= |mem| && Holds(mem, tile * i, table, tile, blocks, start + i)
  }

  /** Filling the next tile of the buffer keeps the earlier ones. */
  lemma BufferedMore(before: seq<int>, after: seq<int>, table: seq<seq<Term>>, tile: nat, blocks: nat, start: nat,
                     count: nat)
    requires Shaped(table, tile, blocks) && start + count < blocks && |before| == |after|
    requires Buffered(before, table, tile, blocks, start, count)
    requires tile * count <= |before| && after[..tile * count] == before[..tile * count]
    requires Slot(after, table, tile, blocks, start, count)
    ensures Buffered(after, table, tile, blocks, start, count + 1)
  {
    forall i | 0 <= i < count ensures Slot(after, table, tile, blocks, start, i) {
      assert Slot(before, table, tile, blocks, start, i);
      TilesInOrder(tile, i, count);
      assert after[tile * i..tile * i + tile] == after[..tile * count][tile * i..tile * i + tile];
      assert before[tile * i..tile * i + tile] == before[..tile * count][tile * i..tile * i + tile];
    }
  }

  lemma TilesInOrder(tile: nat, i: nat, j: nat)
    requires i < j
    ensures tile * i + tile <= tile * j
  {
    MulStep(tile, i, j);
  }

  /** What a batching kernel keeps: all blocks before the `pending` last of the
      first `bk` are folded into the tile, the pending ones wait in the buffer. */
  ghost predicate Progress(before: seq<Flt>, acc: seq<Flt>, mem: seq<int>, table: seq<seq<Term>>, blocks: nat, bk: nat,
                           pending: nat)
    requires Shaped(table, |before|, blocks)
  {
    && pending <= bk <= blocks
    && (bk == blocks ==> pending == 0)
    && Folded(before, acc, table, blocks, 0, bk - pending)
    && Buffered(mem, table, |before|, blocks, bk - pending, pending)
  }

  lemma ProgressStart(before: seq<Flt>, mem: seq<int>, table: seq<seq<Term>>, blocks: nat)
    requires Shaped(table, |before|, blocks)
    ensures Progress(before, before, mem, table, blocks, 0, 0)
  {}

  // ---------- Reducing one component tile, row by row ----------

  /** One row: every lane converts, scales and adds its component. */
  function ReduceRow(acc: seq<Flt>, component: seq<int>, wScales: seq<real>, aScale: real): (r: seq<Flt>)
    requires |acc| == |component| == |wScales|
    ensures |r| == |acc|
    ensures forall n :: 0 <= n < |r| ==> r[n] == Reduce(acc[n], Term(component[n], wScales[n], aScale))
  {
    seq(|acc|, n requires 0 <= n < |acc| => Fma(acc[n], OfInt(component[n]), Mul(Const(wScales[n]), Const(aScale))))
  }

  /** Rows `0 .. rows` of a row-major tile held in registers. */
  function ReduceRows(regs: seq<Flt>, component: seq<int>, wScales: seq<real>, aScales: seq<real>,
                      rows: nat): (r: seq<Flt>)
    requires |regs| == |component| && rows <= |aScales| && rows * |wScales| <= |regs|
    ensures |r| == rows * |wScales|
  {
    if rows == 0 then []
    else
      var c := |wScales|;
      MulStep(c, rows - 1, rows);
      ReduceRows(regs, component, wScales, aScales, rows - 1)
      + ReduceRow(regs[(rows - 1) * c..(rows - 1) * c + c], component[(rows - 1) * c..(rows - 1) * c + c], wScales,
                  aScales[rows - 1])
  }

  lemma {:induction false} ReduceRowsAt(regs: seq<Flt>, component: seq<int>, wScales: seq<real>, aScales: seq<real>,
                                        rows: nat, m: nat, n: nat)
    requires |regs| == |component| && m < rows <= |aScales| && n < |wScales| && rows * |wScales| <= |regs|
    ensures 0 <= m * |wScales| && m * |wScales| + n < rows * |wScales|
    ensures var e := m * |wScales| + n;
            ReduceRows(regs, component, wScales, aScales, rows)[e]
                == Reduce(regs[e], Term(component[e], wScales[n], aScales[m]))
  {
    var c := |wScales|;
    MulStep(c, m, rows);
    MulStep(c, rows - 1, rows);
    if m < rows - 1 {
      ReduceRowsAt(regs, component, wScales, aScales, rows - 1, m, n);
    } else {
      LastRowAt(regs, component, wScales, aScales, rows, n);
    }
  }

  lemma LastRowAt(regs: seq<Flt>, component: seq<int>, wScales: seq<real>, aScales: seq<real>, rows: nat, n: nat)
    requires |regs| == |component| && 0 < rows <= |aScales| && n < |wScales| && rows * |wScales| <= |regs|
    ensures 0 <= (rows - 1) * |wScales| && (rows - 1) * |wScales| + n < rows * |wScales|
    ensures var e := (rows - 1) * |wScales| + n;
            ReduceRows(regs, component, wScales, aScales, rows)[e]
                == Reduce(regs[e], Term(component[e], wScales[n], aScales[rows - 1]))
  {
    var c := |wScales|;
    MulStep(c, rows - 1, rows);
    var at := (rows - 1) * c;
    var before := ReduceRows(regs, component, wScales, aScales, rows - 1);
    var row := ReduceRow(regs[at..at + c], component[at..at + c], wScales, aScales[rows - 1]);
    assert |before| == at && (before + row)[at + n] == row[n];
  }

  /** The table's term `b` of every element is the tile's component with the
      scales of its row and column. */
  ghost predicate Entries(table: seq<seq<Term>>, blocks: nat, b: nat, component: seq<int>, wScales: seq<real>,
                          aScales: seq<real>)
    requires Shaped(table, |component|, blocks) && b < blocks
  {
    && |component| == |aScales| * |wScales|
    && forall m: nat, n: nat :: m < |aScales| && n < |wScales| ==>
       EntryAt(table, blocks, b, component, wScales, aScales, m, n)
  }

  ghost predicate EntryAt(table: seq<seq<Term>>, blocks: nat, b: nat, component: seq<int>, wScales: seq<real>,
                          aScales: seq<real>, m: nat, n: nat)
    requires Shaped(table, |component|, blocks) && b < blocks && m < |aScales| && n < |wScales|
  {
    var e := m * |wScales| + n;
    0 <= e < |component| && table[e][b] == Term(component[e], wScales[n], aScales[m])
  }

  /** Every lane of the tile has been reduced with its own scales. */
  ghost predicate TileReduced(regs: seq<Flt>, reduced: seq<Flt>, component: seq<int>, wScales: seq<real>,
                              aScales: seq<real>)
    requires |regs| == |reduced| == |component|
  {
    forall m: nat, n: nat :: m < |aScales| && n < |wScales| ==>
        LaneReduced(regs, reduced, component, wScales, aScales, m, n)
  }

  ghost predicate LaneReduced(regs: seq<Flt>, reduced: seq<Flt>, component: seq<int>, wScales: seq<real>,
                              aScales: seq<real>, m: nat, n: nat)
    requires |regs| == |reduced| == |component| && m < |aScales| && n < |wScales|
  {
    var e := m * |wScales| + n;
    0 <= e < |regs| && reduced[e] == Reduce(regs[e], Term(component[e], wScales[n], aScales[m]))
  }

  /** Reducing a component tile row by row steps every element by its term. */
  lemma TileReducedSteps(regs: seq<Flt>, reduced: seq<Flt>, table: seq<seq<Term>>, blocks: nat, b: nat,
                         component: seq<int>, wScales: seq<real>, aScales: seq<real>)
    requires |regs| == |reduced| == |component| && Shaped(table, |component|, blocks) && b < blocks && |wScales| > 0
    requires Entries(table, blocks, b, component, wScales, aScales)
    requires TileReduced(regs, reduced, component, wScales, aScales)
    ensures Stepped(regs, reduced, table, blocks, b)
  {
    forall e | 0 <= e < |regs| ensures reduced[e] == Reduce(regs[e], table[e][b]) {
      var m, n := RowColumn(e, |wScales|, |aScales|);
      assert EntryAt(table, blocks, b, component, wScales, aScales, m, n);
      assert LaneReduced(regs, reduced, component, wScales, aScales, m, n);
    }
  }

  lemma RowColumn(e: nat, columns: nat, rows: nat) returns (m: nat, n: nat)
    requires columns > 0 && e < rows * columns
    ensures e == m * columns + n && n < columns && m < rows
  {
    m, n := e / columns, e % columns;
    if m >= rows { if m > rows { MulStep(columns, rows, m); } }
  }

  /** The row loop of a flush. */
  method ReduceTile(regs: seq<Flt>, component: seq<int>, wScales: seq<real>, aScales: seq<real>)
    returns (reduced: seq<Flt>)
    requires |regs| == |component| == |aScales| * |wScales|
    ensures |reduced| == |regs| && TileReduced(regs, reduced, component, wScales, aScales)
  {
    reduced := [];
    var c := |wScales|;
    for row := 0 to |aScales|
      invariant 0 <= row * c <= |regs| && reduced == ReduceRows(regs, component, wScales, aScales, row)
    {
      MulStep(c, row, |aScales|);
      reduced := reduced + ReduceRow(regs[row * c..row * c + c], component[row * c..row * c + c], wScales,
                                     aScales[row]);
    }
    forall m: nat, n: nat | m < |aScales| && n < |wScales|
      ensures LaneReduced(regs, reduced, component, wScales, aScales, m, n)
    {
      ReduceRowsAt(regs, component, wScales, aScales, |aScales|, m, n);
    }
  }
}
