/** The matrix product every Q4_0 x Q8_0 kernel computes: row-major matrices,
    tiles of the output, and the specification of each element. */
module Gemm {
  import opened BitArithmetic
  import opened Floats
  import opened Quantized

  // ---------- Row-major positions ----------

  lemma CellBound(rows: nat, width: nat, i: nat, j: nat)
    requires i < rows && j < width
    ensures i * width + j < rows * width
    ensures 0 <= i * width && i * width + width <= rows * width
  {
    MulStep(width, i, rows);
  }

  /** Positions `(i, j)` and `(k, l)` in a matrix of this width agree only when
      the coordinates do, and lie in row order. */
  lemma CellOrder(width: nat, i: nat, j: nat, k: nat, l: nat)
    requires j < width && l < width
    ensures i < k ==> i * width + j < k * width
    ensures k < i ==> k * width + l < i * width
  {
    if i < k { MulStep(width, i, k); }
    if k < i { MulStep(width, k, i); }
  }

  /** Element `(i, j)` of a row-major matrix. */
  function At<T>(s: seq<T>, width: nat, i: nat, j: nat): T
    requires j < width && i * width + j < |s|
  {
    s[i * width + j]
  }

  /** Row `i` of a row-major matrix. */
  function Row<T>(s: seq<T>, width: nat, i: nat): (r: seq<T>)
    requires i * width + width <= |s|
    ensures |r| == width
  {
    s[i * width..i * width + width]
  }

  // ---------- The specification ----------

  /** A problem: `m` activation rows and `n` weight rows of `k` blocks each. */
  datatype Problem = Problem(m: nat, n: nat, k: nat, act: seq<Q8>, wt: seq<Q4>)

  ghost predicate Valid(p: Problem) {
    |p.act| == p.m * p.k && |p.wt| == p.n * p.k
  }

  function Terms(p: Problem, i: nat, j: nat): (r: seq<Term>)
    requires |p.act| == p.m * p.k && |p.wt| == p.n * p.k && i < p.m && j < p.n
    ensures |r| == p.k
  {
    MulStep(p.k, i, p.m);
    MulStep(p.k, j, p.n);
    RowTerms(Row(p.wt, p.k, j), Row(p.act, p.k, i))
  }

  /** Output element `(i, j)`: the row's and column's terms folded from zero in
      K order, by fused multiply-adds. */
  function Element(p: Problem, i: nat, j: nat): Flt
    requires |p.act| == p.m * p.k && |p.wt| == p.n * p.k && i < p.m && j < p.n
  {
    Fold(ZERO, Terms(p, i, j))
  }

  lemma TermAt(p: Problem, i: nat, j: nat, b: nat)
    requires Valid(p) && i < p.m && j < p.n && b < p.k
    ensures i * p.k + b < |p.act| && j * p.k + b < |p.wt|
    ensures Terms(p, i, j)[b] == BlockTerm(p.wt[j * p.k + b], p.act[i * p.k + b])
  {
    CellBound(p.m, p.k, i, b);
    CellBound(p.n, p.k, j, b);
    assert Row(p.wt, p.k, j)[b] == p.wt[j * p.k + b];
    assert Row(p.act, p.k, i)[b] == p.act[i * p.k + b];
  }

  /** Every output element has been computed. */
  ghost predicate IsProduct(p: Problem, output: seq<Flt>)
    requires Valid(p)
  {
    |output| == p.m * p.n && forall i, j :: 0 <= i < p.m && 0 <= j < p.n ==> Computed(p, output, i, j)
  }

  ghost predicate Computed(p: Problem, output: seq<Flt>, i: nat, j: nat)
    requires Valid(p) && |output| == p.m * p.n && i < p.m && j < p.n
  {
    CellBound(p.m, p.n, i, j);
    At(output, p.n, i, j) == Element(p, i, j)
  }

  /** Output element `(i, j)` evaluates to the reference dot product. */
  ghost predicate Matches(p: Problem, output: seq<Flt>, i: nat, j: nat)
    requires Valid(p)
  {
    && i * p.n + j < |output| && i * p.k + p.k <= |p.act| && j * p.k + p.k <= |p.wt|
    && Eval(output[i * p.n + j]) == Reference(Row(p.wt, p.k, j), Row(p.act, p.k, i))
  }

  /** A computed element is, over the reals, the reference dot product. */
  lemma ComputedIsReference(p: Problem, output: seq<Flt>, i: nat, j: nat)
    requires Valid(p) && IsProduct(p, output) && i < p.m && j < p.n
    ensures Matches(p, output, i, j)
  {
    CellBound(p.m, p.n, i, j);
    MulStep(p.k, i, p.m);
    MulStep(p.k, j, p.n);
    assert Computed(p, output, i, j);
    EvalFold(ZERO, Terms(p, i, j));
  }

  /** The product is determined operation by operation: two kernels that both
      compute it produce the same expressions, so the same floats. */
  lemma ProductUnique(p: Problem, x: seq<Flt>, y: seq<Flt>)
    requires Valid(p) && IsProduct(p, x) && IsProduct(p, y)
    ensures x == y
  {
    forall e | 0 <= e < p.m * p.n ensures x[e] == y[e] {
      if p.n > 0 {
        var i, j := DivMod(e, p.n, p.m);
        assert Computed(p, x, i, j) && Computed(p, y, i, j);
      }
    }
  }

  // ---------- Storing a tile ----------

  /** Row `r` of the tile is in place at rows from `top`, columns from `left`. */
  ghost predicate RowStored<T>(output: seq<T>, width: nat, top: nat, left: nat, columns: nat, tile: seq<T>, r: nat) {
    SliceStored(output, (top + r) * width + left, tile, r * columns, columns)
  }

  ghost predicate SliceStored<T>(output: seq<T>, at: int, tile: seq<T>, from: int, length: nat) {
    && 0 <= at && at + length <= |output| && 0 <= from && from + length <= |tile|
    && output[at..at + length] == tile[from..from + length]
  }

  ghost predicate RowsStored<T>(output: seq<T>, width: nat, top: nat, left: nat, columns: nat, tile: seq<T>,
                                rows: nat) {
    forall r: nat :: r < rows ==> RowStored(output, width, top, left, columns, tile, r)
  }

  /** Outside the tile nothing has changed. */
  ghost predicate SameOutside<T>(before: seq<T>, after: seq<T>, width: nat, top: nat, rows: nat, left: nat,
                                 columns: nat) {
    |before| == |after| && forall i: nat, j: nat :: Outside(before, after, width, top, rows, left, columns, i, j)
  }

  ghost predicate Outside<T>(before: seq<T>, after: seq<T>, width: nat, top: nat, rows: nat, left: nat, columns: nat,
                             i: nat, j: nat)
    requires |before| == |after|
  {
    j < width && i * width + j < |before| && !(top <= i < top + rows && left <= j < left + columns) ==>
      after[i * width + j] == before[i * width + j]
  }

  /** `values` written over `middle` at position `at`. */
  ghost predicate Overwritten<T>(middle: seq<T>, after: seq<T>, at: nat, values: seq<T>) {
    at + |values| <= |middle| && after == middle[..at] + values + middle[at + |values|..]
  }

  lemma OverwrittenKeeps<T>(middle: seq<T>, after: seq<T>, at: nat, values: seq<T>, p: nat, q: nat)
    requires Overwritten(middle, after, at, values) && p <= q <= at
    ensures after[p..q] == middle[p..q]
  {}

  lemma OverwrittenHas<T>(middle: seq<T>, after: seq<T>, at: nat, values: seq<T>)
    requires Overwritten(middle, after, at, values)
    ensures after[at..at + |values|] == values
  {}

  lemma RowKept<T>(middle: seq<T>, after: seq<T>, width: nat, top: nat, row: nat, left: nat, columns: nat, tile: seq<T>,
                   values: seq<T>, r: nat)
    requires left + columns <= width && r < row
    requires Overwritten(middle, after, (top + row) * width + left, values)
    requires RowStored(middle, width, top, left, columns, tile, r)
    ensures RowStored(after, width, top, left, columns, tile, r)
  {
    MulStep(width, top + r, top + row);
    SliceKept(middle, after, (top + row) * width + left, values, (top + r) * width + left, tile, r * columns, columns);
  }

  lemma SliceKept<T>(middle: seq<T>, after: seq<T>, at: nat, values: seq<T>, kept: int, tile: seq<T>, from: int,
                     length: nat)
    requires Overwritten(middle, after, at, values) && SliceStored(middle, kept, tile, from, length)
             && kept + length <= at
    ensures SliceStored(after, kept, tile, from, length)
  {
    OverwrittenKeeps(middle, after, at, values, kept, kept + length);
  }

  lemma OutsideKept<T>(before: seq<T>, middle: seq<T>, after: seq<T>, width: nat, top: nat, row: nat, left: nat,
                       columns: nat, values: seq<T>, i: nat, j: nat)
    requires left + columns <= width && |values| == columns && |before| == |middle|
    requires Overwritten(middle, after, (top + row) * width + left, values)
    requires Outside(before, middle, width, top, row, left, columns, i, j)
    ensures Outside(before, after, width, top, row + 1, left, columns, i, j)
  {
    if j < width && i * width + j < |before| && !(top <= i < top + row + 1 && left <= j < left + columns) {
      CellElsewhere(width, left, columns, top + row, i, j);
      OverwrittenElsewhere(middle, after, (top + row) * width + left, values, i * width + j);
    }
  }

  lemma CellElsewhere(width: nat, left: nat, columns: nat, k: nat, i: nat, j: nat)
    requires left + columns <= width && j < width && !(i == k && left <= j < left + columns)
    ensures 0 <= k * width && 0 <= i * width
    ensures !(k * width + left <= i * width + j < k * width + left + columns)
  {
    if i < k { MulStep(width, i, k); } else if i > k { MulStep(width, k, i); }
  }

  lemma OverwrittenElsewhere<T>(middle: seq<T>, after: seq<T>, at: nat, values: seq<T>, x: nat)
    requires Overwritten(middle, after, at, values) && x < |middle| && !(at <= x < at + |values|)
    ensures after[x] == middle[x]
  {}

  /** Writing row `row` of the tile after the rows before it. */
  lemma RowStep<T>(before: seq<T>, middle: seq<T>, after: seq<T>, width: nat, top: nat, row: nat, left: nat,
                   columns: nat, tile: seq<T>)
    requires left + columns <= width && row * columns + columns <= |tile|
    requires Overwritten(middle, after, (top + row) * width + left, tile[row * columns..row * columns + columns])
    requires RowsStored(middle, width, top, left, columns, tile, row)
    requires SameOutside(before, middle, width, top, row, left, columns)
    ensures RowsStored(after, width, top, left, columns, tile, row + 1)
    ensures SameOutside(before, after, width, top, row + 1, left, columns)
  {
    RowsNext(middle, after, width, top, row, left, columns, tile, tile[row * columns..row * columns + columns]);
    OutsideNext(before, middle, after, width, top, row, left, columns, tile[row * columns..row * columns + columns]);
  }

  lemma RowsNext<T>(middle: seq<T>, after: seq<T>, width: nat, top: nat, row: nat, left: nat, columns: nat,
                    tile: seq<T>, values: seq<T>)
    requires left + columns <= width && row * columns + columns <= |tile|
             && values == tile[row * columns..row * columns + columns]
    requires Overwritten(middle, after, (top + row) * width + left, values)
             && RowsStored(middle, width, top, left, columns, tile, row)
    ensures RowsStored(after, width, top, left, columns, tile, row + 1)
  {
    forall r: nat | r < row ensures RowStored(after, width, top, left, columns, tile, r) {
      RowKept(middle, after, width, top, row, left, columns, tile, values, r);
    }
    RowPlaced(middle, after, (top + row) * width + left, tile, row * columns, columns, values);
  }

  lemma RowPlaced<T>(middle: seq<T>, after: seq<T>, at: nat, tile: seq<T>, from: nat, length: nat, values: seq<T>)
    requires from + length <= |tile| && values == tile[from..from + length] && Overwritten(middle, after, at, values)
    ensures SliceStored(after, at, tile, from, length)
  {
    OverwrittenHas(middle, after, at, values);
  }

  lemma OutsideNext<T>(before: seq<T>, middle: seq<T>, after: seq<T>, width: nat, top: nat, row: nat, left: nat,
                       columns: nat, values: seq<T>)
    requires left + columns <= width && |values| == columns
    requires Overwritten(middle, after, (top + row) * width + left, values)
             && SameOutside(before, middle, width, top, row, left, columns)
    ensures SameOutside(before, after, width, top, row + 1, left, columns)
  {
    var next := row + 1;
    forall i: nat, j: nat ensures Outside(before, after, width, top, next, left, columns, i, j) {
      OutsideKept(before, middle, after, width, top, row, left, columns, values, i, j);
    }
  }

  lemma RowBounds(length: nat, width: nat, top: nat, row: nat, rows: nat, left: nat, columns: nat, size: nat, at: nat,
                  from: nat)
    requires row < rows && left + columns <= width && (top + rows) * width <= length && size == rows * columns
    requires at == (top + row) * width + left && from == row * columns
    ensures at + columns <= length && from + columns <= size
  {
    MulStep(width, top + row, top + rows);
    MulStep(columns, row, rows);
  }

  /** Copies a row-major tile into the output, row by row. */
  method StoreTile<T>(output: array<T>, width: nat, top: nat, rows: nat, left: nat, columns: nat, tile: seq<T>)
    requires left + columns <= width && (top + rows) * width <= output.Length && |tile| == rows * columns
    modifies output
    ensures RowsStored(output[..], width, top, left, columns, tile, rows)
    ensures SameOutside(old(output[..]), output[..], width, top, rows, left, columns)
  {
    ghost var before := output[..];
    for row := 0 to rows
      invariant RowsStored(output[..], width, top, left, columns, tile, row)
      invariant SameOutside(before, output[..], width, top, row, left, columns)
    {
      StoreTileRow(output, width, top, row, rows, left, columns, tile, before);
    }
  }

  method StoreTileRow<T>(output: array<T>, width: nat, top: nat, row: nat, ghost rows: nat, left: nat, columns: nat,
                         tile: seq<T>, ghost before: seq<T>)
    requires row < rows && left + columns <= width && (top + rows) * width <= output.Length && |tile| == rows * columns
    requires RowsStored(output[..], width, top, left, columns, tile, row)
             && SameOutside(before, output[..], width, top, row, left, columns)
    modifies output
    ensures RowsStored(output[..], width, top, left, columns, tile, row + 1)
            && SameOutside(before, output[..], width, top, row + 1, left, columns)
  {
    var at, from := (top + row) * width + left, row * columns;
    RowBounds(output.Length, width, top, row, rows, left, columns, |tile|, at, from);
    ghost var middle := output[..];
    CopyRow(output, at, tile[from..from + columns]);
    RowStep(before, middle, output[..], width, top, row, left, columns, tile);
  }

  method CopyRow<T>(output: array<T>, at: nat, values: seq<T>)
    requires at + |values| <= output.Length
    modifies output
    ensures Overwritten(old(output[..]), output[..], at, values)
  {
    for i := 0 to |values|
      invariant output[..] == old(output[..at]) + values[..i] + old(output[at + i..])
    {
      output[at + i] := values[i];
    }
  }

  // ---------- Tiles of the product ----------

  /** Element `(r, c)` of tile `(tm, tn)` is output element `(tm * mr + r, tn * nr + c)`. */
  ghost predicate TileEntry(p: Problem, tile: seq<Flt>, mr: nat, nr: nat, tm: nat, tn: nat, r: nat, c: nat)
    requires Valid(p)
  {
    && tm * mr + r < p.m && tn * nr + c < p.n && r * nr + c < |tile|
    && tile[r * nr + c] == Element(p, tm * mr + r, tn * nr + c)
  }

  ghost predicate IsTile(p: Problem, tile: seq<Flt>, mr: nat, nr: nat, tm: nat, tn: nat)
    requires Valid(p)
  {
    |tile| == mr * nr && forall r: nat, c: nat :: r < mr && c < nr ==> TileEntry(p, tile, mr, nr, tm, tn, r, c)
  }

  ghost predicate CellDone(p: Problem, output: seq<Flt>, mr: nat, nr: nat, tm: nat, tn: nat, r: nat, c: nat)
    requires Valid(p) && |output| == p.m * p.n
  {
    && tm * mr + r < p.m && tn * nr + c < p.n
    && Computed(p, output, tm * mr + r, tn * nr + c)
  }

  ghost predicate TileDone(p: Problem, output: seq<Flt>, mr: nat, nr: nat, tm: nat, tn: nat)
    requires Valid(p) && |output| == p.m * p.n
  {
    forall r: nat, c: nat :: r < mr && c < nr ==> CellDone(p, output, mr, nr, tm, tn, r, c)
  }

  lemma CellStored(p: Problem, output: seq<Flt>, nr: nat, i: nat, left: nat, tile: seq<Flt>, from: nat, c: nat)
    requires Valid(p) && |output| == p.m * p.n && i < p.m && left + c < p.n && c < nr
    requires from + c < |tile| && tile[from + c] == Element(p, i, left + c)
    requires SliceStored(output, i * p.n + left, tile, from, nr)
    ensures Computed(p, output, i, left + c)
  {
    CellBound(p.m, p.n, i, left + c);
    SliceAgree(output, i * p.n + left, tile, from, nr, c);
    ElementStored(p, output, i, left + c, i * p.n + left + c, tile[from + c]);
  }

  lemma ElementStored(p: Problem, output: seq<Flt>, i: nat, j: nat, at: nat, value: Flt)
    requires Valid(p) && |output| == p.m * p.n && i < p.m && j < p.n && at == i * p.n + j && at < |output|
    requires output[at] == value == Element(p, i, j)
    ensures Computed(p, output, i, j)
  {}

  lemma SliceAgree<T>(x: seq<T>, at: int, y: seq<T>, from: int, length: nat, c: nat)
    requires 0 <= at && at + length <= |x| && 0 <= from && from + length <= |y| && c < length
    requires x[at..at + length] == y[from..from + length]
    ensures x[at + c] == y[from + c]
  {
    assert x[at..at + length][c] == y[from..from + length][c];
  }

  /** A cell of one tile lies outside every other tile. */
  lemma OtherTile(mr: nat, nr: nat, tm: nat, tn: nat, um: nat, un: nat, r: nat, c: nat)
    requires r < mr && c < nr && (tm, tn) != (um, un)
    ensures !(um * mr <= tm * mr + r < um * mr + mr && un * nr <= tn * nr + c < un * nr + nr)
  {
    if tm < um { MulStep(mr, tm, um); } else if tm > um { MulStep(mr, um, tm); }
    else if tn < un { MulStep(nr, tn, un); } else { MulStep(nr, un, tn); }
  }

  lemma CellKept(p: Problem, before: seq<Flt>, after: seq<Flt>, mr: nat, nr: nat, tm: nat, tn: nat, um: nat, un: nat,
                 r: nat, c: nat)
    requires Valid(p) && |before| == |after| == p.m * p.n && r < mr && c < nr && (tm, tn) != (um, un)
    requires CellDone(p, before, mr, nr, tm, tn, r, c)
    requires SameOutside(before, after, p.n, um * mr, mr, un * nr, nr)
    ensures CellDone(p, after, mr, nr, tm, tn, r, c)
  {
    OtherTile(mr, nr, tm, tn, um, un, r, c);
    var i, j := tm * mr + r, tn * nr + c;
    CellBound(p.m, p.n, i, j);
    assert Outside(before, after, p.n, um * mr, mr, un * nr, nr, i, j);
    ComputedKept(p, before, after, i, j, i * p.n + j);
  }

  lemma ComputedKept(p: Problem, before: seq<Flt>, after: seq<Flt>, i: nat, j: nat, at: nat)
    requires Valid(p) && |before| == |after| == p.m * p.n && i < p.m && j < p.n && Computed(p, before, i, j)
    requires at == i * p.n + j && at < |before| && after[at] == before[at]
    ensures Computed(p, after, i, j)
  {}

  /** Storing tile `(um, un)` completes it and leaves every other tile done. */
  lemma TileStored(p: Problem, before: seq<Flt>, after: seq<Flt>, mr: nat, nr: nat, um: nat, un: nat, tile: seq<Flt>)
    requires Valid(p) && |before| == |after| == p.m * p.n && IsTile(p, tile, mr, nr, um, un)
    requires RowsStored(after, p.n, um * mr, un * nr, nr, tile, mr)
    requires SameOutside(before, after, p.n, um * mr, mr, un * nr, nr)
    ensures TileDone(p, after, mr, nr, um, un)
    ensures forall tm: nat, tn: nat :: TileDone(p, before, mr, nr, tm, tn) ==> TileDone(p, after, mr, nr, tm, tn)
  {
    hide Element, SliceStored, SameOutside;
    forall r: nat, c: nat | r < mr && c < nr ensures CellDone(p, after, mr, nr, um, un, r, c) {
      assert TileEntry(p, tile, mr, nr, um, un, r, c);
      assert RowStored(after, p.n, um * mr, un * nr, nr, tile, r);
      CellStored(p, after, nr, um * mr + r, un * nr, tile, r * nr, c);
    }
    forall tm: nat, tn: nat | TileDone(p, before, mr, nr, tm, tn) ensures TileDone(p, after, mr, nr, tm, tn) {
      if (tm, tn) != (um, un) {
        forall r: nat, c: nat | r < mr && c < nr ensures CellDone(p, after, mr, nr, tm, tn, r, c) {
          assert CellDone(p, before, mr, nr, tm, tn, r, c);
          CellKept(p, before, after, mr, nr, tm, tn, um, un, r, c);
        }
      }
    }
  }

  lemma DivMod(x: nat, d: nat, count: nat) returns (q: nat, r: nat)
    requires d > 0 && x < count * d
    ensures x == q * d + r && r < d && q < count
  {
    q, r := x / d, x % d;
    if q >= count { if q > count { MulStep(d, count, q); } }
  }

  /** When all tiles are done the product is complete. */
  lemma AllTilesDone(p: Problem, output: seq<Flt>, mr: nat, nr: nat, tilesM: nat, tilesN: nat)
    requires Valid(p) && |output| == p.m * p.n && mr > 0 && nr > 0 && p.m == tilesM * mr && p.n == tilesN * nr
    requires forall tm, tn :: 0 <= tm < tilesM && 0 <= tn < tilesN ==> TileDone(p, output, mr, nr, tm, tn)
    ensures IsProduct(p, output)
  {
    forall i, j | 0 <= i < p.m && 0 <= j < p.n ensures Computed(p, output, i, j) {
      var tm, r := DivMod(i, mr, tilesM);
      var tn, c := DivMod(j, nr, tilesN);
      assert TileDone(p, output, mr, nr, tm, tn);
      assert CellDone(p, output, mr, nr, tm, tn, r, c);
    }
  }

  /** The tiles of a parallel loop, each visited once, in some order. */
  ghost predicate Schedule(order: seq<nat>, tiles: nat) {
    && |order| == tiles
    && (forall x :: 0 <= x < tiles ==> x in order)
    && (forall k :: 0 <= k < |order| ==> order[k] < tiles)
    && (forall k, l :: 0 <= k < l < |order| ==> order[k] != order[l])
  }
}
