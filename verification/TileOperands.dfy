/** Packed operands of the m4i, m4n32b, m32n4 and m4b kernels, for any tile shape:
    how their adapters pack one K block, and the terms of an output window. */
module TileOperands {
  import opened BitArithmetic
  import opened Floats
  import opened Quantized
  import opened Reduction
  import opened Gemm
  import opened Ime1Dot
  import opened Ime1Pack
  import opened TileShapes
  import opened OutputCells

  // ---------- One K block ----------

  /** The activation packing loop: `quantize_a_4row_i8` for each group of four rows. */
  method PackRows(rows: seq<Q8>) returns (a: TileShapes.ABlock)
    requires |rows| % 4 == 0
    ensures TileShapes.APacked(a, rows)
  {
    var qs: seq<Int8> := [];
    for group := 0 to |rows| / 4
      invariant |qs| == 128 * group
      invariant forall h: nat, w: nat :: h < group && w < 4 ==> GroupWindow(qs, rows, h, w)
    {
      ghost var before := qs;
      qs := qs + QuantizeA4(RowGroup(rows, group));
      forall h: nat, w: nat | h < group + 1 && w < 4 ensures GroupWindow(qs, rows, h, w) {
        if h < group { WindowKept(before, qs, rows, h, w); } else { WindowAdded(before, rows, group, w); }
      }
    }
    a := TileShapes.ABlock(qs, seq(|rows|, m requires 0 <= m < |rows| => rows[m].d));
  }

  lemma WindowKept(before: seq<Int8>, after: seq<Int8>, rows: seq<Q8>, h: nat, w: nat)
    requires 4 * h + 4 <= |rows| && w < 4 && GroupWindow(before, rows, h, w) && |before| <= |after|
             && after[..|before|] == before
    ensures GroupWindow(after, rows, h, w)
  {
    var at := 128 * h + 32 * w;
    assert after[at..at + 32] == after[..|before|][at..at + 32] by { PrefixSlice(after, |before|, at); }
  }

  lemma PrefixSlice(s: seq<Int8>, n: nat, at: nat)
    requires at + 32 <= n <= |s|
    ensures s[at..at + 32] == s[..n][at..at + 32]
  {}

  lemma WindowAdded(before: seq<Int8>, rows: seq<Q8>, group: nat, w: nat)
    requires 4 * group + 4 <= |rows| && w < 4 && |before| == 128 * group
    ensures GroupWindow(before + QuantizeA4(RowGroup(rows, group)), rows, group, w)
  {
    var qs := QuantizeA4(RowGroup(rows, group));
    QuantizeA4Register(RowGroup(rows, group), w);
    assert (before + qs)[128 * group + 32 * w..128 * group + 32 * w + 32] == qs[32 * w..32 * w + 32];
  }

  /** The weight packing loop. */
  method PackColumns(columns: seq<Q4>) returns (b: TileShapes.BBlock)
    ensures TileShapes.BPacked(b, columns)
  {
    var qs := PackPlanes(columns);
    b := TileShapes.BBlock(qs, seq(|columns|, n requires 0 <= n < |columns| => columns[n].d));
  }

  // ---------- The blocks of a problem ----------

  function RowsOf(p: Problem, mr: nat, top: nat, b: nat): (r: seq<Q8>)
    requires |p.act| == p.m * p.k && top + mr <= p.m && b < p.k
    ensures |r| == mr
  {
    seq(mr, r requires 0 <= r < mr => CellBound(p.m, p.k, top + r, b); p.act[(top + r) * p.k + b])
  }

  function ColumnsOf(p: Problem, nr: nat, left: nat, b: nat): (r: seq<Q4>)
    requires |p.wt| == p.n * p.k && left + nr <= p.n && b < p.k
    ensures |r| == nr
  {
    seq(nr, c requires 0 <= c < nr => CellBound(p.n, p.k, left + c, b); p.wt[(left + c) * p.k + b])
  }

  lemma TermOf(p: Problem, mr: nat, nr: nat, top: nat, left: nat, b: nat, r: nat, c: nat)
    requires Valid(p) && top + mr <= p.m && left + nr <= p.n && b < p.k && r < mr && c < nr
    ensures Terms(p, top + r, left + c)[b] == BlockTerm(ColumnsOf(p, nr, left, b)[c], RowsOf(p, mr, top, b)[r])
  {
    Gemm.TermAt(p, top + r, left + c, b);
  }

  /** Consecutive packed blocks of the rows from `top`, from K block `from` on. */
  ghost predicate APanel(p: Problem, mr: nat, a: seq<TileShapes.ABlock>, top: nat, from: nat)
    requires Valid(p)
  {
    top + mr <= p.m && from + |a| <= p.k && forall i: nat :: i < |a| ==> APanelAt(p, mr, a, top, from, i)
  }

  ghost predicate APanelAt(p: Problem, mr: nat, a: seq<TileShapes.ABlock>, top: nat, from: nat, i: nat)
    requires Valid(p) && top + mr <= p.m && from + |a| <= p.k && i < |a|
  {
    TileShapes.APacked(a[i], RowsOf(p, mr, top, from + i))
  }

  ghost predicate BPanel(p: Problem, nr: nat, b: seq<TileShapes.BBlock>, left: nat, from: nat)
    requires Valid(p)
  {
    left + nr <= p.n && from + |b| <= p.k && forall i: nat :: i < |b| ==> BPanelAt(p, nr, b, left, from, i)
  }

  ghost predicate BPanelAt(p: Problem, nr: nat, b: seq<TileShapes.BBlock>, left: nat, from: nat, i: nat)
    requires Valid(p) && left + nr <= p.n && from + |b| <= p.k && i < |b|
  {
    TileShapes.BPacked(b[i], ColumnsOf(p, nr, left, from + i))
  }

  lemma APart(p: Problem, mr: nat, a: seq<TileShapes.ABlock>, top: nat, from: nat, count: nat)
    requires Valid(p) && APanel(p, mr, a, top, 0) && from + count <= |a|
    ensures APanel(p, mr, a[from..from + count], top, from)
  {
    var part := a[from..from + count];
    forall i: nat | i < count ensures APanelAt(p, mr, part, top, from, i) {
      var j := from + i;
      assert APanelAt(p, mr, a, top, 0, j);
    }
  }

  lemma BPart(p: Problem, nr: nat, b: seq<TileShapes.BBlock>, left: nat, from: nat, count: nat)
    requires Valid(p) && BPanel(p, nr, b, left, 0) && from + count <= |b|
    ensures BPanel(p, nr, b[from..from + count], left, from)
  {
    var part := b[from..from + count];
    forall i: nat | i < count ensures BPanelAt(p, nr, part, left, from, i) {
      var j := from + i;
      assert BPanelAt(p, nr, b, left, 0, j);
    }
  }

  /** All K blocks of a tile of rows. */
  method PackRowPanel(p: Problem, mr: nat, top: nat) returns (a: seq<TileShapes.ABlock>)
    requires Valid(p) && mr % 4 == 0 && top + mr <= p.m
    ensures |a| == p.k && APanel(p, mr, a, top, 0)
  {
    a := [];
    for block := 0 to p.k
      invariant |a| == block && APanel(p, mr, a, top, 0)
    {
      var packed := PackRows(RowsOf(p, mr, top, block));
      ghost var before := a;
      a := a + [packed];
      forall i: nat | i < block + 1
        ensures APanelAt(p, mr, a, top, 0, i)
      {
        if i < block { assert APanelAt(p, mr, before, top, 0, i); }
      }
    }
  }

  method PackColumnPanel(p: Problem, nr: nat, left: nat) returns (b: seq<TileShapes.BBlock>)
    requires Valid(p) && left + nr <= p.n
    ensures |b| == p.k && BPanel(p, nr, b, left, 0)
  {
    b := [];
    for block := 0 to p.k
      invariant |b| == block && BPanel(p, nr, b, left, 0)
    {
      var packed := PackColumns(ColumnsOf(p, nr, left, block));
      ghost var before := b;
      b := b + [packed];
      forall i: nat | i < block + 1
        ensures BPanelAt(p, nr, b, left, 0, i)
      {
        if i < block { assert BPanelAt(p, nr, before, left, 0, i); }
      }
    }
  }

  /** The packed operands of a whole problem, tile by tile. */
  ghost predicate APrepared(p: Problem, mr: nat, a: seq<seq<TileShapes.ABlock>>) {
    Valid(p) && forall t: nat :: t < |a| ==> ATile(p, mr, a, t)
  }

  ghost predicate ATile(p: Problem, mr: nat, a: seq<seq<TileShapes.ABlock>>, t: nat)
    requires Valid(p) && t < |a|
  {
    |a[t]| == p.k && APanel(p, mr, a[t], mr * t, 0)
  }

  ghost predicate BPrepared(p: Problem, nr: nat, b: seq<seq<TileShapes.BBlock>>) {
    Valid(p) && forall t: nat :: t < |b| ==> BTile(p, nr, b, t)
  }

  ghost predicate BTile(p: Problem, nr: nat, b: seq<seq<TileShapes.BBlock>>, t: nat)
    requires Valid(p) && t < |b|
  {
    |b[t]| == p.k && BPanel(p, nr, b[t], nr * t, 0)
  }

  method PackActivations(p: Problem, mr: nat, tiles: nat) returns (a: seq<seq<TileShapes.ABlock>>)
    requires Valid(p) && mr % 4 == 0 && p.m == mr * tiles
    ensures |a| == tiles && APrepared(p, mr, a)
  {
    a := [];
    for t := 0 to tiles
      invariant |a| == t && APrepared(p, mr, a)
    {
      MulStep(mr, t, tiles);
      var panel := PackRowPanel(p, mr, mr * t);
      ghost var before := a;
      a := a + [panel];
      forall u: nat | u < t + 1 ensures ATile(p, mr, a, u) { if u < t { assert ATile(p, mr, before, u); } }
    }
  }

  method PackWeights(p: Problem, nr: nat, tiles: nat) returns (b: seq<seq<TileShapes.BBlock>>)
    requires Valid(p) && p.n == nr * tiles
    ensures |b| == tiles && BPrepared(p, nr, b)
  {
    b := [];
    for t := 0 to tiles
      invariant |b| == t && BPrepared(p, nr, b)
    {
      MulStep(nr, t, tiles);
      var panel := PackColumnPanel(p, nr, nr * t);
      ghost var before := b;
      b := b + [panel];
      forall u: nat | u < t + 1 ensures BTile(p, nr, b, u) { if u < t { assert BTile(p, nr, before, u); } }
    }
  }

  // ---------- The terms of a window ----------

  function RowsPanel(p: Problem, mr: nat, top: nat, from: nat, to': nat): (r: seq<seq<Q8>>)
    requires |p.act| == p.m * p.k && top + mr <= p.m && from <= to' <= p.k
    ensures |r| == to' - from
  {
    seq(to' - from, i requires 0 <= i < to' - from => RowsOf(p, mr, top, from + i))
  }

  function ColumnsPanel(p: Problem, nr: nat, left: nat, from: nat, to': nat): (r: seq<seq<Q4>>)
    requires |p.wt| == p.n * p.k && left + nr <= p.n && from <= to' <= p.k
    ensures |r| == to' - from
  {
    seq(to' - from, i requires 0 <= i < to' - from => ColumnsOf(p, nr, left, from + i))
  }

  /** The terms of blocks `from .. to'` of every window element, in row-major order. */
  function WindowTable(p: Problem, mr: nat, nr: nat, top: nat, left: nat, from: nat, to': nat): (r: seq<seq<Term>>)
    requires |p.act| == p.m * p.k && |p.wt| == p.n * p.k && top + mr <= p.m && left + nr <= p.n && from <= to' <= p.k
             && nr > 0
    ensures |r| == mr * nr
  {
    seq(mr * nr, e requires 0 <= e < mr * nr => WindowTerms(p, mr, nr, top, left, from, to', e))
  }

  lemma Quotient(e: nat, d: nat, count: nat)
    requires d > 0 && e < count * d
    ensures e / d < count && e % d < d
  {
    var q, r := DivMod(e, d, count);
    ModUnique(e, d, q, r);
  }

  function WindowTerms(p: Problem, mr: nat, nr: nat, top: nat, left: nat, from: nat, to': nat, e: nat): (r: seq<Term>)
    requires |p.act| == p.m * p.k && |p.wt| == p.n * p.k && top + mr <= p.m && left + nr <= p.n && from <= to' <= p.k
    requires nr > 0 && e < mr * nr
    ensures |r| == to' - from
  {
    Quotient(e, nr, mr);
    Terms(p, top + e / nr, left + e % nr)[from..to']
  }

  lemma WindowTableAt(p: Problem, mr: nat, nr: nat, top: nat, left: nat, from: nat, to': nat, r: nat, c: nat)
    requires Valid(p) && top + mr <= p.m && left + nr <= p.n && from <= to' <= p.k && r < mr && c < nr
    ensures Place(nr, r, c) < mr * nr
    ensures WindowTable(p, mr, nr, top, left, from, to')[Place(nr, r, c)] == Terms(p, top + r, left + c)[from..to']
  {
    CellBound(mr, nr, r, c);
    PlaceDigits(nr, r, c);
    WindowTermsAt(p, mr, nr, top, left, from, to', Place(nr, r, c), r, c);
  }

  lemma PlaceDigits(nr: nat, r: nat, c: nat)
    requires c < nr
    ensures Place(nr, r, c) / nr == r && Place(nr, r, c) % nr == c
  {
    ModUnique(Place(nr, r, c), nr, r, c);
  }

  lemma WindowTermsAt(p: Problem, mr: nat, nr: nat, top: nat, left: nat, from: nat, to': nat, e: nat, r: nat, c: nat)
    requires Valid(p) && top + mr <= p.m && left + nr <= p.n && from <= to' <= p.k && r < mr && c < nr
    requires e < mr * nr && e / nr == r && e % nr == c
    ensures WindowTerms(p, mr, nr, top, left, from, to', e) == Terms(p, top + r, left + c)[from..to']
  {}

  lemma WindowEntry(p: Problem, mr: nat, nr: nat, top: nat, left: nat, from: nat, to': nat, i: nat, r: nat, c: nat)
    requires Valid(p) && top + mr <= p.m && left + nr <= p.n && from <= to' <= p.k && i < to' - from && r < mr && c < nr
    ensures TileShapes.TermAt(WindowTable(p, mr, nr, top, left, from, to'), RowsOf(p, mr, top, from + i),
                              ColumnsOf(p, nr, left, from + i), i, r, c)
  {
    WindowTableAt(p, mr, nr, top, left, from, to', r, c);
    TermOf(p, mr, nr, top, left, from + i, r, c);
    PartAt(Terms(p, top + r, left + c), from, to', i);
  }

  /** Every block of the table lists the window's block terms. */
  lemma WindowDescribed(p: Problem, mr: nat, nr: nat, top: nat, left: nat, from: nat, to': nat)
    requires Valid(p) && top + mr <= p.m && left + nr <= p.n && from <= to' <= p.k && nr > 0
    ensures Shaped(WindowTable(p, mr, nr, top, left, from, to'), mr * nr, to' - from)
    ensures forall i: nat :: i < to' - from ==>
              BlockTable(WindowTable(p, mr, nr, top, left, from, to'), RowsPanel(p, mr, top, from, to')[i],
                         ColumnsPanel(p, nr, left, from, to')[i], mr, nr, i)
  {
    var table := WindowTable(p, mr, nr, top, left, from, to');
    forall i: nat | i < to' - from
      ensures BlockTable(table, RowsPanel(p, mr, top, from, to')[i], ColumnsPanel(p, nr, left, from, to')[i], mr, nr, i)
    {
      var rows, columns := RowsOf(p, mr, top, from + i), ColumnsOf(p, nr, left, from + i);
      forall r: nat, c: nat | r < mr && c < nr ensures TileShapes.TermAt(table, rows, columns, i, r, c) {
        WindowEntry(p, mr, nr, top, left, from, to', i, r, c);
      }
    }
  }

  /** Folding blocks `from .. to'` into a row-major tile advances its elements. */
  lemma FoldedMeets(p: Problem, start: seq<Flt>, result: seq<Flt>, mr: nat, nr: nat, top: nat, left: nat, from: nat,
                    to': nat)
    requires Valid(p) && top + mr <= p.m && left + nr <= p.n && from <= to' <= p.k && nr > 0
    requires TileMeets(p, start, top, mr, left, nr, Upto(from))
    requires Shaped(WindowTable(p, mr, nr, top, left, from, to'), |start|, to' - from)
    requires Folded(start, result, WindowTable(p, mr, nr, top, left, from, to'), to' - from, 0, to' - from)
    ensures TileMeets(p, result, top, mr, left, nr, Upto(to'))
  {
    var table := WindowTable(p, mr, nr, top, left, from, to');
    forall r: nat, c: nat | r < mr && c < nr ensures TileCell(p, result, top, left, nr, r, c, Upto(to')) {
      assert TileCell(p, start, top, left, nr, r, c, Upto(from));
      WindowTableAt(p, mr, nr, top, left, from, to', r, c);
      var e, terms := Place(nr, r, c), Terms(p, top + r, left + c);
      AdvancedBy(start[e], result[e], table[e], terms, from, to');
    }
  }

  lemma AdvancedBy(x: Flt, y: Flt, part: seq<Term>, terms: seq<Term>, from: nat, to': nat)
    requires from <= to' <= |terms| && x == Fold(ZERO, terms[..from]) && part == terms[from..to']
    requires y == Fold(x, part[0..to' - from])
    ensures y == Fold(ZERO, terms[..to'])
  {
    assert part[0..to' - from] == terms[from..to'];
    assert terms[0..from] == terms[..from] && terms[0..to'] == terms[..to'];
    FoldPieces(ZERO, terms, 0, from, to');
  }

  /** A zeroed tile is one folded with no blocks. */
  lemma ZeroMeets(p: Problem, tile: seq<Flt>, top: nat, rows: nat, left: nat, columns: nat)
    requires Valid(p) && top + rows <= p.m && left + columns <= p.n && |tile| == rows * columns
    requires forall e :: 0 <= e < |tile| ==> tile[e] == ZERO
    ensures TileMeets(p, tile, top, rows, left, columns, Upto(0))
  {
    forall r: nat, c: nat | r < rows && c < columns ensures TileCell(p, tile, top, left, columns, r, c, Upto(0)) {
      CellBound(rows, columns, r, c);
    }
  }

  /** The rows and columns a kernel call reads. */
  lemma PanelOperands(p: Problem, mr: nat, nr: nat, a: seq<TileShapes.ABlock>, b: seq<TileShapes.BBlock>, top: nat,
                      left: nat, from: nat)
    requires Valid(p) && |a| == |b| && APanel(p, mr, a, top, from) && BPanel(p, nr, b, left, from)
    ensures forall i: nat :: i < |a| ==> TileShapes.APacked(a[i], RowsPanel(p, mr, top, from, from + |a|)[i])
                                         && TileShapes.BPacked(b[i], ColumnsPanel(p, nr, left, from, from + |b|)[i])
  {
    forall i: nat | i < |a| ensures TileShapes.APacked(a[i], RowsPanel(p, mr, top, from, from + |a|)[i])
                                    && TileShapes.BPacked(b[i], ColumnsPanel(p, nr, left, from, from + |b|)[i]) {
      assert APanelAt(p, mr, a, top, from, i) && BPanelAt(p, nr, b, left, from, i);
    }
  }
}
