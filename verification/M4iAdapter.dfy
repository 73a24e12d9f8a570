/** The m4i adapter and its cache-blocked variant m4i-CB: tiles kept in
    matrix-in-vector order, copied out by `c_unpack_ime_m4_n16`. Both store the
    product every other matrix-unit kernel stores. */
module M4iAdapter {
  import opened BitArithmetic
  import opened Floats
  import opened Quantized
  import opened Reduction
  import opened Gemm
  import opened PanelLayout
  import opened TileShapes
  import opened OutputCells
  import opened TileOperands

  /** The shapes `validate_shape<4, 16, 32>` admits. */
  ghost predicate Accepted(p: Problem, tilesM: nat, tilesN: nat) {
    Valid(p) && p.m == 4 * tilesM && p.n == 16 * tilesN && p.k > 0
  }

  // ---------- Matrix-in-vector order ----------

  /** Lane of element `(r, c)`. */
  function Lane(r: nat, c: nat): nat { 16 * (c / 4) + 4 * r + c % 4 }

  function LaneRow(x: nat): nat { x % 16 / 4 }

  function LaneColumn(x: nat): nat { 4 * (x / 16) + x % 4 }

  lemma LaneIs(r: nat, c: nat)
    requires r < 4 && c < 16
    ensures Lane(r, c) < 64 && LaneRow(Lane(r, c)) == r && LaneColumn(Lane(r, c)) == c
  {
    var g, d := c / 4, c % 4;
    LaneDigits(g, r, d);
  }

  lemma LaneDigits(g: nat, r: nat, d: nat)
    requires g < 4 && r < 4 && d < 4
    ensures LaneRow(16 * g + 4 * r + d) == r && LaneColumn(16 * g + 4 * r + d) == 4 * g + d
  {
    ModUnique(16 * g + 4 * r + d, 16, g, 4 * r + d);
    ModUnique(4 * r + d, 4, r, d);
    ModUnique(16 * g + 4 * r + d, 4, 4 * g + r, d);
  }

  /** The tile in row-major order. */
  function RowMajor(miv: seq<Flt>): (tile: seq<Flt>)
    requires |miv| == 64
    ensures |tile| == 64
  {
    seq(64, e requires 0 <= e < 64 => miv[Lane(e / 16, e % 16)])
  }

  lemma RowMajorAt(miv: seq<Flt>, r: nat, c: nat)
    requires |miv| == 64 && r < 4 && c < 16
    ensures Lane(r, c) < 64 && Place(16, r, c) < 64 && RowMajor(miv)[Place(16, r, c)] == miv[Lane(r, c)]
  {
    LaneIs(r, c);
    ModUnique(16 * r + c, 16, r, c);
  }

  ghost predicate MivMeets(p: Problem, miv: seq<Flt>, tm: nat, tn: nat, goal: Goal)
    requires Valid(p)
  {
    |miv| == 64 && TileMeets(p, RowMajor(miv), 4 * tm, 4, 16 * tn, 16, goal)
  }

  function LaneTerms(p: Problem, top: nat, left: nat, from: nat, to': nat, x: nat): (r: seq<Term>)
    requires |p.act| == p.m * p.k && |p.wt| == p.n * p.k && top + 4 <= p.m && left + 16 <= p.n && from <= to' <= p.k
             && x < 64
    ensures |r| == to' - from
  {
    Terms(p, top + LaneRow(x), left + LaneColumn(x))[from..to']
  }

  /** The terms of blocks `from .. to'`, lane by lane. */
  function LaneTable(p: Problem, top: nat, left: nat, from: nat, to': nat): (r: seq<seq<Term>>)
    requires |p.act| == p.m * p.k && |p.wt| == p.n * p.k && top + 4 <= p.m && left + 16 <= p.n && from <= to' <= p.k
    ensures Shaped(r, 64, to' - from)
  {
    seq(64, x requires 0 <= x < 64 => LaneTerms(p, top, left, from, to', x))
  }

  lemma LaneEntry(p: Problem, top: nat, left: nat, from: nat, to': nat, i: nat, g: nat, r: nat, c: nat)
    requires Valid(p) && top + 4 <= p.m && left + 16 <= p.n && from <= to' <= p.k && i < to' - from && g < 4 && r < 4
             && c < 4
    ensures MivTerm(LaneTable(p, top, left, from, to'), RowsOf(p, 4, top, from + i), ColumnsOf(p, 16, left, from + i),
                    i, g, r, c)
  {
    var x, column := 16 * g + (4 * r + c), 4 * g + c;
    LaneDigits(g, r, c);
    LaneTableAt(p, top, left, from, to', x, r, column);
    TermOf(p, 4, 16, top, left, from + i, r, column);
    PartAt(Terms(p, top + r, left + column), from, to', i);
  }

  lemma LaneTableIs(p: Problem, top: nat, left: nat, from: nat, to': nat)
    requires Valid(p) && top + 4 <= p.m && left + 16 <= p.n && from <= to' <= p.k
    ensures MivTable(LaneTable(p, top, left, from, to'), RowsPanel(p, 4, top, from, to'),
                     ColumnsPanel(p, 16, left, from, to'), to' - from)
  {
    var table, rows, columns := LaneTable(p, top, left, from, to'), RowsPanel(p, 4, top, from, to'),
        ColumnsPanel(p, 16, left, from, to');
    forall i: nat | i < to' - from ensures |rows[i]| == 4 && |columns[i]| == 16 {
      assert rows[i] == RowsOf(p, 4, top, from + i) && columns[i] == ColumnsOf(p, 16, left, from + i);
    }
    forall i: nat, g: nat, r: nat, c: nat | i < to' - from && g < 4 && r < 4 && c < 4
      ensures MivTerm(table, rows[i], columns[i], i, g, r, c)
    {
      LaneEntry(p, top, left, from, to', i, g, r, c);
    }
  }

  lemma MivAdvanced(p: Problem, start: seq<Flt>, result: seq<Flt>, tm: nat, tn: nat, from: nat, to': nat)
    requires Valid(p) && 4 * tm + 4 <= p.m && 16 * tn + 16 <= p.n && from <= to' <= p.k
             && MivMeets(p, start, tm, tn, Upto(from))
    requires Folded(start, result, LaneTable(p, 4 * tm, 16 * tn, from, to'), to' - from, 0, to' - from)
    ensures MivMeets(p, result, tm, tn, Upto(to'))
  {
    var tile := RowMajor(result);
    forall r: nat, c: nat | r < 4 && c < 16 ensures TileCell(p, tile, 4 * tm, 16 * tn, 16, r, c, Upto(to')) {
      assert TileCell(p, RowMajor(start), 4 * tm, 16 * tn, 16, r, c, Upto(from));
      LaneAdvanced(p, start, result, 4 * tm, 16 * tn, from, to', r, c);
    }
  }

  lemma LaneAdvanced(p: Problem, start: seq<Flt>, result: seq<Flt>, top: nat, left: nat, from: nat, to': nat, r: nat,
                     c: nat)
    requires Valid(p) && top + 4 <= p.m && left + 16 <= p.n && from <= to' <= p.k && |start| == |result| == 64 && r < 4
             && c < 16
    requires TileCell(p, RowMajor(start), top, left, 16, r, c, Upto(from))
    requires Folded(start, result, LaneTable(p, top, left, from, to'), to' - from, 0, to' - from)
    ensures TileCell(p, RowMajor(result), top, left, 16, r, c, Upto(to'))
  {
    TableAtLane(p, top, left, from, to', r, c);
    MivCell(p, start, top, left, r, c, from);
    MivCell(p, result, top, left, r, c, to');
    EntryAdvanced(start, result, LaneTable(p, top, left, from, to'), Terms(p, top + r, left + c), Lane(r, c), from,
                  to');
  }

  lemma TableAtLane(p: Problem, top: nat, left: nat, from: nat, to': nat, r: nat, c: nat)
    requires Valid(p) && top + 4 <= p.m && left + 16 <= p.n && from <= to' <= p.k && r < 4 && c < 16
    ensures Lane(r, c) < 64 && LaneTable(p, top, left, from, to')[Lane(r, c)] == Terms(p, top + r, left + c)[from..to']
  {
    LaneIs(r, c);
    LaneTableAt(p, top, left, from, to', Lane(r, c), r, c);
  }

  lemma EntryAdvanced(start: seq<Flt>, result: seq<Flt>, table: seq<seq<Term>>, terms: seq<Term>, x: nat, from: nat,
                      to': nat)
    requires from <= to' <= |terms| && x < |start| && Shaped(table, |start|, to' - from)
             && Folded(start, result, table, to' - from, 0, to' - from)
    requires table[x] == terms[from..to'] && start[x] == Fold(ZERO, terms[..from])
    ensures result[x] == Fold(ZERO, terms[..to'])
  {
    AdvancedBy(start[x], result[x], table[x], terms, from, to');
  }

  lemma MivCell(p: Problem, miv: seq<Flt>, top: nat, left: nat, r: nat, c: nat, blocks: nat)
    requires Valid(p) && top + 4 <= p.m && left + 16 <= p.n && |miv| == 64 && r < 4 && c < 16 && blocks <= p.k
    ensures Lane(r, c) < 64
    ensures TileCell(p, RowMajor(miv), top, left, 16, r, c, Upto(blocks))
            <==> miv[Lane(r, c)] == Fold(ZERO, Terms(p, top + r, left + c)[..blocks])
  {
    RowMajorAt(miv, r, c);
  }

  lemma LaneTableAt(p: Problem, top: nat, left: nat, from: nat, to': nat, x: nat, r: nat, c: nat)
    requires Valid(p) && top + 4 <= p.m && left + 16 <= p.n && from <= to' <= p.k && x < 64 && r < 4 && c < 16
    requires LaneRow(x) == r && LaneColumn(x) == c
    ensures LaneTable(p, top, left, from, to')[x] == Terms(p, top + r, left + c)[from..to']
  {}

  lemma ZeroMiv(p: Problem, miv: seq<Flt>, tm: nat, tn: nat)
    requires Valid(p) && 4 * tm + 4 <= p.m && 16 * tn + 16 <= p.n && |miv| == 64 && forall x :: 0 <= x < 64 ==>
               miv[x] == ZERO
    ensures MivMeets(p, miv, tm, tn, Upto(0))
  {
    forall e | 0 <= e < 64 ensures RowMajor(miv)[e] == ZERO { LaneIs(e / 16, e % 16); }
    ZeroMeets(p, RowMajor(miv), 4 * tm, 4, 16 * tn, 16);
  }

  /** A kernel call on blocks `from ..` of a tile. */
  method Advance(miv: seq<Flt>, a: seq<ABlock>, b: seq<BBlock>, ghost p: Problem, ghost tm: nat, ghost tn: nat,
                 ghost from: nat) returns (next: seq<Flt>)
    requires Valid(p) && |a| == |b| && APanel(p, 4, a, 4 * tm, from) && BPanel(p, 16, b, 16 * tn, from)
             && MivMeets(p, miv, tm, tn, Upto(from))
    ensures MivMeets(p, next, tm, tn, Upto(from + |a|))
  {
    ghost var to' := from + |a|;
    LaneTableIs(p, 4 * tm, 16 * tn, from, to');
    PanelOperands(p, 4, 16, a, b, 4 * tm, 16 * tn, from);
    next := KernelM4i(miv, a, b, RowsPanel(p, 4, 4 * tm, from, to'), ColumnsPanel(p, 16, 16 * tn, from, to'),
                      LaneTable(p, 4 * tm, 16 * tn, from, to'));
    MivAdvanced(p, miv, next, tm, tn, from, to');
  }

  // ---------- The copy to the output ----------

  ghost predicate Unpacked(output: seq<Flt>, miv: seq<Flt>, first: nat, r: nat, c: nat)
    requires |miv| == 64 && r < 4 && c < 16
  {
    first + c < |output| && output[first + c] == RowMajor(miv)[16 * r + c]
  }

  lemma UnpackedElement(output: seq<Flt>, miv: seq<Flt>, at: nat, width: nat, first: nat, r: nat, c: nat)
    requires |miv| == 64 && r < 4 && c < 16 && first == at + r * width && RowUnpacked(output, miv, at, width, c / 4, r)
    ensures Unpacked(output, miv, first, r, c)
  {
    var g, l := c / 4, c % 4;
    RowMajorAt(miv, r, c);
    SliceAgree(output, first + 4 * g, miv, 16 * g + 4 * r, 4, l);
  }

  lemma UnpackedSlice(output: seq<Flt>, miv: seq<Flt>, first: nat, r: nat)
    requires |miv| == 64 && r < 4 && forall c: nat :: c < 16 ==> Unpacked(output, miv, first, r, c)
    ensures first + 16 <= |output| && output[first..first + 16] == RowMajor(miv)[16 * r..16 * r + 16]
  {
    assert Unpacked(output, miv, first, r, 15);
    var x, y := output[first..first + 16], RowMajor(miv)[16 * r..16 * r + 16];
    forall c: nat | c < 16 ensures x[c] == y[c] { assert Unpacked(output, miv, first, r, c); }
  }

  lemma UnpackedRow(output: seq<Flt>, miv: seq<Flt>, at: nat, width: nat, top: nat, left: nat, r: nat)
    requires |miv| == 64 && r < 4 && at == top * width + left
    requires forall g: nat :: g < 4 ==> RowUnpacked(output, miv, at, width, g, r)
    ensures RowStored(output, width, top, left, 16, RowMajor(miv), r)
  {
    var first := (top + r) * width + left;
    RowStart(width, top, r);
    forall c: nat | c < 16 ensures Unpacked(output, miv, first, r, c) {
      UnpackedElement(output, miv, at, width, first, r, c);
    }
    UnpackedSlice(output, miv, first, r);
  }

  lemma RowStart(width: nat, top: nat, r: nat)
    ensures (top + r) * width == top * width + r * width
  {}

  lemma UnpackedElsewhere(before: seq<Flt>, after: seq<Flt>, at: nat, width: nat, top: nat, left: nat)
    requires at == top * width + left && left + 16 <= width && WindowOnly(before, after, at, width)
    ensures SameOutside(before, after, width, top, 4, left, 16)
  {
    forall i: nat, j: nat ensures Outside(before, after, width, top, 4, left, 16, i, j) {
      OutsideIs(before, after, at, width, top, left, i, j);
    }
  }

  lemma OutsideIs(before: seq<Flt>, after: seq<Flt>, at: nat, width: nat, top: nat, left: nat, i: nat, j: nat)
    requires at == top * width + left && left + 16 <= width && WindowOnly(before, after, at, width)
    ensures Outside(before, after, width, top, 4, left, 16, i, j)
  {
    if j < width && i * width + j < |before| && !(top <= i < top + 4 && left <= j < left + 16) {
      ElsewhereIs(before, after, at, width, top, left, i, j, i * width + j);
    }
  }

  lemma ElsewhereIs(before: seq<Flt>, after: seq<Flt>, at: nat, width: nat, top: nat, left: nat, i: nat, j: nat, k: nat)
    requires at == top * width + left && left + 16 <= width && WindowOnly(before, after, at, width)
    requires j < width && k == i * width + j && k < |before| && !(top <= i < top + 4 && left <= j < left + 16)
    ensures after[k] == before[k]
  {
    forall r: nat | r < 4 ensures !InRow(at, width, r, k) {
      CellElsewhere(width, left, 16, top + r, i, j);
      RowStart(width, top, r);
    }
  }

  lemma CornerFits(p: Problem, tilesM: nat, tilesN: nat, tm: nat, tn: nat, at: nat)
    requires Accepted(p, tilesM, tilesN) && tm < tilesM && tn < tilesN && at == 4 * tm * p.n + 16 * tn
    ensures 4 * tm + 4 <= p.m && 16 * tn + 16 <= p.n && at + 3 * p.n + 16 <= p.m * p.n
  {
    MulStep(p.n, 4 * tm + 3, p.m);
  }

  /** `c_unpack_ime_m4_n16` on a tile of the output. */
  method UnpackTile(output: array<Flt>, p: Problem, ghost tilesM: nat, ghost tilesN: nat, tm: nat, tn: nat,
                    miv: seq<Flt>, ghost goal: Goal)
    requires Accepted(p, tilesM, tilesN) && output.Length == p.m * p.n && tm < tilesM && tn < tilesN
             && MivMeets(p, miv, tm, tn, goal)
    modifies output
    ensures WindowHolds(p, output[..], 4 * tm, 4, 16 * tn, 16, goal)
    ensures KeptOutside(p, old(output[..]), output[..], 4 * tm, 4, 16 * tn, 16)
  {
    ghost var before := output[..];
    var at := 4 * tm * p.n + 16 * tn;
    CornerFits(p, tilesM, tilesN, tm, tn, at);
    UnpackMiv(output, miv, at, p.n);
    forall r: nat | r < 4 ensures RowStored(output[..], p.n, 4 * tm, 16 * tn, 16, RowMajor(miv), r) {
      UnpackedRow(output[..], miv, at, p.n, 4 * tm, 16 * tn, r);
    }
    UnpackedElsewhere(before, output[..], at, p.n, 4 * tm, 16 * tn);
    WindowStored(p, before, output[..], 4 * tm, 4, 16 * tn, 16, RowMajor(miv), goal);
  }

  // ---------- m4i ----------

  /** One output tile: zeroed, all of K, copied out. */
  method ComputeTile(output: array<Flt>, a: seq<ABlock>, b: seq<BBlock>, p: Problem, ghost tilesM: nat,
                     ghost tilesN: nat, tm: nat, tn: nat)
    requires Accepted(p, tilesM, tilesN) && output.Length == p.m * p.n && tm < tilesM && tn < tilesN
    requires |a| == |b| == p.k && APanel(p, 4, a, 4 * tm, 0) && BPanel(p, 16, b, 16 * tn, 0)
    modifies output
    ensures WindowHolds(p, output[..], 4 * tm, 4, 16 * tn, 16, Upto(p.k))
    ensures KeptOutside(p, old(output[..]), output[..], 4 * tm, 4, 16 * tn, 16)
  {
    var zero := seq(64, _ => ZERO);
    ZeroMiv(p, zero, tm, tn);
    var tile := Advance(zero, a, b, p, tm, tn, 0);
    UnpackTile(output, p, tilesM, tilesN, tm, tn, tile, Upto(p.k));
  }

  /** The tiles of the listed tile rows, and the first `tn` of the next one, hold the goal. */
  ghost predicate RowsHold(p: Problem, output: seq<Flt>, order: seq<nat>, x: nat, tn: nat, goal: Goal)
    requires Valid(p) && x <= |order|
  {
    forall i: nat, j: nat :: i < p.m && j < p.n && InRows(order, x, tn, i, j) ==> Cell(p, output, i, j, goal)
  }

  predicate InRows(order: seq<nat>, x: nat, tn: nat, i: nat, j: nat)
    requires x <= |order|
  {
    i / 4 in order[..x] || (x < |order| && i / 4 == order[x] && j < 16 * tn)
  }

  lemma TileRowNext(p: Problem, before: seq<Flt>, after: seq<Flt>, order: seq<nat>, x: nat, tn: nat, goal: Goal)
    requires Valid(p) && x < |order| && RowsHold(p, before, order, x, tn, goal)
    requires WindowHolds(p, after, 4 * order[x], 4, 16 * tn, 16, goal)
             && KeptOutside(p, before, after, 4 * order[x], 4, 16 * tn, 16)
    ensures RowsHold(p, after, order, x, tn + 1, goal)
  {
    forall i: nat, j: nat | i < p.m && j < p.n && InRows(order, x, tn + 1, i, j) ensures Cell(p, after, i, j, goal) {
      if !Inside(i, j, 4 * order[x], 4, 16 * tn, 16) {
        assert InRows(order, x, tn, i, j) && Cell(p, before, i, j, goal);
      }
    }
  }

  lemma RowFinished(p: Problem, output: seq<Flt>, order: seq<nat>, x: nat, tilesN: nat, goal: Goal)
    requires Valid(p) && x < |order| && p.n == 16 * tilesN && RowsHold(p, output, order, x, tilesN, goal)
    ensures RowsHold(p, output, order, x + 1, 0, goal)
  {
    forall i: nat, j: nat | i < p.m && j < p.n && InRows(order, x + 1, 0, i, j) ensures Cell(p, output, i, j, goal) {
      assert order[..x + 1] == order[..x] + [order[x]];
      assert InRows(order, x, tilesN, i, j);
    }
  }

  lemma AllRows(p: Problem, output: seq<Flt>, order: seq<nat>, tilesM: nat, goal: Goal)
    requires Valid(p) && p.m == 4 * tilesM && Schedule(order, tilesM) && RowsHold(p, output, order, |order|, 0, goal)
    ensures AllCells(p, output, goal)
  {
    forall i: nat, j: nat | i < p.m && j < p.n ensures Cell(p, output, i, j, goal) {
      assert order[..|order|] == order && i / 4 in order;
      assert InRows(order, |order|, 0, i, j);
    }
  }

  /** The m4i run: the tile rows form a parallel loop, taken in any order. */
  method Run(output: array<Flt>, a: seq<seq<ABlock>>, b: seq<seq<BBlock>>, p: Problem, tilesM: nat, tilesN: nat,
             order: seq<nat>)
    requires Accepted(p, tilesM, tilesN) && output.Length == p.m * p.n && Schedule(order, tilesM)
    requires |a| == tilesM && APrepared(p, 4, a) && |b| == tilesN && BPrepared(p, 16, b)
    modifies output
    ensures IsProduct(p, output[..])
  {
    for x := 0 to |order|
      invariant RowsHold(p, output[..], order, x, 0, Upto(p.k))
    {
      for tn := 0 to tilesN
        invariant RowsHold(p, output[..], order, x, tn, Upto(p.k))
      {
        var tm := order[x];
        assert ATile(p, 4, a, tm) && BTile(p, 16, b, tn);
        ghost var before := output[..];
        ComputeTile(output, a[tm], b[tn], p, tilesM, tilesN, tm, tn);
        TileRowNext(p, before, output[..], order, x, tn, Upto(p.k));
      }
      RowFinished(p, output[..], order, x, tilesN, Upto(p.k));
    }
    AllRows(p, output[..], order, tilesM, Upto(p.k));
    FinishedIsProduct(p, output[..]);
  }

  /** The m4i pipeline end to end. */
  method Multiply(p: Problem, tilesM: nat, tilesN: nat, order: seq<nat>) returns (output: array<Flt>)
    requires Accepted(p, tilesM, tilesN) && Schedule(order, tilesM)
    ensures fresh(output) && output.Length == p.m * p.n && IsProduct(p, output[..])
  {
    var a := PackActivations(p, 4, tilesM);
    var b := PackWeights(p, 16, tilesN);
    output := new Flt[p.m * p.n](_ => ZERO);
    Run(output, a, b, p, tilesM, tilesN, order);
  }
}
