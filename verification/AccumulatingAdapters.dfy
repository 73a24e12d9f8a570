/** The m4n32b and m32n4 adapters: K panels outermost, each kernel call adding a
    panel's blocks to a window of the output itself. */
module AccumulatingAdapters {
  import opened BitArithmetic
  import opened Floats
  import opened Quantized
  import opened Reduction
  import opened Gemm
  import opened TileShapes
  import opened OutputCells
  import opened TileOperands
  import M4i = M4iAdapter
  import Blocking = M4iBlocking

  // ---------- Progress through a nest ----------

  /** In the current panel: bands of `u` before `lo` are done, the band `lo .. hi` is
      done for `v` before `w`, and for the next `width` of them up to `t`. */
  predicate Visited(u: nat, v: nat, lo: nat, hi: nat, w: nat, t: nat, width: nat) {
    u < lo || (u < hi && (v < w || (v < w + width && u < t)))
  }

  /** Bands of rows, or of columns. */
  predicate CellVisited(rows: bool, i: nat, j: nat, lo: nat, hi: nat, w: nat, t: nat, width: nat) {
    if rows then Visited(i, j, lo, hi, w, t, width) else Visited(j, i, lo, hi, w, t, width)
  }

  /** Visited elements have met `after`, the others `before`. */
  ghost predicate Stage(p: Problem, output: seq<Flt>, before: Goal, after: Goal, rows: bool, lo: nat, hi: nat, w: nat,
                        t: nat, width: nat)
    requires Valid(p)
  {
    forall i: nat, j: nat :: i < p.m && j < p.n ==> StageAt(p, output, before, after, rows, lo, hi, w, t, width, i, j)
  }

  ghost predicate StageAt(p: Problem, output: seq<Flt>, before: Goal, after: Goal, rows: bool, lo: nat, hi: nat, w: nat,
                          t: nat, width: nat, i: nat, j: nat)
    requires Valid(p)
  {
    Cell(p, output, i, j, if CellVisited(rows, i, j, lo, hi, w, t, width) then after else before)
  }

  /** The window of the next kernel call still waits. */
  lemma WindowWaits(p: Problem, output: seq<Flt>, before: Goal, after: Goal, rows: bool, lo: nat, hi: nat, w: nat,
                    t: nat, width: nat, step: nat)
    requires Valid(p) && Stage(p, output, before, after, rows, lo, hi, w, t, width) && lo <= t && t + step <= hi
    requires if rows then t + step <= p.m && w + width <= p.n else w + width <= p.m && t + step <= p.n
    ensures if rows then WindowHolds(p, output, t, step, w, width, before)
            else WindowHolds(p, output, w, width, t, step, before)
  {
    if rows {
      forall i: nat, j: nat | Inside(i, j, t, step, w, width) ensures Cell(p, output, i, j, before) {
        assert StageAt(p, output, before, after, rows, lo, hi, w, t, width, i, j);
      }
    } else {
      forall i: nat, j: nat | Inside(i, j, w, width, t, step) ensures Cell(p, output, i, j, before) {
        assert StageAt(p, output, before, after, rows, lo, hi, w, t, width, i, j);
      }
    }
  }

  lemma StageNext(p: Problem, x: seq<Flt>, y: seq<Flt>, before: Goal, after: Goal, rows: bool, lo: nat, hi: nat, w: nat,
                  t: nat, width: nat, step: nat)
    requires Valid(p) && Stage(p, x, before, after, rows, lo, hi, w, t, width) && lo <= t && t + step <= hi
    requires rows ==> WindowHolds(p, y, t, step, w, width, after) && KeptOutside(p, x, y, t, step, w, width)
    requires !rows ==> WindowHolds(p, y, w, width, t, step, after) && KeptOutside(p, x, y, w, width, t, step)
    ensures Stage(p, y, before, after, rows, lo, hi, w, t + step, width)
  {
    var next := t + step;
    forall i: nat, j: nat | i < p.m && j < p.n
      ensures StageAt(p, y, before, after, rows, lo, hi, w, next, width, i, j)
    {
      assert StageAt(p, x, before, after, rows, lo, hi, w, t, width, i, j);
      if rows {
        if !Inside(i, j, t, step, w, width) {
          assert Visited(i, j, lo, hi, w, next, width) == Visited(i, j, lo, hi, w, t, width);
        }
      } else {
        if !Inside(i, j, w, width, t, step) {
          assert Visited(j, i, lo, hi, w, next, width) == Visited(j, i, lo, hi, w, t, width);
        }
      }
    }
  }

  /** The same elements have been visited. */
  lemma SameStage(p: Problem, x: seq<Flt>, before: Goal, after: Goal, rows: bool, lo: nat, hi: nat, w: nat, t: nat,
                  width: nat, lo': nat, hi': nat, w': nat, t': nat)
    requires Valid(p) && Stage(p, x, before, after, rows, lo, hi, w, t, width)
    requires forall i: nat, j: nat :: i < p.m && j < p.n ==>
               CellVisited(rows, i, j, lo, hi, w, t, width) == CellVisited(rows, i, j, lo', hi', w', t', width)
    ensures Stage(p, x, before, after, rows, lo', hi', w', t', width)
  {
    forall i: nat, j: nat | i < p.m && j < p.n
      ensures StageAt(p, x, before, after, rows, lo', hi', w', t', width, i, j)
    {
      assert StageAt(p, x, before, after, rows, lo, hi, w, t, width, i, j);
      assert CellVisited(rows, i, j, lo, hi, w, t, width) == CellVisited(rows, i, j, lo', hi', w', t', width);
    }
  }

  lemma NothingVisited(p: Problem, x: seq<Flt>, before: Goal, after: Goal, rows: bool, hi: nat, width: nat)
    requires Valid(p) && AllCells(p, x, before)
    ensures Stage(p, x, before, after, rows, 0, hi, 0, 0, width)
  {
    forall i: nat, j: nat | i < p.m && j < p.n ensures StageAt(p, x, before, after, rows, 0, hi, 0, 0, width, i, j) {
      assert Cell(p, x, i, j, before);
    }
  }

  lemma EverythingVisited(p: Problem, x: seq<Flt>, before: Goal, after: Goal, rows: bool, end: nat, hi: nat, width: nat)
    requires Valid(p) && end >= (if rows then p.m else p.n) && Stage(p, x, before, after, rows, end, hi, 0, end, width)
    ensures AllCells(p, x, after)
  {
    forall i: nat, j: nat | i < p.m && j < p.n ensures Cell(p, x, i, j, after) {
      assert StageAt(p, x, before, after, rows, end, hi, 0, end, width, i, j);
    }
  }

  lemma AnyCells(p: Problem, output: seq<Flt>)
    requires Valid(p) && |output| == p.m * p.n
    ensures AllCells(p, output, Anything)
  {
    forall i: nat, j: nat | i < p.m && j < p.n ensures Cell(p, output, i, j, Anything) { CellBound(p.m, p.n, i, j); }
  }

  lemma TableIs(p: Problem, mr: nat, nr: nat, top: nat, left: nat, from: nat, to': nat)
    requires Valid(p) && top + mr <= p.m && left + nr <= p.n && from <= to' <= p.k && (mr, nr) in {(4, 32), (32, 4)}
    ensures RowMajorTable(WindowTable(p, mr, nr, top, left, from, to'), RowsPanel(p, mr, top, from, to'),
                          ColumnsPanel(p, nr, left, from, to'), mr, nr, to' - from)
  {
    WindowDescribed(p, mr, nr, top, left, from, to');
  }

  // ---------- m4n32b ----------

  const KC: nat := 16    // K blocks of a panel: KC / QK8_0
  const MC: nat := 128   // rows of a chunk

  /** The shapes `validate_shape<4, 32, 32>` admits. */
  ghost predicate AcceptedM4(p: Problem, tilesM: nat, tilesN: nat) {
    Valid(p) && p.m == 4 * tilesM && p.n == 32 * tilesN && p.k > 0
  }

  /** One call of the m4n32b kernel: the window is read only after the first panel. */
  method CallM4n32b(output: array<Flt>, a: seq<ABlock>, b: seq<BBlock>, p: Problem, top: nat, left: nat,
                    ghost from: nat, accumulate: bool)
    requires Valid(p) && output.Length == p.m * p.n && |a| == |b| && APanel(p, 4, a, top, from)
             && BPanel(p, 32, b, left, from)
    requires (accumulate <==> from != 0) && WindowHolds(p, output[..], top, 4, left, 32, Blocking.Earlier(from))
    modifies output
    ensures WindowHolds(p, output[..], top, 4, left, 32, Upto(from + |a|))
    ensures KeptOutside(p, old(output[..]), output[..], top, 4, left, 32)
  {
    ghost var to' := from + |a|;
    var start := seq(128, _ => ZERO);
    if accumulate {
      start := LoadWindow(output, p, top, 4, left, 32, Upto(from));
    } else {
      ZeroMeets(p, start, top, 4, left, 32);
    }
    TableIs(p, 4, 32, top, left, from, to');
    PanelOperands(p, 4, 32, a, b, top, left, from);
    var tile := KernelM4n32b(start, a, b, RowsPanel(p, 4, top, from, to'), ColumnsPanel(p, 32, left, from, to'),
                             WindowTable(p, 4, 32, top, left, from, to'));
    FoldedMeets(p, start, tile, 4, 32, top, left, from, to');
    StoreWindow(output, p, top, 4, left, 32, tile, Upto(to'));
  }

  /** The rows of a chunk for one N tile. */
  method StripM4n32b(output: array<Flt>, a: seq<seq<ABlock>>, b: seq<BBlock>, p: Problem, ghost tilesN: nat, mc: nat,
                     mcEnd: nat, tn: nat, start: nat, blocks: nat)
    requires AcceptedM4(p, |a|, tilesN) && APrepared(p, 4, a) && output.Length == p.m * p.n && tn < tilesN
             && |b| == p.k && BPanel(p, 32, b, 32 * tn, 0)
    requires mc % 4 == 0 && mcEnd % 4 == 0 && mc <= mcEnd <= p.m && start + blocks <= p.k
    requires Stage(p, output[..], Blocking.Earlier(start), Upto(start + blocks), true, mc, mcEnd, 32 * tn, mc, 32)
    modifies output
    ensures Stage(p, output[..], Blocking.Earlier(start), Upto(start + blocks), true, mc, mcEnd, 32 * tn, mcEnd, 32)
  {
    BPart(p, 32, b, 32 * tn, start, blocks);
    var m := mc;
    while m < mcEnd
      invariant m % 4 == 0 && mc <= m <= mcEnd
      invariant Stage(p, output[..], Blocking.Earlier(start), Upto(start + blocks), true, mc, mcEnd, 32 * tn, m, 32)
    {
      var rows := TilePartM4(a, p, m, start, blocks);
      StepM4n32b(output, rows, b[start..start + blocks], p, mc, mcEnd, 32 * tn, m, start, blocks);
      m := m + 4;
    }
  }

  /** The K panel of the row tile that starts at row `m`. */
  method TilePartM4(a: seq<seq<ABlock>>, p: Problem, m: nat, start: nat, blocks: nat) returns (part: seq<ABlock>)
    requires APrepared(p, 4, a) && m % 4 == 0 && m < 4 * |a| && start + blocks <= p.k
    ensures |part| == blocks && APanel(p, 4, part, m, start)
  {
    var tm := m / 4;
    assert ATile(p, 4, a, tm);
    APart(p, 4, a[tm], m, start, blocks);
    part := a[tm][start..start + blocks];
  }

  method StepM4n32b(output: array<Flt>, a: seq<ABlock>, b: seq<BBlock>, p: Problem, ghost mc: nat, ghost mcEnd: nat,
                    left: nat, m: nat, start: nat, blocks: nat)
    requires Valid(p) && output.Length == p.m * p.n && mc <= m && m + 4 <= mcEnd <= p.m && left + 32 <= p.n
             && start + blocks <= p.k
    requires |a| == blocks && APanel(p, 4, a, m, start) && |b| == blocks && BPanel(p, 32, b, left, start)
    requires Stage(p, output[..], Blocking.Earlier(start), Upto(start + blocks), true, mc, mcEnd, left, m, 32)
    modifies output
    ensures Stage(p, output[..], Blocking.Earlier(start), Upto(start + blocks), true, mc, mcEnd, left, m + 4, 32)
  {
    hide Stage, WindowHolds, KeptOutside, APanel, BPanel;
    ghost var x, before, after := output[..], Blocking.Earlier(start), Upto(start + blocks);
    WindowWaits(p, x, before, after, true, mc, mcEnd, left, m, 32, 4);
    CallM4n32b(output, a, b, p, m, left, start, start != 0);
    StageNext(p, x, output[..], before, after, true, mc, mcEnd, left, m, 32, 4);
  }

  /** One chunk of rows: all N tiles. */
  method ChunkM4n32b(output: array<Flt>, a: seq<seq<ABlock>>, b: seq<seq<BBlock>>, p: Problem, mc: nat, mcEnd: nat,
                     start: nat, blocks: nat)
    requires AcceptedM4(p, |a|, |b|) && APrepared(p, 4, a) && BPrepared(p, 32, b) && output.Length == p.m * p.n
    requires mc % 4 == 0 && mcEnd % 4 == 0 && mc <= mcEnd <= p.m && start + blocks <= p.k
    requires Stage(p, output[..], Blocking.Earlier(start), Upto(start + blocks), true, mc, mc, 0, mc, 32)
    modifies output
    ensures Stage(p, output[..], Blocking.Earlier(start), Upto(start + blocks), true, mcEnd, mcEnd, 0, mcEnd, 32)
  {
    ghost var before, after := Blocking.Earlier(start), Upto(start + blocks);
    SameStage(p, output[..], before, after, true, mc, mc, 0, mc, 32, mc, mcEnd, 0, mc);
    for tn := 0 to |b|
      invariant Stage(p, output[..], before, after, true, mc, mcEnd, 32 * tn, mc, 32)
    {
      assert BTile(p, 32, b, tn);
      StripM4n32b(output, a, b[tn], p, |b|, mc, mcEnd, tn, start, blocks);
      SameStage(p, output[..], before, after, true, mc, mcEnd, 32 * tn, mcEnd, 32, mc, mcEnd, 32 * tn + 32, mc);
    }
    SameStage(p, output[..], before, after, true, mc, mcEnd, p.n, mc, 32, mcEnd, mcEnd, 0, mcEnd);
  }

  method PanelM4n32b(output: array<Flt>, a: seq<seq<ABlock>>, b: seq<seq<BBlock>>, p: Problem, start: nat, blocks: nat)
    requires AcceptedM4(p, |a|, |b|) && APrepared(p, 4, a) && BPrepared(p, 32, b) && output.Length == p.m * p.n
             && start + blocks <= p.k
    requires AllCells(p, output[..], Blocking.Earlier(start))
    modifies output
    ensures AllCells(p, output[..], Upto(start + blocks))
  {
    hide Stage, AllCells;
    ghost var before, after := Blocking.Earlier(start), Upto(start + blocks);
    NothingVisited(p, output[..], before, after, true, 0, 32);
    var mc: nat := 0;
    while mc < p.m
      invariant mc % 4 == 0 && mc <= p.m && Stage(p, output[..], before, after, true, mc, mc, 0, mc, 32)
    {
      var mcEnd := if p.m < mc + MC then p.m else mc + MC;
      ChunkM4n32b(output, a, b, p, mc, mcEnd, start, blocks);
      mc := mcEnd;
    }
    EverythingVisited(p, output[..], before, after, true, mc, mc, 32);
  }

  /** The m4n32b run: whatever the output holds. */
  method RunM4n32b(output: array<Flt>, a: seq<seq<ABlock>>, b: seq<seq<BBlock>>, p: Problem)
    requires AcceptedM4(p, |a|, |b|) && APrepared(p, 4, a) && BPrepared(p, 32, b) && output.Length == p.m * p.n
    modifies output
    ensures IsProduct(p, output[..])
  {
    AnyCells(p, output[..]);
    var kc: nat := 0;
    while kc < p.k
      invariant kc <= p.k && AllCells(p, output[..], Blocking.Earlier(kc))
    {
      var blocks := if p.k - kc < KC then p.k - kc else KC;
      PanelM4n32b(output, a, b, p, kc, blocks);
      kc := kc + blocks;
    }
    FinishedIsProduct(p, output[..]);
  }

  // ---------- m32n4 ----------

  const NC: nat := 512        // kNc
  const KC_BLOCKS: nat := 8   // kKcBlocks

  /** The shapes `validate_shape<32, 4, 32>` admits. */
  ghost predicate AcceptedM32(p: Problem, tilesM: nat, tilesN: nat) {
    Valid(p) && p.m == 32 * tilesM && p.n == 4 * tilesN && p.k > 0
  }

  /** One call of the m32n4 kernel, which always adds to the window. */
  method CallM32n4(output: array<Flt>, a: seq<ABlock>, b: seq<BBlock>, p: Problem, top: nat, left: nat, ghost from: nat)
    requires Valid(p) && output.Length == p.m * p.n && |a| == |b| <= KC_BLOCKS && APanel(p, 32, a, top, from)
             && BPanel(p, 4, b, left, from)
    requires WindowHolds(p, output[..], top, 32, left, 4, Upto(from))
    modifies output
    ensures WindowHolds(p, output[..], top, 32, left, 4, Upto(from + |a|))
    ensures KeptOutside(p, old(output[..]), output[..], top, 32, left, 4)
  {
    ghost var to' := from + |a|;
    var start := LoadWindow(output, p, top, 32, left, 4, Upto(from));
    TableIs(p, 32, 4, top, left, from, to');
    PanelOperands(p, 32, 4, a, b, top, left, from);
    var tile := KernelM32n4(start, a, b, RowsPanel(p, 32, top, from, to'), ColumnsPanel(p, 4, left, from, to'),
                            WindowTable(p, 32, 4, top, left, from, to'));
    FoldedMeets(p, start, tile, 32, 4, top, left, from, to');
    StoreWindow(output, p, top, 32, left, 4, tile, Upto(to'));
  }

  /** The columns of a chunk for one M tile. */
  method StripM32n4(output: array<Flt>, a: seq<ABlock>, b: seq<seq<BBlock>>, p: Problem, ghost tilesM: nat, nc: nat,
                    ncEnd: nat, tm: nat, start: nat, blocks: nat)
    requires AcceptedM32(p, tilesM, |b|) && BPrepared(p, 4, b) && output.Length == p.m * p.n && tm < tilesM
             && |a| == p.k && APanel(p, 32, a, 32 * tm, 0)
    requires nc % 4 == 0 && ncEnd % 4 == 0 && nc <= ncEnd <= p.n && start + blocks <= p.k && blocks <= KC_BLOCKS
    requires Stage(p, output[..], Upto(start), Upto(start + blocks), false, nc, ncEnd, 32 * tm, nc, 32)
    modifies output
    ensures Stage(p, output[..], Upto(start), Upto(start + blocks), false, nc, ncEnd, 32 * tm, ncEnd, 32)
  {
    APart(p, 32, a, 32 * tm, start, blocks);
    var n := nc;
    while n < ncEnd
      invariant n % 4 == 0 && nc <= n <= ncEnd
      invariant Stage(p, output[..], Upto(start), Upto(start + blocks), false, nc, ncEnd, 32 * tm, n, 32)
    {
      var columns := TilePartM32(b, p, n, start, blocks);
      StepM32n4(output, a[start..start + blocks], columns, p, nc, ncEnd, 32 * tm, n, start, blocks);
      n := n + 4;
    }
  }

  /** The K panel of the column tile that starts at column `n`. */
  method TilePartM32(b: seq<seq<BBlock>>, p: Problem, n: nat, start: nat, blocks: nat) returns (part: seq<BBlock>)
    requires BPrepared(p, 4, b) && n % 4 == 0 && n < 4 * |b| && start + blocks <= p.k
    ensures |part| == blocks && BPanel(p, 4, part, n, start)
  {
    var tn := n / 4;
    assert BTile(p, 4, b, tn);
    BPart(p, 4, b[tn], n, start, blocks);
    part := b[tn][start..start + blocks];
  }

  method StepM32n4(output: array<Flt>, a: seq<ABlock>, b: seq<BBlock>, p: Problem, ghost nc: nat, ghost ncEnd: nat,
                   top: nat, n: nat, start: nat, blocks: nat)
    requires Valid(p) && output.Length == p.m * p.n && nc <= n && n + 4 <= ncEnd <= p.n && top + 32 <= p.m
             && start + blocks <= p.k && blocks <= KC_BLOCKS
    requires |a| == blocks && APanel(p, 32, a, top, start) && |b| == blocks && BPanel(p, 4, b, n, start)
    requires Stage(p, output[..], Upto(start), Upto(start + blocks), false, nc, ncEnd, top, n, 32)
    modifies output
    ensures Stage(p, output[..], Upto(start), Upto(start + blocks), false, nc, ncEnd, top, n + 4, 32)
  {
    hide Stage, WindowHolds, KeptOutside, APanel, BPanel;
    ghost var x, before, after := output[..], Upto(start), Upto(start + blocks);
    WindowWaits(p, x, before, after, false, nc, ncEnd, top, n, 32, 4);
    CallM32n4(output, a, b, p, top, n, start);
    StageNext(p, x, output[..], before, after, false, nc, ncEnd, top, n, 32, 4);
  }

  method ChunkM32n4(output: array<Flt>, a: seq<seq<ABlock>>, b: seq<seq<BBlock>>, p: Problem, nc: nat, ncEnd: nat,
                    start: nat, blocks: nat)
    requires AcceptedM32(p, |a|, |b|) && APrepared(p, 32, a) && BPrepared(p, 4, b) && output.Length == p.m * p.n
    requires nc % 4 == 0 && ncEnd % 4 == 0 && nc <= ncEnd <= p.n && start + blocks <= p.k && blocks <= KC_BLOCKS
    requires Stage(p, output[..], Upto(start), Upto(start + blocks), false, nc, nc, 0, nc, 32)
    modifies output
    ensures Stage(p, output[..], Upto(start), Upto(start + blocks), false, ncEnd, ncEnd, 0, ncEnd, 32)
  {
    ghost var before, after := Upto(start), Upto(start + blocks);
    SameStage(p, output[..], before, after, false, nc, nc, 0, nc, 32, nc, ncEnd, 0, nc);
    for tm := 0 to |a|
      invariant Stage(p, output[..], before, after, false, nc, ncEnd, 32 * tm, nc, 32)
    {
      assert ATile(p, 32, a, tm);
      StripM32n4(output, a[tm], b, p, |a|, nc, ncEnd, tm, start, blocks);
      SameStage(p, output[..], before, after, false, nc, ncEnd, 32 * tm, ncEnd, 32, nc, ncEnd, 32 * tm + 32, nc);
    }
    SameStage(p, output[..], before, after, false, nc, ncEnd, p.m, nc, 32, ncEnd, ncEnd, 0, ncEnd);
  }

  method PanelM32n4(output: array<Flt>, a: seq<seq<ABlock>>, b: seq<seq<BBlock>>, p: Problem, start: nat, blocks: nat)
    requires AcceptedM32(p, |a|, |b|) && APrepared(p, 32, a) && BPrepared(p, 4, b) && output.Length == p.m * p.n
    requires start + blocks <= p.k && blocks <= KC_BLOCKS && AllCells(p, output[..], Upto(start))
    modifies output
    ensures AllCells(p, output[..], Upto(start + blocks))
  {
    hide Stage, AllCells;
    ghost var before, after := Upto(start), Upto(start + blocks);
    NothingVisited(p, output[..], before, after, false, 0, 32);
    var blockN: nat := 0;
    while blockN < p.n
      invariant blockN % 4 == 0 && blockN <= p.n
                && Stage(p, output[..], before, after, false, blockN, blockN, 0, blockN, 32)
    {
      var end := if p.n < blockN + NC then p.n else blockN + NC;
      ChunkM32n4(output, a, b, p, blockN, end, start, blocks);
      blockN := end;
    }
    EverythingVisited(p, output[..], before, after, false, blockN, blockN, 32);
  }

  /** The m32n4 run: the output zeroed, then panel by panel, however many blocks
      there are. */
  method RunM32n4(output: array<Flt>, a: seq<seq<ABlock>>, b: seq<seq<BBlock>>, p: Problem)
    requires AcceptedM32(p, |a|, |b|) && APrepared(p, 32, a) && BPrepared(p, 4, b) && output.Length == p.m * p.n
    modifies output
    ensures IsProduct(p, output[..])
  {
    for e := 0 to output.Length
      invariant forall x :: 0 <= x < e ==> output[x] == ZERO
    {
      output[e] := ZERO;
    }
    forall i: nat, j: nat | i < p.m && j < p.n ensures Cell(p, output[..], i, j, Upto(0)) { CellBound(p.m, p.n, i, j); }
    var blockK: nat := 0;
    while blockK < p.k
      invariant blockK <= p.k && AllCells(p, output[..], Upto(blockK))
    {
      var blocks := if p.k - blockK < KC_BLOCKS then p.k - blockK else KC_BLOCKS;
      PanelM32n4(output, a, b, p, blockK, blocks);
      blockK := blockK + blocks;
    }
    FinishedIsProduct(p, output[..]);
  }

  /** Tile shape and batching do not change the arithmetic: for every shape that
      m4i, m4n32b and m32n4 all admit, and every number of K blocks, they store the
      same floats, those of `Gemm.IsProduct`. */
  method CompareShapes(p: Problem, tilesM: nat, tilesN: nat, order: seq<nat>)
    returns (m4i: seq<Flt>, m4n32b: seq<Flt>, m32n4: seq<Flt>)
    requires Valid(p) && p.m == 32 * tilesM && p.n == 32 * tilesN && p.k > 0 && Schedule(order, 8 * tilesM)
    ensures m4i == m4n32b == m32n4 && IsProduct(p, m4i)
  {
    var first := M4i.Multiply(p, 8 * tilesM, 2 * tilesN, order);
    var a4 := PackActivations(p, 4, 8 * tilesM);
    var b32 := PackWeights(p, 32, tilesN);
    var second := new Flt[p.m * p.n](_ => ZERO);
    RunM4n32b(second, a4, b32, p);
    var a32 := PackActivations(p, 32, tilesM);
    var b4 := PackWeights(p, 4, 8 * tilesN);
    var third := new Flt[p.m * p.n](_ => ZERO);
    RunM32n4(third, a32, b4, p);
    m4i, m4n32b, m32n4 := first[..], second[..], third[..];
    ProductUnique(p, m4i, m4n32b);
    ProductUnique(p, m4i, m32n4);
  }
}
