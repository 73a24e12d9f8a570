/** The tile kernel, the rows-handled dispatcher and the row / column walk of the
    upstream IME2 path, up to the reference product over the reals. */
module UpstreamWrapper {
  import opened BitArithmetic
  import opened Floats
  import opened Quantized
  import opened Gemm
  import opened UpstreamIme2

  /** One K block of a row group: scales, negated sums, codes. */
  datatype ABlock = ABlock(scales: seq<real>, sums: seq<int>, quants: seq<Int8>)
  /** One K block of 32 columns: scales and paired codes. */
  datatype BBlock = BBlock(scales: seq<real>, quants: seq<Byte>)

  ghost predicate RowPacked(a: ABlock, row: Q8, r: nat) {
    && r < |a.scales| && r < |a.sums| && 32 * r + 32 <= |a.quants|
    && a.scales[r] == row.d && a.sums[r] == -Total(row.qs) && a.quants[32 * r..32 * r + 32] == row.qs
  }

  ghost predicate APacked(a: ABlock, rows: seq<Q8>) {
    forall r: nat :: r < |rows| ==> RowPacked(a, rows[r], r)
  }

  ghost predicate ColumnPacked(b: BBlock, column: Q4, c: nat) {
    c < |b.scales| && 16 * c + 16 <= |b.quants| && b.scales[c] == column.d
        && Paired(b.quants[16 * c..16 * c + 16], column)
  }

  ghost predicate BPacked(b: BBlock, columns: seq<Q4>) {
    forall c: nat :: c < |columns| ==> ColumnPacked(b, columns[c], c)
  }

  method PackRows(rows: seq<Q8>) returns (a: ABlock)
    ensures APacked(a, rows)
  {
    a := ABlock([], [], []);
    for row := 0 to |rows|
      invariant |a.scales| == row && |a.sums| == row && |a.quants| == 32 * row
      invariant forall r: nat :: r < row ==> RowPacked(a, rows[r], r)
    {
      ghost var before := a;
      var stored := NegatedSum(rows[row].qs);
      a := ABlock(a.scales + [rows[row].d], a.sums + [stored], a.quants + rows[row].qs);
      forall r: nat | r < row ensures RowPacked(a, rows[r], r) {
        assert RowPacked(before, rows[r], r);
        assert a.quants[32 * r..32 * r + 32] == before.quants[32 * r..32 * r + 32];
      }
    }
  }

  /** `pack_weight_block`. */
  method PackColumns(columns: seq<Q4>) returns (b: BBlock)
    ensures BPacked(b, columns)
  {
    b := BBlock([], []);
    for column := 0 to |columns|
      invariant |b.scales| == column && |b.quants| == 16 * column
      invariant forall c: nat :: c < column ==> ColumnPacked(b, columns[c], c)
    {
      ghost var before := b;
      var packed := PackColumn(columns[column]);
      b := BBlock(b.scales + [columns[column].d], b.quants + packed);
      assert b.quants[16 * column..16 * column + 16] == packed;
      forall c: nat | c < column ensures ColumnPacked(b, columns[c], c) {
        assert ColumnPacked(before, columns[c], c);
        assert b.quants[16 * c..16 * c + 16] == before.quants[16 * c..16 * c + 16];
      }
    }
  }

  // ---------- The tile kernel ----------

  function Rows(p: Problem, top: nat, count: nat, b: nat): (r: seq<Q8>)
    requires |p.act| == p.m * p.k && top + count <= p.m && b < p.k
    ensures |r| == count
  {
    seq(count, r requires 0 <= r < count => CellBound(p.m, p.k, top + r, b); p.act[(top + r) * p.k + b])
  }

  function Columns(p: Problem, left: nat, b: nat): (r: seq<Q4>)
    requires |p.wt| == p.n * p.k && left + 32 <= p.n && b < p.k
    ensures |r| == 32
  {
    seq(32, c requires 0 <= c < 32 => CellBound(p.n, p.k, left + c, b); p.wt[(left + c) * p.k + b])
  }

  /** Lane `32 * r + c` evaluates to the sum of its element's first `upto` terms. */
  ghost predicate LaneSum(p: Problem, tile: seq<Flt>, top: nat, left: nat, upto: nat, r: nat, c: nat)
    requires Valid(p) && c < 32
  {
    && top + r < p.m && left + c < p.n && upto <= p.k && r * 32 + c < |tile|
    && Eval(tile[r * 32 + c]) == Sum(Terms(p, top + r, left + c)[..upto])
  }

  ghost predicate TileSum(p: Problem, tile: seq<Flt>, top: nat, rows: nat, left: nat, upto: nat)
    requires Valid(p)
  {
    |tile| == rows * 32 && forall r: nat, c: nat :: r < rows && c < 32 ==> LaneSum(p, tile, top, left, upto, r, c)
  }

  /** The block's integer sum scaled by the weight, then by the activation scale. */
  function Reduced(acc: Flt, component: int, weightScale: real, activationScale: real): Flt {
    Fma(acc, Const(activationScale), Mul(OfInt(component), Const(weightScale)))
  }

  lemma ReducedEval(acc: Flt, t: Term)
    ensures Eval(Reduced(acc, t.component, t.weightScale, t.activationScale)) == Eval(acc) + Value(t)
  {
    assert Eval(Mul(OfInt(t.component), Const(t.weightScale))) == t.component as real * t.weightScale;
    Commute(t.activationScale, t.component as real * t.weightScale);
  }

  lemma Commute(x: real, y: real)
    ensures x * y == y * x
  {}

  lemma LaneNext(p: Problem, before: Flt, after: Flt, terms: seq<Term>, b: nat)
    requires b < |terms| && Eval(before) == Sum(terms[..b])
    requires after == Reduced(before, terms[b].component, terms[b].weightScale, terms[b].activationScale)
    ensures Eval(after) == Sum(terms[..b + 1])
  {
    ReducedEval(before, terms[b]);
    assert terms[..b + 1][..b] == terms[..b];
  }

  lemma BlockTermAt(p: Problem, top: nat, rows: nat, left: nat, b: nat, r: nat, c: nat)
    requires Valid(p) && top + rows <= p.m && left + 32 <= p.n && b < p.k && r < rows && c < 32
    ensures Terms(p, top + r, left + c)[b] == BlockTerm(Columns(p, left, b)[c], Rows(p, top, rows, b)[r])
  {
    TermAt(p, top + r, left + c, b);
  }

  /** One lane of one K block. */
  method ReduceLane(acc: Flt, a: ABlock, b: BBlock, r: nat, c: nat, ghost p: Problem, ghost top: nat, ghost rows: nat,
                    ghost left: nat, ghost ki: nat) returns (next: Flt)
    requires Valid(p) && top + rows <= p.m && left + 32 <= p.n && ki < p.k && r < rows && c < 32
    requires RowPacked(a, Rows(p, top, rows, ki)[r], r) && ColumnPacked(b, Columns(p, left, ki)[c], c)
    requires Eval(acc) == Sum(Terms(p, top + r, left + c)[..ki])
    ensures Eval(next) == Sum(Terms(p, top + r, left + c)[..ki + 1])
  {
    ghost var row, column := Rows(p, top, rows, ki)[r], Columns(p, left, ki)[c];
    var component := BlockSum(a.quants[32 * r..32 * r + 32], a.sums[r], b.quants[16 * c..16 * c + 16], row, column);
    next := Reduced(acc, component, b.scales[c], a.scales[r]);
    BlockTermAt(p, top, rows, left, ki, r, c);
    LaneNext(p, acc, next, Terms(p, top + r, left + c), ki);
  }

  /** One K block of the tile, lane by lane. */
  method ReduceBlock(tile: seq<Flt>, a: ABlock, b: BBlock, rows: nat, ghost p: Problem, ghost top: nat, ghost left: nat,
                     ghost ki: nat) returns (next: seq<Flt>)
    requires Valid(p) && top + rows <= p.m && left + 32 <= p.n && ki < p.k
    requires APacked(a, Rows(p, top, rows, ki)) && BPacked(b, Columns(p, left, ki))
             && TileSum(p, tile, top, rows, left, ki)
    ensures TileSum(p, next, top, rows, left, ki + 1)
  {
    next := [];
    ghost var upto := ki + 1;
    for r := 0 to rows
      invariant |next| == r * 32 && forall i: nat, j: nat :: i < r && j < 32 ==> LaneSum(p, next, top, left, upto, i, j)
    {
      for c := 0 to 32
        invariant |next| == r * 32 + c && forall i: nat, j: nat :: j < 32 && (i < r || (i == r && j < c)) ==>
                    LaneSum(p, next, top, left, upto, i, j)
      {
        ghost var before := next;
        assert LaneSum(p, tile, top, left, ki, r, c);
        var lane := ReduceLane(tile[r * 32 + c], a, b, r, c, p, top, rows, left, ki);
        next := next + [lane];
        forall i: nat, j: nat | j < 32 && (i < r || (i == r && j < c + 1))
          ensures LaneSum(p, next, top, left, upto, i, j)
        {
          if (i, j) != (r, c) { assert LaneSum(p, before, top, left, upto, i, j); }
        }
      }
    }
  }

  /** `gemm_kernel_i8i4_m4` and `gemm_kernel_i8i4_m1` on their rows. */
  method TileKernel(a: seq<ABlock>, b: seq<BBlock>, rows: nat, ghost p: Problem, ghost top: nat, ghost left: nat)
    returns (tile: seq<Flt>)
    requires Valid(p) && top + rows <= p.m && left + 32 <= p.n && |a| == |b| == p.k
    requires forall i: nat :: i < p.k ==> APacked(a[i], Rows(p, top, rows, i)) && BPacked(b[i], Columns(p, left, i))
    ensures TileSum(p, tile, top, rows, left, p.k)
  {
    tile := seq(rows * 32, _ => ZERO);
    forall r: nat, c: nat | r < rows && c < 32 ensures LaneSum(p, tile, top, left, 0, r, c) { MulStep(32, r, rows); }
    for ki := 0 to |a|
      invariant TileSum(p, tile, top, rows, left, ki)
    {
      tile := ReduceBlock(tile, a[ki], b[ki], rows, p, top, left, ki);
    }
  }

  // ---------- The output ----------

  /** Output element `(i, j)` evaluates to the sum of its terms. */
  ghost predicate Right(p: Problem, output: seq<Flt>, i: nat, j: nat)
    requires Valid(p)
  {
    i < p.m && j < p.n && i * p.n + j < |output| && Eval(output[i * p.n + j]) == Sum(Terms(p, i, j))
  }

  lemma WindowStored(p: Problem, before: seq<Flt>, after: seq<Flt>, top: nat, rows: nat, left: nat, tile: seq<Flt>)
    requires Valid(p) && |before| == |after| == p.m * p.n && top + rows <= p.m && left + 32 <= p.n
             && TileSum(p, tile, top, rows, left, p.k)
    requires RowsStored(after, p.n, top, left, 32, tile, rows) && SameOutside(before, after, p.n, top, rows, left, 32)
    ensures forall i: nat, j: nat :: top <= i < top + rows && left <= j < left + 32 ==> Right(p, after, i, j)
    ensures forall i: nat, j: nat :: Right(p, before, i, j) ==> Right(p, after, i, j)
  {
    forall i: nat, j: nat | top <= i < top + rows && left <= j < left + 32 ensures Right(p, after, i, j) {
      StoredRight(p, after, top, rows, left, tile, i - top, j - left);
    }
    forall i: nat, j: nat | Right(p, before, i, j) ensures Right(p, after, i, j) {
      if !(top <= i < top + rows && left <= j < left + 32) {
        assert Outside(before, after, p.n, top, rows, left, 32, i, j);
      }
    }
  }

  lemma StoredRight(p: Problem, after: seq<Flt>, top: nat, rows: nat, left: nat, tile: seq<Flt>, r: nat, c: nat)
    requires Valid(p) && |after| == p.m * p.n && top + rows <= p.m && left + 32 <= p.n
             && TileSum(p, tile, top, rows, left, p.k)
    requires r < rows && c < 32 && RowsStored(after, p.n, top, left, 32, tile, rows)
    ensures Right(p, after, top + r, left + c)
  {
    assert RowStored(after, p.n, top, left, 32, tile, r) && LaneSum(p, tile, top, left, p.k, r, c);
    CellBound(p.m, p.n, top + r, left + c);
    SliceAgree(after, (top + r) * p.n + left, tile, r * 32, 32, c);
    assert Terms(p, top + r, left + c)[..p.k] == Terms(p, top + r, left + c);
  }

  // ---------- The wrapper ----------

  /** Rows a kernel call takes when `remaining` are left. */
  function RowsHandled(remaining: nat): (r: nat)
    requires remaining > 0
    ensures 0 < r <= remaining
  {
    if remaining >= 4 then 4 else 1
  }

  /** The packed row groups cover rows `top .. top + remaining` as the dispatcher
      takes them: groups of four, then single rows. */
  ghost predicate GroupsPacked(p: Problem, groups: seq<seq<ABlock>>, top: nat, remaining: nat)
    requires Valid(p)
    decreases remaining
  {
    top + remaining <= p.m &&
    if remaining == 0 then groups == []
    else
      var rows := RowsHandled(remaining);
      && |groups| > 0 && |groups[0]| == p.k
      && (forall i: nat :: i < p.k ==> APacked(groups[0][i], Rows(p, top, rows, i)))
      && GroupsPacked(p, groups[1..], top + rows, remaining - rows)
  }

  ghost predicate PanelPacked(p: Problem, b: seq<BBlock>, left: nat)
    requires Valid(p)
  {
    left + 32 <= p.n && |b| == p.k && forall i: nat :: i < p.k ==> BPacked(b[i], Columns(p, left, i))
  }

  /** How often each row has been written. */
  function Visited(visits: seq<nat>, from: nat, rows: nat): (r: seq<nat>)
    requires from + rows <= |visits|
    ensures |r| == |visits|
  {
    seq(|visits|, i requires 0 <= i < |visits| => if from <= i < from + rows then visits[i] + 1 else visits[i])
  }

  /** The row walk for one block of columns: it ends, takes each row once, and
      leaves nothing outside its rows and columns changed. */
  method WalkRows(output: array<Flt>, groups: seq<seq<ABlock>>, b: seq<BBlock>, p: Problem, top: nat, rowCount: nat,
                  left: nat) returns (ghost visits: seq<nat>)
    requires Valid(p) && output.Length == p.m * p.n && GroupsPacked(p, groups, top, rowCount) && PanelPacked(p, b, left)
    modifies output
    ensures visits == seq(rowCount, _ => 1)
    ensures forall i: nat, j: nat :: top <= i < top + rowCount && left <= j < left + 32 ==> Right(p, output[..], i, j)
    ensures forall i: nat, j: nat :: old(Right(p, output[..], i, j)) ==> Right(p, output[..], i, j)
  {
    visits := seq(rowCount, _ => 0);
    var aRow := groups;
    var cBlock := top;
    var rowsRemaining := rowCount;
    while rowsRemaining > 0
      invariant 0 <= rowsRemaining <= rowCount && cBlock == top + rowCount - rowsRemaining
      invariant GroupsPacked(p, aRow, cBlock, rowsRemaining)
      invariant visits == seq(rowCount, i => if i < cBlock - top then 1 else 0)
      invariant forall i: nat, j: nat :: top <= i < cBlock && left <= j < left + 32 ==> Right(p, output[..], i, j)
      invariant forall i: nat, j: nat :: old(Right(p, output[..], i, j)) ==> Right(p, output[..], i, j)
    {
      var rowsHandled := GemmKernel(output, aRow[0], b, p, cBlock, rowsRemaining, left);
      visits := Visited(visits, cBlock - top, rowsHandled);
      cBlock := cBlock + rowsHandled;
      aRow := aRow[1..];
      rowsRemaining := rowsRemaining - rowsHandled;
    }
  }

  /** `gemm_kernel_i8i4`: four rows when there are four, else one. */
  method GemmKernel(output: array<Flt>, a: seq<ABlock>, b: seq<BBlock>, p: Problem, top: nat, rowsRemaining: nat,
                    left: nat) returns (handled: nat)
    requires Valid(p) && output.Length == p.m * p.n && rowsRemaining > 0 && top + rowsRemaining <= p.m && |a| == p.k
             && PanelPacked(p, b, left)
    requires forall i: nat :: i < p.k ==> APacked(a[i], Rows(p, top, RowsHandled(rowsRemaining), i))
    modifies output
    ensures handled == RowsHandled(rowsRemaining)
    ensures forall i: nat, j: nat :: top <= i < top + handled && left <= j < left + 32 ==> Right(p, output[..], i, j)
    ensures forall i: nat, j: nat :: old(Right(p, output[..], i, j)) ==> Right(p, output[..], i, j)
  {
    handled := if rowsRemaining >= 4 then 4 else 1;
    var tile := TileKernel(a, b, handled, p, top, left);
    ghost var before := output[..];
    MulOrder(top + handled, p.m, p.n);
    StoreTile(output, p.n, top, handled, left, 32, tile);
    WindowStored(p, before, output[..], top, handled, left, tile);
  }

  /** `sqnbitgemm_spacemit_ime_ime2_i8i4`: the walk over column blocks and rows. */
  method Wrapper(output: array<Flt>, groups: seq<seq<ABlock>>, panels: seq<seq<BBlock>>, p: Problem, top: nat,
                 rowCount: nat, left: nat)
    requires Valid(p) && output.Length == p.m * p.n && GroupsPacked(p, groups, top, rowCount)
    requires forall x: nat :: x < |panels| ==> PanelPacked(p, panels[x], left + 32 * x)
    modifies output
    ensures forall i: nat, j: nat :: top <= i < top + rowCount && left <= j < left + 32 * |panels| ==>
              Right(p, output[..], i, j)
    ensures forall i: nat, j: nat :: old(Right(p, output[..], i, j)) ==> Right(p, output[..], i, j)
  {
    for block := 0 to |panels|
      invariant forall i: nat, j: nat :: top <= i < top + rowCount && left <= j < left + 32 * block ==>
                  Right(p, output[..], i, j)
      invariant forall i: nat, j: nat :: old(Right(p, output[..], i, j)) ==> Right(p, output[..], i, j)
    {
      var visits := WalkRows(output, groups, panels[block], p, top, rowCount, left + 32 * block);
    }
  }

  // ---------- The adapter ----------

  /** The shapes `validate_shape<4, 32, 32>` admits. */
  ghost predicate Accepted(p: Problem, rowTiles: nat, columnTiles: nat) {
    Valid(p) && p.m == 4 * rowTiles && p.n == 32 * columnTiles
  }

  method PackGroup(p: Problem, top: nat) returns (group: seq<ABlock>)
    requires Valid(p) && top + 4 <= p.m
    ensures |group| == p.k && forall i: nat :: i < p.k ==> APacked(group[i], Rows(p, top, 4, i))
  {
    group := [];
    for block := 0 to p.k
      invariant |group| == block && forall i: nat :: i < block ==> APacked(group[i], Rows(p, top, 4, i))
    {
      var a := PackRows(Rows(p, top, 4, block));
      group := group + [a];
    }
  }

  method PackPanel(p: Problem, left: nat) returns (panel: seq<BBlock>)
    requires Valid(p) && left + 32 <= p.n
    ensures PanelPacked(p, panel, left)
  {
    panel := [];
    for block := 0 to p.k
      invariant |panel| == block && forall i: nat :: i < block ==> BPacked(panel[i], Columns(p, left, i))
    {
      var b := PackColumns(Columns(p, left, block));
      panel := panel + [b];
    }
  }

  method Prepare(p: Problem, rowTiles: nat, columnTiles: nat)
    returns (groups: seq<seq<ABlock>>, panels: seq<seq<BBlock>>)
    requires Accepted(p, rowTiles, columnTiles)
    ensures |groups| == rowTiles && forall x: nat :: x < rowTiles ==> GroupsPacked(p, [groups[x]], 4 * x, 4)
    ensures |panels| == columnTiles && forall x: nat :: x < columnTiles ==> PanelPacked(p, panels[x], 32 * x)
  {
    groups := [];
    for t := 0 to rowTiles
      invariant |groups| == t && forall x: nat :: x < t ==> GroupsPacked(p, [groups[x]], 4 * x, 4)
    {
      var group := PackGroup(p, 4 * t);
      OneGroup(p, group, 4 * t);
      groups := groups + [group];
    }
    panels := [];
    for t := 0 to columnTiles
      invariant |panels| == t && forall x: nat :: x < t ==> PanelPacked(p, panels[x], 32 * x)
    {
      var panel := PackPanel(p, 32 * t);
      panels := panels + [panel];
    }
  }

  /** The upstream path end to end, over the reals: packing, wrapper and kernels
      leave the reference dot product in every output element, for any order of
      the parallel column tiles. */
  method Multiply(p: Problem, rowTiles: nat, columnTiles: nat, iterations: nat, order: seq<nat>)
    returns (output: array<Flt>)
    requires Accepted(p, rowTiles, columnTiles) && iterations >= 1 && Schedule(order, columnTiles)
    ensures output.Length == p.m * p.n
    ensures forall i: nat, j: nat :: i < p.m && j < p.n ==> Matches(p, output[..], i, j)
  {
    var groups, panels := Prepare(p, rowTiles, columnTiles);
    output := new Flt[p.m * p.n](_ => ZERO);
    for iteration := 0 to iterations
      invariant iteration > 0 ==> forall i: nat, j: nat :: i < p.m && j < p.n ==> Right(p, output[..], i, j)
    {
      RunOnce(output, groups, panels, p, rowTiles, columnTiles, order);
    }
    forall i: nat, j: nat | i < p.m && j < p.n
      ensures Matches(p, output[..], i, j)
    {
      RightMatches(p, output[..], i, j);
    }
  }

  lemma RightMatches(p: Problem, output: seq<Flt>, i: nat, j: nat)
    requires Valid(p) && Right(p, output, i, j)
    ensures Matches(p, output, i, j)
  {
    MulStep(p.k, i, p.m);
    MulStep(p.k, j, p.n);
  }

  lemma OneGroup(p: Problem, group: seq<ABlock>, top: nat)
    requires Valid(p) && top + 4 <= p.m && |group| == p.k && forall i: nat :: i < p.k ==>
               APacked(group[i], Rows(p, top, 4, i))
    ensures GroupsPacked(p, [group], top, 4)
  {
    assert [group][1..] == [];
    assert GroupsPacked(p, [], top + 4, 0);
  }

  method RunOnce(output: array<Flt>, groups: seq<seq<ABlock>>, panels: seq<seq<BBlock>>, p: Problem, rowTiles: nat,
                 columnTiles: nat, order: seq<nat>)
    requires Accepted(p, rowTiles, columnTiles) && output.Length == p.m * p.n && Schedule(order, columnTiles)
             && |groups| == rowTiles && |panels| == columnTiles
    requires forall x: nat :: x < rowTiles ==> GroupsPacked(p, [groups[x]], 4 * x, 4)
    requires forall x: nat :: x < columnTiles ==> PanelPacked(p, panels[x], 32 * x)
    modifies output
    ensures forall i: nat, j: nat :: i < p.m && j < p.n ==> Right(p, output[..], i, j)
  {
    for x := 0 to |order|
      invariant forall y, i: nat, j: nat :: 0 <= y < x && i < p.m && 32 * order[y] <= j < 32 * order[y] + 32 ==>
                  Right(p, output[..], i, j)
    {
      RunColumnTile(output, groups, panels[order[x]], p, rowTiles, 32 * order[x]);
    }
    forall i: nat, j: nat | i < p.m && j < p.n ensures Right(p, output[..], i, j) {
      var tile := j / 32;
      assert tile in order;
      var y :| 0 <= y < |order| && order[y] == tile;
      assert 32 * order[y] <= j < 32 * order[y] + 32;
    }
  }

  method RunColumnTile(output: array<Flt>, groups: seq<seq<ABlock>>, panel: seq<BBlock>, p: Problem, rowTiles: nat,
                       left: nat)
    requires Valid(p) && p.m == 4 * rowTiles && output.Length == p.m * p.n && |groups| == rowTiles
             && PanelPacked(p, panel, left)
    requires forall x: nat :: x < rowTiles ==> GroupsPacked(p, [groups[x]], 4 * x, 4)
    modifies output
    ensures forall i: nat, j: nat :: i < p.m && left <= j < left + 32 ==> Right(p, output[..], i, j)
    ensures forall i: nat, j: nat :: old(Right(p, output[..], i, j)) ==> Right(p, output[..], i, j)
  {
    for rowTile := 0 to rowTiles
      invariant forall i: nat, j: nat :: i < 4 * rowTile && left <= j < left + 32 ==> Right(p, output[..], i, j)
      invariant forall i: nat, j: nat :: old(Right(p, output[..], i, j)) ==> Right(p, output[..], i, j)
    {
      Wrapper(output, [groups[rowTile]], [panel], p, 4 * rowTile, 4, left);
    }
  }
}
