/** The other IME1 tile kernels: m4i (4 x 16, every block reduced at once, tile in
    matrix-in-vector order), m4n32b (4 x 32, batches of eight) and m32n4 (32 x 4,
    rows reduced after all dots). Tile shape, accumulator order and batching do
    not change what each element is folded with. */
module TileShapes {
  import opened BitArithmetic
  import opened Floats
  import opened Quantized
  import opened Reduction
  import opened VectorUnit
  import opened Ime1Dot

  /** One K block: row groups in `quantize_a_4row_i8` layout with their scales, and
      packed columns with theirs. */
  datatype ABlock = ABlock(qs: seq<Int8>, d: seq<real>)
  datatype BBlock = BBlock(qs: seq<Byte>, d: seq<real>)

  function RowGroup(rows: seq<Q8>, h: nat): (r: seq<Q8>)
    requires 4 * h + 4 <= |rows|
    ensures |r| == 4
  {
    rows[4 * h..4 * h + 4]
  }

  function ColumnGroup(columns: seq<Q4>, g: nat): (r: seq<Q4>)
    requires 4 * g + 4 <= |columns|
    ensures |r| == 4
  {
    columns[4 * g..4 * g + 4]
  }

  /** Rows in groups of four, 128 bytes a group. */
  ghost predicate APacked(a: ABlock, rows: seq<Q8>) {
    && |rows| % 4 == 0 && |a.qs| == 32 * |rows| && |a.d| == |rows|
    && (forall m: nat :: m < |rows| ==> a.d[m] == rows[m].d)
    && (forall h: nat, w: nat :: 4 * h + 4 <= |rows| && w < 4 ==> GroupWindow(a.qs, rows, h, w))
  }

  ghost predicate GroupWindow(qs: seq<Int8>, rows: seq<Q8>, h: nat, w: nat)
    requires 4 * h + 4 <= |rows| && w < 4
  {
    128 * h + 32 * w + 32 <= |qs| && ARegister(qs[128 * h + 32 * w..128 * h + 32 * w + 32], RowGroup(rows, h), w)
  }

  ghost predicate BPacked(b: BBlock, columns: seq<Q4>) {
    && PackedColumns(b.qs, columns) && |b.d| == |columns|
    && forall n: nat :: n < |columns| ==> b.d[n] == columns[n].d
  }

  /** The four dots of row group `h` and column group `g`. */
  method DotGroup(a: ABlock, b: BBlock, h: nat, g: nat, ghost rows: seq<Q8>, ghost columns: seq<Q4>)
    returns (acc: seq<int>)
    requires APacked(a, rows) && BPacked(b, columns) && 4 * h + 4 <= |rows| && 4 * g + 4 <= |columns|
    ensures GroupDots(acc, RowGroup(rows, h), ColumnGroup(columns, g))
  {
    acc := Zeros(16);
    NoDots(RowGroup(rows, h), ColumnGroup(columns, g));
    for inner := 0 to 2
      invariant PartialDots(acc, RowGroup(rows, h), ColumnGroup(columns, g), 2 * inner)
    {
      acc := DotInner(acc, a, b, h, g, inner, rows, columns);
    }
    AllDots(acc, RowGroup(rows, h), ColumnGroup(columns, g));
  }

  method DotInner(acc: seq<int>, a: ABlock, b: BBlock, h: nat, g: nat, inner: nat, ghost rows: seq<Q8>,
                  ghost columns: seq<Q4>) returns (next: seq<int>)
    requires APacked(a, rows) && BPacked(b, columns) && 4 * h + 4 <= |rows| && 4 * g + 4 <= |columns| && inner < 2
    requires PartialDots(acc, RowGroup(rows, h), ColumnGroup(columns, g), 2 * inner)
    ensures PartialDots(next, RowGroup(rows, h), ColumnGroup(columns, g), 2 * inner + 2)
  {
    ghost var w, v := 2 * inner, 2 * inner + 1;
    assert GroupWindow(a.qs, rows, h, w) && GroupWindow(a.qs, rows, h, v);
    GroupRegisters(b.qs, columns, inner, g);
    var at := 128 * h + 64 * inner;
    var packed := GroupBytes(b.qs, |b.d|, inner, g);
    VmadotPair(acc, a.qs[at..at + 32], Low(packed), a.qs[at + 32..at + 64], High(packed), RowGroup(rows, h),
               ColumnGroup(columns, g), inner);
    next := Vmadot1(acc, a.qs[at..at + 32], Low(packed));
    next := Vmadot1(next, a.qs[at + 32..at + 64], High(packed));
  }

  lemma LaneIs(acc: seq<int>, rows: seq<Q8>, columns: seq<Q4>, h: nat, g: nat, r: nat, c: nat)
    requires 4 * h + 4 <= |rows| && 4 * g + 4 <= |columns| && r < 4 && c < 4
             && GroupDots(acc, RowGroup(rows, h), ColumnGroup(columns, g))
    ensures acc[4 * r + c] == BlockDot(columns[4 * g + c], rows[4 * h + r])
  {
    assert GroupDot(acc, RowGroup(rows, h), ColumnGroup(columns, g), r, c);
  }

  // ---------- m4i ----------

  /** The tile in matrix-in-vector order: lane `16 * g + 4 * r + c` is element
      `(r, 4 * g + c)`. The table lists its terms. */
  ghost predicate MivTerm(table: seq<seq<Term>>, rows: seq<Q8>, columns: seq<Q4>, b: nat, g: nat, r: nat, c: nat)
    requires |rows| == 4 && |columns| == 16 && g < 4 && r < 4 && c < 4
  {
    16 * g + (4 * r + c) < |table| && b < |table[16 * g + (4 * r + c)]|
        && table[16 * g + (4 * r + c)][b] == BlockTerm(columns[4 * g + c], rows[r])
  }

  ghost predicate MivTable(table: seq<seq<Term>>, rows: seq<seq<Q8>>, columns: seq<seq<Q4>>, blocks: nat) {
    && Shaped(table, 64, blocks) && |rows| == |columns| == blocks
    && (forall b :: 0 <= b < blocks ==> |rows[b]| == 4 && |columns[b]| == 16)
    && (forall b: nat, g: nat, r: nat, c: nat :: b < blocks && g < 4 && r < 4 && c < 4 ==>
        MivTerm(table, rows[b], columns[b], b, g, r, c))
  }

  /** A weight-scale register: four lanes by a short load, then the next four by a
      masked load that starts four elements earlier; twice over. */
  function ScaleRegister(d: seq<real>, g: nat): (s: seq<real>)
    requires |d| == 16 && g < 4
    ensures |s| == 16 && forall l: nat :: l < 16 ==> s[l] == d[4 * g + l % 4]
  {
    var low := seq(8, i requires 0 <= i < 8 => if i < 4 then d[4 * g + i] else d[4 * g - 4 + i]);
    low + low
  }

  /** The activation scales of lanes `4 * r .. 4 * r + 4`. */
  function RowScales(d: seq<real>): (s: seq<real>)
    requires |d| == 4
    ensures |s| == 16 && forall l: nat :: l < 16 ==> s[l] == d[l / 4]
  {
    seq(16, l requires 0 <= l < 16 => d[l / 4])
  }

  function FmaLanes(acc: seq<Flt>, component: seq<int>, wScale: seq<real>, aScale: seq<real>): (r: seq<Flt>)
    requires |acc| == |component| == |wScale| == |aScale| == 16
    ensures |r| == 16
  {
    seq(16, l requires 0 <= l < 16 => Fma(acc[l], OfInt(component[l]), Mul(Const(wScale[l]), Const(aScale[l]))))
  }

  lemma MivLane(table: seq<seq<Term>>, before: seq<Flt>, rows: seq<Q8>, columns: seq<Q4>, a: ABlock, b: BBlock,
                acc: seq<int>, bk: nat, g: nat, l: nat)
    requires |rows| == 4 && |columns| == 16 && g < 4 && l < 16 && APacked(a, rows) && BPacked(b, columns)
             && |before| == 16
    requires GroupDots(acc, RowGroup(rows, 0), ColumnGroup(columns, g))
             && MivTerm(table, rows, columns, bk, g, l / 4, l % 4)
    ensures 16 * g + l < |table| && bk < |table[16 * g + l]|
    ensures FmaLanes(before, acc, ScaleRegister(b.d, g), RowScales(a.d))[l] == Reduce(before[l], table[16 * g + l][bk])
  {
    var r, c := l / 4, l % 4;
    assert l == 4 * r + c;
    LaneIs(acc, rows, columns, 0, g, r, c);
  }

  /** Accumulator `g` of one K block. */
  method StepGroup(acc: seq<Flt>, a: ABlock, b: BBlock, g: nat, ghost rows: seq<Q8>, ghost columns: seq<Q4>,
                   ghost table: seq<seq<Term>>, ghost bk: nat) returns (lanes: seq<Flt>)
    requires |acc| == 16 && g < 4 && |rows| == 4 && |columns| == 16 && APacked(a, rows) && BPacked(b, columns)
    requires forall r: nat, c: nat :: r < 4 && c < 4 ==> MivTerm(table, rows, columns, bk, g, r, c)
    ensures |lanes| == 16 && forall l: nat :: l < 16 ==> LaneStepped(lanes, acc, table, bk, g, l)
  {
    var dots := DotGroup(a, b, 0, g, rows, columns);
    lanes := FmaLanes(acc, dots, ScaleRegister(b.d, g), RowScales(a.d));
    forall l: nat | l < 16 ensures LaneStepped(lanes, acc, table, bk, g, l) {
      assert MivTerm(table, rows, columns, bk, g, l / 4, l % 4);
      MivLane(table, acc, rows, columns, a, b, dots, bk, g, l);
    }
  }

  ghost predicate LaneStepped(lanes: seq<Flt>, acc: seq<Flt>, table: seq<seq<Term>>, bk: nat, g: nat, l: nat)
    requires |lanes| == |acc| == 16 && l < 16
  {
    16 * g + l < |table| && bk < |table[16 * g + l]| && lanes[l] == Reduce(acc[l], table[16 * g + l][bk])
  }

  /** One K block of m4i: dots, scales and reduction of the four accumulators. */
  method StepM4i(acc: seq<Flt>, a: ABlock, b: BBlock, ghost rows: seq<Q8>, ghost columns: seq<Q4>,
                 ghost table: seq<seq<Term>>, ghost blocks: nat, ghost bk: nat) returns (next: seq<Flt>)
    requires |acc| == 64 && |rows| == 4 && |columns| == 16 && APacked(a, rows) && BPacked(b, columns)
             && Shaped(table, 64, blocks) && bk < blocks
    requires forall g: nat, r: nat, c: nat :: g < 4 && r < 4 && c < 4 ==> MivTerm(table, rows, columns, bk, g, r, c)
    ensures Stepped(acc, next, table, blocks, bk)
  {
    next := [];
    for g := 0 to 4
      invariant |next| == 16 * g && forall e :: 0 <= e < 16 * g ==> next[e] == Reduce(acc[e], table[e][bk])
    {
      var lanes := StepGroup(acc[16 * g..16 * g + 16], a, b, g, rows, columns, table, bk);
      ghost var before := next;
      next := next + lanes;
      forall e | 0 <= e < 16 * g + 16 ensures next[e] == Reduce(acc[e], table[e][bk]) {
        if e < 16 * g {
          assert next[e] == before[e];
        } else {
          var l := e - 16 * g;
          assert next[e] == lanes[l] && LaneStepped(lanes, acc[16 * g..16 * g + 16], table, bk, g, l);
        }
      }
    }
  }

  /** The m4i kernel: it only adds to the caller's tile. */
  method KernelM4i(acc: seq<Flt>, a: seq<ABlock>, b: seq<BBlock>, ghost rows: seq<seq<Q8>>, ghost columns: seq<seq<Q4>>,
                   ghost table: seq<seq<Term>>) returns (result: seq<Flt>)
    requires |acc| == 64 && |a| == |b| && MivTable(table, rows, columns, |a|)
    requires forall i: nat :: i < |a| ==> APacked(a[i], rows[i]) && BPacked(b[i], columns[i])
    ensures |result| == 64 && Folded(acc, result, table, |a|, 0, |a|)
  {
    result := acc;
    FoldedNone(acc, table, |a|, 0);
    for bk := 0 to |a|
      invariant |result| == 64 && Folded(acc, result, table, |a|, 0, bk)
    {
      ghost var before := result;
      result := StepM4i(result, a[bk], b[bk], rows[bk], columns[bk], table, |a|, bk);
      FoldedStep(acc, before, result, table, |a|, 0, bk);
    }
  }

  /** Row `r` of the output window holds the tile's row. */
  ghost predicate RowUnpacked(output: seq<Flt>, miv: seq<Flt>, at: nat, ldc: nat, g: nat, r: nat)
    requires |miv| == 64 && g < 4 && r < 4
  {
    at + r * ldc + 4 * g + 4 <= |output|
        && output[at + r * ldc + 4 * g..at + r * ldc + 4 * g + 4] == miv[16 * g + 4 * r..16 * g + 4 * r + 4]
  }

  lemma RowsApart(ldc: nat, g: nat, r: nat, h: nat, s: nat)
    requires ldc >= 16 && g < 4 && h < 4 && r < 4 && s < 4 && (g, r) != (h, s)
    ensures r * ldc + 4 * g + 4 <= s * ldc + 4 * h || s * ldc + 4 * h + 4 <= r * ldc + 4 * g
  {
    if r < s { MulStep(ldc, r, s); } else if s < r { MulStep(ldc, s, r); }
  }

  /** Position `k` lies in row `r` of the window at `at`. */
  predicate InRow(at: nat, ldc: nat, r: nat, k: int) { at + r * ldc <= k < at + r * ldc + 16 }

  /** Nothing outside the window's four rows has changed. */
  ghost predicate WindowOnly(before: seq<Flt>, after: seq<Flt>, at: nat, ldc: nat) {
    |before| == |after| && forall k :: 0 <= k < |before| && (forall r: nat :: r < 4 ==> !InRow(at, ldc, r, k)) ==>
        after[k] == before[k]
  }

  /** `c_unpack_ime_m4_n16`: chunk by chunk, two rows a chunk. */
  method UnpackMiv(output: array<Flt>, miv: seq<Flt>, at: nat, ldc: nat)
    requires |miv| == 64 && ldc >= 16 && at + 3 * ldc + 16 <= output.Length
    modifies output
    ensures forall g: nat, r: nat :: g < 4 && r < 4 ==> RowUnpacked(output[..], miv, at, ldc, g, r)
    ensures WindowOnly(old(output[..]), output[..], at, ldc)
  {
    for g := 0 to 4
      invariant forall h: nat, s: nat :: h < g && s < 4 ==> RowUnpacked(output[..], miv, at, ldc, h, s)
      invariant WindowOnly(old(output[..]), output[..], at, ldc)
    {
      for half := 0 to 2
        invariant forall h: nat, s: nat :: s < 4 && (h < g || (h == g && s < 2 * half)) ==>
                    RowUnpacked(output[..], miv, at, ldc, h, s)
        invariant WindowOnly(old(output[..]), output[..], at, ldc)
      {
        UnpackChunk(output, miv, at, ldc, g, half);
      }
    }
  }

  /** Chunk `2 * g + half`: a low and a high store. */
  method UnpackChunk(output: array<Flt>, miv: seq<Flt>, at: nat, ldc: nat, g: nat, half: nat)
    requires |miv| == 64 && ldc >= 16 && at + 3 * ldc + 16 <= output.Length && g < 4 && half < 2
    modifies output
    ensures forall h: nat, s: nat ::
            h < 4 && s < 4 && ((h == g && (s == 2 * half || s == 2 * half + 1))
                               || old(RowUnpacked(output[..], miv, at, ldc, h, s))) ==>
              RowUnpacked(output[..], miv, at, ldc, h, s)
    ensures WindowOnly(old(output[..]), output[..], at, ldc)
  {
    var chunk := 2 * g + half;
    var register := miv[8 * chunk..8 * chunk + 8];
    var r := 2 * half;
    assert register[..4] == miv[16 * g + 4 * r..16 * g + 4 * r + 4]
        && register[4..] == miv[16 * g + 4 * (r + 1)..16 * g + 4 * (r + 1) + 4];
    StoreRow(output, miv, at, ldc, g, r, register[..4]);
    StoreRow(output, miv, at, ldc, g, r + 1, register[4..]);
  }

  lemma StoredInRow(before: seq<Flt>, after: seq<Flt>, at: nat, ldc: nat, g: nat, r: nat, q: nat)
    requires g < 4 && r < 4 && q == at + r * ldc + 4 * g && q + 4 <= |before| == |after|
    requires after[..q] == before[..q] && after[q + 4..] == before[q + 4..]
    ensures WindowOnly(before, after, at, ldc)
  {
    forall k | 0 <= k < |before| && !InRow(at, ldc, r, k) ensures after[k] == before[k] {
      assert k < q || q + 4 <= k;
      if k < q {
        assert after[..q][k] == before[..q][k];
      } else { assert after[q + 4..][k - q - 4] == before[q + 4..][k - q - 4]; }
    }
  }

  method StoreRow(output: array<Flt>, miv: seq<Flt>, at: nat, ldc: nat, g: nat, r: nat, lanes: seq<Flt>)
    requires |miv| == 64 && ldc >= 16 && at + 3 * ldc + 16 <= output.Length && g < 4 && r < 4
             && lanes == miv[16 * g + 4 * r..16 * g + 4 * r + 4]
    modifies output
    ensures forall h: nat, s: nat ::
            h < 4 && s < 4 && ((h, s) == (g, r) || old(RowUnpacked(output[..], miv, at, ldc, h, s))) ==>
                RowUnpacked(output[..], miv, at, ldc, h, s)
    ensures WindowOnly(old(output[..]), output[..], at, ldc)
  {
    RowFits(ldc, r);
    ghost var before, q := output[..], at + r * ldc + 4 * g;
    StoreMasked(output, at + r * ldc + 4 * g, lanes, 0, 4);
    RowsKept(before, output[..], miv, at, ldc, g, r);
    StoredInRow(before, output[..], at, ldc, g, r, q);
  }

  lemma RowsKept(before: seq<Flt>, after: seq<Flt>, miv: seq<Flt>, at: nat, ldc: nat, g: nat, r: nat)
    requires |miv| == 64 && ldc >= 16 && g < 4 && r < 4 && |before| == |after| && RowUnpacked(after, miv, at, ldc, g, r)
    requires var q := at + r * ldc + 4 * g;
             q <= |before| && after[..q] == before[..q] && after[q + 4..] == before[q + 4..]
    ensures forall h: nat, s: nat ::
            h < 4 && s < 4 && ((h, s) == (g, r) || RowUnpacked(before, miv, at, ldc, h, s)) ==>
                RowUnpacked(after, miv, at, ldc, h, s)
  {
    forall h: nat, s: nat | h < 4 && s < 4 && ((h, s) == (g, r) || RowUnpacked(before, miv, at, ldc, h, s))
      ensures RowUnpacked(after, miv, at, ldc, h, s)
    {
      if (h, s) != (g, r) {
        RowsApart(ldc, g, r, h, s);
        Untouched(before, after, at + r * ldc + 4 * g, at + s * ldc + 4 * h);
      }
    }
  }

  lemma RowFits(ldc: nat, r: nat)
    requires r < 4
    ensures 0 <= r * ldc <= 3 * ldc
  {
    if r < 3 { MulStep(ldc, r, 3); }
  }

  lemma Untouched(before: seq<Flt>, after: seq<Flt>, q: nat, x: nat)
    requires |before| == |after| && q + 4 <= |before| && x + 4 <= |before| && (x + 4 <= q || q + 4 <= x)
    requires after[..q] == before[..q] && after[q + 4..] == before[q + 4..]
    ensures after[x..x + 4] == before[x..x + 4]
  {
    if x + 4 <= q {
      assert after[x..x + 4] == after[..q][x..x + 4] && before[x..x + 4] == before[..q][x..x + 4];
    } else {
      assert after[x..x + 4] == after[q + 4..][x - q - 4..x - q]
          && before[x..x + 4] == before[q + 4..][x - q - 4..x - q];
    }
  }

  // ---------- Row-major component tiles ----------

  const TILE: nat := 128   // 4 * 32 and 32 * 4

  /** Element `m * nr + n` of the tile holds the block's integer sum. */
  ghost predicate ComponentAt(tile: seq<int>, rows: seq<Q8>, columns: seq<Q4>, m: nat, n: nat)
    requires m < |rows| && n < |columns|
  {
    m * |columns| + n < |tile| && tile[m * |columns| + n] == BlockDot(columns[n], rows[m])
  }

  ghost predicate Components(tile: seq<int>, rows: seq<Q8>, columns: seq<Q4>) {
    |tile| == TILE == |rows| * |columns| && forall m: nat, n: nat :: m < |rows| && n < |columns| ==>
        ComponentAt(tile, rows, columns, m, n)
  }

  ghost predicate TermAt(table: seq<seq<Term>>, rows: seq<Q8>, columns: seq<Q4>, b: nat, m: nat, n: nat)
    requires m < |rows| && n < |columns|
  {
    m * |columns| + n < |table| && b < |table[m * |columns| + n]|
        && table[m * |columns| + n][b] == BlockTerm(columns[n], rows[m])
  }

  /** The table lists every element's terms, in row-major order. */
  ghost predicate RowMajorTable(table: seq<seq<Term>>, rows: seq<seq<Q8>>, columns: seq<seq<Q4>>, mr: nat, nr: nat,
                                blocks: nat) {
    && mr * nr == TILE && nr > 0 && Shaped(table, TILE, blocks) && |rows| == |columns| == blocks
    && forall b: nat :: b < blocks ==> BlockTable(table, rows[b], columns[b], mr, nr, b)
  }

  ghost predicate BlockTable(table: seq<seq<Term>>, rows: seq<Q8>, columns: seq<Q4>, mr: nat, nr: nat, b: nat) {
    |rows| == mr && |columns| == nr && forall m: nat, n: nat :: m < mr && n < nr ==>
        TermAt(table, rows, columns, b, m, n)
  }

  lemma ComponentsHold(mem: seq<int>, base: nat, table: seq<seq<Term>>, blocks: nat, b: nat, rows: seq<Q8>,
                       columns: seq<Q4>)
    requires base + TILE <= |mem| && Shaped(table, TILE, blocks) && b < blocks && |columns| > 0
    requires BlockTable(table, rows, columns, |rows|, |columns|, b) && Components(mem[base..base + TILE], rows, columns)
    ensures Holds(mem, base, table, TILE, blocks, b)
  {
    forall e | 0 <= e < TILE ensures mem[base..base + TILE][e] == table[e][b].component {
      var m, n := RowColumn(e, |columns|, |rows|);
      assert TermAt(table, rows, columns, b, m, n) && ComponentAt(mem[base..base + TILE], rows, columns, m, n);
    }
  }

  lemma BlockEntries(component: seq<int>, table: seq<seq<Term>>, blocks: nat, b: nat, a: ABlock, w: BBlock,
                     rows: seq<Q8>, columns: seq<Q4>)
    requires Shaped(table, TILE, blocks) && b < blocks && |component| == TILE == |rows| * |columns| && APacked(a, rows)
             && BPacked(w, columns)
    requires BlockTable(table, rows, columns, |rows|, |columns|, b) && forall e :: 0 <= e < TILE ==>
               component[e] == table[e][b].component
    ensures Entries(table, blocks, b, component, w.d, a.d)
  {
    forall m: nat, n: nat | m < |a.d| && n < |w.d| ensures EntryAt(table, blocks, b, component, w.d, a.d, m, n) {
      EntryIs(component, table, blocks, b, a.d[m], w.d[n], rows, columns, m, n);
    }
  }

  lemma EntryIs(component: seq<int>, table: seq<seq<Term>>, blocks: nat, b: nat, aScale: real, wScale: real,
                rows: seq<Q8>, columns: seq<Q4>, m: nat, n: nat)
    requires Shaped(table, TILE, blocks) && b < blocks && |component| == TILE == |rows| * |columns| && m < |rows|
             && n < |columns|
    requires aScale == rows[m].d && wScale == columns[n].d
    requires BlockTable(table, rows, columns, |rows|, |columns|, b) && forall e :: 0 <= e < TILE ==>
               component[e] == table[e][b].component
    ensures 0 <= m * |columns| + n < TILE
    ensures table[m * |columns| + n][b] == Term(component[m * |columns| + n], wScale, aScale)
  {
    MulStep(|columns|, m, |rows|);
    assert TermAt(table, rows, columns, b, m, n);
  }

  // ---------- m4n32b ----------

  /** Place of lane `l` of accumulator `g` of one half in the 4 x 32 tile. */
  function HalfPlace(half: nat, g: nat, l: nat): nat { l / 4 * 32 + half * 16 + (4 * g + l % 4) }

  ghost predicate LaneStored(mem: seq<int>, base: nat, accs: seq<int>, half: nat, g: nat, l: nat)
    requires |accs| == 16 && l < 16
  {
    base + HalfPlace(half, g, l) < |mem| && mem[base + HalfPlace(half, g, l)] == accs[l]
  }

  /** The lanes of accumulator `4 * half + g` are in place. */
  ghost predicate GroupStored(mem: seq<int>, base: nat, acc: seq<int>, half: nat, g: nat) {
    |acc| == 16 && forall l: nat :: l < 16 ==> LaneStored(mem, base, acc, half, g, l)
  }

  lemma PlaceInjective(half: nat, g: nat, l: nat, half': nat, g': nat, l': nat)
    requires half < 2 && half' < 2 && g < 4 && g' < 4 && l < 16 && l' < 16
    ensures HalfPlace(half, g, l) < TILE
    ensures HalfPlace(half, g, l) == HalfPlace(half', g', l') ==> (half, g, l) == (half', g', l')
  {
    var r, c := Digits(l, 4);
    var r', c' := Digits(l', 4);
    if HalfPlace(half, g, l) == HalfPlace(half', g', l') {
      DigitEqual(4, 8 * r + 4 * half + g, c, 8 * r' + 4 * half' + g', c');
      DigitEqual(4, 2 * r + half, g, 2 * r' + half', g');
      DigitEqual(2, r, half, r', half');
    }
  }

  /** One group of `store_half`'s copy loop. */
  method StoreGroup(mem: array<int>, base: nat, acc: seq<int>, half: nat, g: nat, ghost accs: seq<seq<int>>)
    requires |acc| == 16 && half < 2 && g < 4 && base + TILE <= mem.Length && |accs| == 8 && accs[4 * half + g] == acc
    modifies mem
    ensures forall i: nat :: i < 8 && (i == 4 * half + g || old(AccStored(mem[..], base, accs, i))) ==>
              AccStored(mem[..], base, accs, i)
    ensures mem[..base] == old(mem[..base])
  {
    ghost var before := mem[..];
    for lane := 0 to 16
      invariant forall l: nat :: l < lane ==> LaneStored(mem[..], base, acc, half, g, l)
      invariant forall k :: 0 <= k < mem.Length && Elsewhere(base, half, g, k, lane) ==> mem[k] == before[k]
    {
      PlaceInjective(half, g, lane, half, g, lane);
      ghost var middle := mem[..];
      mem[base + lane / 4 * 32 + half * 16 + (4 * g + lane % 4)] := acc[lane];
      forall l: nat | l < lane + 1 ensures LaneStored(mem[..], base, acc, half, g, l) {
        PlaceInjective(half, g, l, half, g, lane);
        if l < lane { assert LaneStored(middle, base, acc, half, g, l); }
      }
      assert At(base, half, g, lane, base + HalfPlace(half, g, lane));
    }
    forall i: nat | i < 8 && (i == 4 * half + g || AccStored(before, base, accs, i))
      ensures AccStored(mem[..], base, accs, i)
    {
      if i != 4 * half + g { OtherGroup(before, mem[..], base, accs, half, g, i); }
    }
    forall k | 0 <= k < base ensures mem[k] == before[k] {}
  }

  ghost predicate At(base: nat, half: nat, g: nat, l: nat, k: int) { k == base + HalfPlace(half, g, l) }

  /** No lane below `count` of the group goes to `k`. */
  ghost predicate Elsewhere(base: nat, half: nat, g: nat, k: int, count: nat) {
    forall l: nat :: l < count ==> !At(base, half, g, l, k)
  }

  ghost predicate AccStored(mem: seq<int>, base: nat, accs: seq<seq<int>>, i: nat)
    requires i < |accs|
  {
    GroupStored(mem, base, accs[i], i / 4, i % 4)
  }

  lemma OtherGroup(before: seq<int>, after: seq<int>, base: nat, accs: seq<seq<int>>, half: nat, g: nat, i: nat)
    requires half < 2 && g < 4 && |accs| == 8 && i < 8 && i != 4 * half + g && |before| == |after|
             && AccStored(before, base, accs, i)
    requires forall k :: 0 <= k < |before| && Elsewhere(base, half, g, k, 16) ==> after[k] == before[k]
    ensures AccStored(after, base, accs, i)
  {
    forall l: nat | l < 16 ensures LaneStored(after, base, accs[i], i / 4, i % 4, l) {
      assert LaneStored(before, base, accs[i], i / 4, i % 4, l);
      var k := base + HalfPlace(i / 4, i % 4, l);
      forall m: nat | m < 16 ensures !At(base, half, g, m, k) { PlaceInjective(half, g, m, i / 4, i % 4, l); }
    }
  }

  lemma HalvesHold(mem: seq<int>, base: nat, accs: seq<seq<int>>, rows: seq<Q8>, columns: seq<Q4>)
    requires base + TILE <= |mem| && |rows| == 4 && |columns| == 32 && |accs| == 8
    requires forall i: nat :: i < 8 ==>
               AccStored(mem, base, accs, i) && GroupDots(accs[i], RowGroup(rows, 0), ColumnGroup(columns, i))
    ensures Components(mem[base..base + TILE], rows, columns)
  {
    var tile := mem[base..base + TILE];
    forall m: nat, n: nat | m < 4 && n < 32 ensures ComponentAt(tile, rows, columns, m, n) {
      var i, c := n / 4, n % 4;
      var l := 4 * m + c;
      assert AccStored(mem, base, accs, i) && LaneStored(mem, base, accs[i], i / 4, i % 4, l);
      assert l / 4 == m && l % 4 == c;
      LaneIs(accs[i], rows, columns, 0, i, m, c);
    }
  }

  /** The eight accumulators of one K block, four a half. */
  method HalfDots(a: ABlock, b: BBlock, ghost rows: seq<Q8>, ghost columns: seq<Q4>) returns (accs: seq<seq<int>>)
    requires |rows| == 4 && |columns| == 32 && APacked(a, rows) && BPacked(b, columns)
    ensures |accs| == 8 && forall j: nat :: j < 8 ==> GroupDots(accs[j], RowGroup(rows, 0), ColumnGroup(columns, j))
  {
    accs := [];
    for i := 0 to 8
      invariant |accs| == i && forall j: nat :: j < i ==> GroupDots(accs[j], RowGroup(rows, 0), ColumnGroup(columns, j))
    {
      var acc := DotGroup(a, b, 0, i, rows, columns);
      accs := accs + [acc];
    }
  }

  /** The dots of one K block of m4n32b, in two halves, into buffer tile `slot`. */
  method BufferHalves(mem: array<int>, base: nat, a: ABlock, b: BBlock, ghost rows: seq<Q8>, ghost columns: seq<Q4>)
    requires base + TILE <= mem.Length && |rows| == 4 && |columns| == 32 && APacked(a, rows) && BPacked(b, columns)
    modifies mem
    ensures Components(mem[base..base + TILE], rows, columns) && mem[..base] == old(mem[..base])
  {
    var accs := HalfDots(a, b, rows, columns);
    for i := 0 to 8
      invariant forall j: nat :: j < i ==> AccStored(mem[..], base, accs, j)
      invariant mem[..base] == old(mem[..base])
    {
      StoreGroup(mem, base, accs[i], i / 4, i % 4, accs);
    }
    HalvesHold(mem[..], base, accs, rows, columns);
    assert mem[..][base..base + TILE] == mem[base..base + TILE];
  }

  const BATCH: nat := 8   // ReductionBatch

  /** `reduce_batch`: the buffered blocks, in K order. */
  method ReduceBatch(fpAcc: seq<Flt>, mem: array<int>, a: seq<ABlock>, b: seq<BBlock>, first: nat, count: nat,
                     ghost rows: seq<seq<Q8>>, ghost columns: seq<seq<Q4>>, ghost table: seq<seq<Term>>)
    returns (result: seq<Flt>)
    requires |fpAcc| == TILE && mem.Length == BATCH * TILE && count <= BATCH && first + count <= |a| == |b|
    requires RowMajorTable(table, rows, columns, 4, 32, |a|) && Buffered(mem[..], table, TILE, |a|, first, count)
    requires forall i: nat :: i < |a| ==> APacked(a[i], rows[i]) && BPacked(b[i], columns[i])
    ensures |result| == TILE && Folded(fpAcc, result, table, |a|, first, first + count)
  {
    result := fpAcc;
    FoldedNone(fpAcc, table, |a|, first);
    for index := 0 to count
      invariant |result| == TILE && Folded(fpAcc, result, table, |a|, first, first + index)
    {
      var block := first + index;
      assert Slot(mem[..], table, TILE, |a|, first, index);
      var component := mem[TILE * index..TILE * index + TILE];
      assert component == mem[..][TILE * index..TILE * index + TILE];
      result := ReduceOne(result, component, a[block], b[block], block, |a|, fpAcc, first, rows[block], columns[block],
                          table);
    }
  }

  method ReduceOne(acc: seq<Flt>, component: seq<int>, a: ABlock, b: BBlock, ghost block: nat, ghost blocks: nat,
                   ghost before: seq<Flt>, ghost first: nat, ghost rows: seq<Q8>, ghost columns: seq<Q4>,
                   ghost table: seq<seq<Term>>) returns (next: seq<Flt>)
    requires |acc| == |before| == |component| == TILE && Shaped(table, TILE, blocks) && first <= block < blocks
             && |rows| == 4 && |columns| == 32
    requires APacked(a, rows) && BPacked(b, columns) && BlockTable(table, rows, columns, 4, 32, block)
    requires forall e :: 0 <= e < TILE ==> component[e] == table[e][block].component
    requires Folded(before, acc, table, blocks, first, block)
    ensures |next| == TILE && Folded(before, next, table, blocks, first, block + 1)
  {
    BlockEntries(component, table, blocks, block, a, b, rows, columns);
    next := ReduceTile(acc, component, b.d, a.d);
    TileReducedSteps(acc, next, table, blocks, block, component, b.d, a.d);
    FoldedStep(before, acc, next, table, blocks, first, block);
  }

  /** The m4n32b kernel on a tile that starts from the output or from zero. */
  method KernelM4n32b(start: seq<Flt>, a: seq<ABlock>, b: seq<BBlock>, ghost rows: seq<seq<Q8>>,
                      ghost columns: seq<seq<Q4>>, ghost table: seq<seq<Term>>) returns (fpAcc: seq<Flt>)
    requires |start| == TILE && |a| == |b| && RowMajorTable(table, rows, columns, 4, 32, |a|)
    requires forall i: nat :: i < |a| ==> APacked(a[i], rows[i]) && BPacked(b[i], columns[i])
    ensures |fpAcc| == TILE && Folded(start, fpAcc, table, |a|, 0, |a|)
  {
    fpAcc := start;
    var mem := new int[BATCH * TILE];
    var reductionCount: nat := 0;
    ProgressStart(start, mem[..], table, |a|);
    for bk := 0 to |a|
      invariant reductionCount < BATCH && |fpAcc| == TILE
                && Progress(start, fpAcc, mem[..], table, |a|, bk, reductionCount)
    {
      BufferBlock(mem, reductionCount, a[bk], b[bk], bk, |a|, rows[bk], columns[bk], table);
      fpAcc, reductionCount := ReduceWhenDue(fpAcc, mem, a, b, bk + 1, reductionCount + 1, rows, columns, table, start);
    }
  }

  /** The flush test after a K block has been buffered. */
  method ReduceWhenDue(acc: seq<Flt>, mem: array<int>, a: seq<ABlock>, b: seq<BBlock>, bk: nat, count: nat,
                       ghost rows: seq<seq<Q8>>, ghost columns: seq<seq<Q4>>, ghost table: seq<seq<Term>>,
                       ghost start: seq<Flt>) returns (fpAcc: seq<Flt>, reductionCount: nat)
    requires |start| == |acc| == TILE && |a| == |b| && RowMajorTable(table, rows, columns, 4, 32, |a|)
             && mem.Length == BATCH * TILE
    requires forall i: nat :: i < |a| ==> APacked(a[i], rows[i]) && BPacked(b[i], columns[i])
    requires 0 < count <= BATCH && count <= bk <= |a|
    requires Folded(start, acc, table, |a|, 0, bk - count) && Buffered(mem[..], table, TILE, |a|, bk - count, count)
    ensures reductionCount < BATCH && |fpAcc| == TILE && Progress(start, fpAcc, mem[..], table, |a|, bk, reductionCount)
  {
    fpAcc, reductionCount := acc, count;
    if reductionCount == BATCH || bk == |a| {
      fpAcc := ReduceBatch(acc, mem, a, b, bk - count, count, rows, columns, table);
      FoldedTrans(start, acc, fpAcc, table, |a|, 0, bk - count, bk);
      reductionCount := 0;
    }
  }

  method BufferBlock(mem: array<int>, slot: nat, a: ABlock, b: BBlock, ghost bk: nat, ghost blocks: nat,
                     ghost rows: seq<Q8>, ghost columns: seq<Q4>, ghost table: seq<seq<Term>>)
    requires mem.Length == BATCH * TILE && slot <= bk < blocks && slot < BATCH && |rows| == 4 && |columns| == 32
             && APacked(a, rows) && BPacked(b, columns)
    requires Shaped(table, TILE, blocks) && BlockTable(table, rows, columns, 4, 32, bk)
             && Buffered(mem[..], table, TILE, blocks, bk - slot, slot)
    modifies mem
    ensures Buffered(mem[..], table, TILE, blocks, bk - slot, slot + 1)
  {
    ghost var before := mem[..];
    BufferHalves(mem, TILE * slot, a, b, rows, columns);
    assert mem[..][TILE * slot..TILE * slot + TILE] == mem[TILE * slot..TILE * slot + TILE];
    ComponentsHold(mem[..], TILE * slot, table, blocks, bk, rows, columns);
    BufferedMore(before, mem[..], table, TILE, blocks, bk - slot, slot);
  }

  // ---------- m32n4 ----------

  /** The components of one K block: accumulator `h` stored whole at `16 * h`. */
  method RowGroupsDots(a: ABlock, b: BBlock, ghost rows: seq<Q8>, ghost columns: seq<Q4>) returns (component: seq<int>)
    requires |rows| == 32 && |columns| == 4 && APacked(a, rows) && BPacked(b, columns)
    ensures Components(component, rows, columns)
  {
    component := [];
    for h := 0 to 8
      invariant |component| == 16 * h
      invariant forall m: nat, n: nat :: m < 4 * h && n < 4 ==> ComponentAt(component, rows, columns, m, n)
    {
      ghost var before := component;
      var acc := DotGroup(a, b, h, 0, rows, columns);
      component := component + acc;
      forall m: nat, n: nat | m < 4 * h + 4 && n < 4 ensures ComponentAt(component, rows, columns, m, n) {
        if m < 4 * h {
          assert ComponentAt(before, rows, columns, m, n);
        } else { LaneIs(acc, rows, columns, h, 0, m - 4 * h, n); }
      }
    }
  }

  /** Deferred reduction of one row: all its blocks, in K order. */
  method ReduceRowOver(c: seq<Flt>, components: seq<seq<int>>, a: seq<ABlock>, b: seq<BBlock>, row: nat,
                       ghost rows: seq<seq<Q8>>, ghost columns: seq<seq<Q4>>, ghost table: seq<seq<Term>>)
    returns (output: seq<Flt>)
    requires |c| == 4 && |a| == |b| == |components| && row < 32 && RowMajorTable(table, rows, columns, 32, 4, |a|)
    requires forall i: nat :: i < |a| ==>
               APacked(a[i], rows[i]) && BPacked(b[i], columns[i]) && Components(components[i], rows[i], columns[i])
    ensures |output| == 4 && forall n: nat :: n < 4 ==> output[n] == Fold(c[n], table[4 * row + n])
  {
    output := c;
    for block := 0 to |a|
      invariant |output| == 4 && forall n: nat :: n < 4 ==> output[n] == Fold(c[n], table[4 * row + n][..block])
    {
      assert BlockTable(table, rows[block], columns[block], 32, 4, block);
      ghost var before := output;
      output := ReduceRow(output, components[block][4 * row..4 * row + 4], b[block].d, a[block].d[row]);
      forall n: nat | n < 4 ensures output[n] == Fold(c[n], table[4 * row + n][..block + 1]) {
        RowTerm(components[block], a[block], b[block], rows[block], columns[block], table, block, row, n);
        FoldNext(c[n], table[4 * row + n], block);
      }
    }
    forall n: nat | n < 4
      ensures output[n] == Fold(c[n], table[4 * row + n])
    {
      assert table[4 * row + n][..|a|] == table[4 * row + n];
    }
  }

  lemma RowTerm(component: seq<int>, a: ABlock, b: BBlock, rows: seq<Q8>, columns: seq<Q4>, table: seq<seq<Term>>,
                block: nat, row: nat, n: nat)
    requires APacked(a, rows) && BPacked(b, columns) && Components(component, rows, columns)
             && BlockTable(table, rows, columns, 32, 4, block) && row < 32 && n < 4
    ensures 4 * row + n < |table| && block < |table[4 * row + n]|
    ensures table[4 * row + n][block] == Term(component[4 * row..4 * row + 4][n], b.d[n], a.d[row])
  {
    assert TermAt(table, rows, columns, block, row, n) && ComponentAt(component, rows, columns, row, n);
  }

  /** The m32n4 kernel on the 32 x 4 window of C: the dots of at most eight blocks
      first, then the rows one by one. */
  method KernelM32n4(c: seq<Flt>, a: seq<ABlock>, b: seq<BBlock>, ghost rows: seq<seq<Q8>>, ghost columns: seq<seq<Q4>>,
                     ghost table: seq<seq<Term>>) returns (result: seq<Flt>)
    requires |c| == TILE && |a| == |b| <= 8 && RowMajorTable(table, rows, columns, 32, 4, |a|)
    requires forall i: nat :: i < |a| ==> APacked(a[i], rows[i]) && BPacked(b[i], columns[i])
    ensures |result| == TILE && forall e :: 0 <= e < TILE ==> result[e] == Fold(c[e], table[e])
    ensures Folded(c, result, table, |a|, 0, |a|)
  {
    var components: seq<seq<int>> := [];
    for block := 0 to |a|
      invariant |components| == block && forall i: nat :: i < block ==> Components(components[i], rows[i], columns[i])
    {
      assert BlockTable(table, rows[block], columns[block], 32, 4, block);
      var component := RowGroupsDots(a[block], b[block], rows[block], columns[block]);
      components := components + [component];
    }
    result := [];
    for row := 0 to 32
      invariant |result| == 4 * row && forall e :: 0 <= e < 4 * row ==> result[e] == Fold(c[e], table[e])
    {
      ghost var before := result;
      var output := ReduceRowOver(c[4 * row..4 * row + 4], components, a, b, row, rows, columns, table);
      result := result + output;
      forall e | 0 <= e < 4 * row + 4 ensures result[e] == Fold(c[e], table[e]) {
        if e >= 4 * row { assert result[e] == output[e - 4 * row]; } else { assert result[e] == before[e]; }
      }
    }
    forall e | 0 <= e < TILE ensures result[e] == Fold(c[e], table[e][0..|a|]) { assert table[e][0..|a|] == table[e]; }
  }
}
