/** The m4b kernel: 4 x 16 tiles, component tiles kept in a ring of 32 indexed by
    the block number, and its own multiply-add, which scales the component by the
    activation first. */
module M4bKernel {
  import opened BitArithmetic
  import opened Floats
  import opened Quantized
  import opened Ime1Dot
  import opened TileShapes

  const RING: nat := 32   // kRedBatchSize
  const SIZE: nat := 64   // kOutputM * kOutputN

  /** `acc = fma(component * activationScale, weightScale, acc)`. */
  function OwnReduce(acc: Flt, t: Term): Flt {
    Fma(acc, Mul(OfInt(t.component), Const(t.activationScale)), Const(t.weightScale))
  }

  /** The kernel's unbatched fold. */
  function OwnFold(acc: Flt, terms: seq<Term>): Flt {
    if terms == [] then acc else OwnReduce(OwnFold(acc, terms[..|terms| - 1]), terms[|terms| - 1])
  }

  /** It rounds differently from the other kernels' fold but means the same sum. */
  lemma {:induction false} OwnFoldEval(acc: Flt, terms: seq<Term>)
    ensures Eval(OwnFold(acc, terms)) == Eval(acc) + Sum(terms)
  {
    if terms != [] {
      var t := terms[|terms| - 1];
      OwnFoldEval(acc, terms[..|terms| - 1]);
      OwnEval(OwnFold(acc, terms[..|terms| - 1]), t);
    }
  }

  lemma OwnEval(acc: Flt, t: Term)
    ensures Eval(OwnReduce(acc, t)) == Eval(acc) + Value(t)
  {
    assert Eval(Mul(OfInt(t.component), Const(t.activationScale))) == t.component as real * t.activationScale;
    Swap(t.component as real, t.activationScale, t.weightScale);
  }

  lemma Swap(x: real, y: real, z: real)
    ensures x * y * z == x * z * y
  {}

  lemma OwnNext(acc: Flt, terms: seq<Term>, n: nat)
    requires n < |terms|
    ensures OwnFold(acc, terms[..n + 1]) == OwnReduce(OwnFold(acc, terms[..n]), terms[n])
  {
    assert terms[..n + 1][..n] == terms[..n];
  }

  /** The table lists the terms of element `16 * m + n`. */
  ghost predicate OwnTable(table: seq<seq<Term>>, rows: seq<seq<Q8>>, columns: seq<seq<Q4>>, blocks: nat) {
    && |table| == SIZE && (forall e :: 0 <= e < SIZE ==> |table[e]| == blocks) && |rows| == |columns| == blocks
    && forall b: nat :: b < blocks ==> BlockTable(table, rows[b], columns[b], 4, 16, b)
  }

  /** A ring tile holds block `b`'s components. */
  ghost predicate TileOf(tile: seq<int>, rows: seq<Q8>, columns: seq<Q4>) {
    |tile| == SIZE && |rows| == 4 && |columns| == 16 && forall m: nat, n: nat :: m < 4 && n < 16 ==>
        ComponentAt(tile, rows, columns, m, n)
  }

  /** `store_unpack`: the four accumulators as a row-major tile. */
  method Unpack(accs: seq<seq<int>>, ghost rows: seq<Q8>, ghost columns: seq<Q4>) returns (tile: seq<int>)
    requires |rows| == 4 && |columns| == 16 && |accs| == 4
    requires forall g: nat :: g < 4 ==> GroupDots(accs[g], RowGroup(rows, 0), ColumnGroup(columns, g))
    ensures TileOf(tile, rows, columns)
  {
    tile := [];
    for r := 0 to 4
      invariant |tile| == 16 * r && forall m: nat, n: nat :: m < r && n < 16 ==> ComponentAt(tile, rows, columns, m, n)
    {
      for g := 0 to 4
        invariant |tile| == 16 * r + 4 * g
        invariant forall m: nat, n: nat :: n < 16 && (m < r || (m == r && n < 4 * g)) ==>
                    ComponentAt(tile, rows, columns, m, n)
      {
        assert GroupDots(accs[g], RowGroup(rows, 0), ColumnGroup(columns, g));
        ghost var before := tile;
        tile := tile + accs[g][4 * r..4 * r + 4];
        forall m: nat, n: nat | n < 16 && (m < r || (m == r && n < 4 * g + 4))
          ensures ComponentAt(tile, rows, columns, m, n)
        {
          if m == r && n >= 4 * g {
            LaneIs(accs[g], rows, columns, 0, g, r, n - 4 * g);
          } else { assert ComponentAt(before, rows, columns, m, n); }
        }
      }
    }
  }

  method BlockTile(a: ABlock, b: BBlock, ghost rows: seq<Q8>, ghost columns: seq<Q4>) returns (tile: seq<int>)
    requires |rows| == 4 && |columns| == 16 && APacked(a, rows) && BPacked(b, columns)
    ensures TileOf(tile, rows, columns)
  {
    var accs: seq<seq<int>> := [];
    for g := 0 to 4
      invariant |accs| == g && forall i: nat :: i < g ==> GroupDots(accs[i], RowGroup(rows, 0), ColumnGroup(columns, i))
    {
      var acc := DotGroup(a, b, 0, g, rows, columns);
      accs := accs + [acc];
    }
    tile := Unpack(accs, rows, columns);
  }

  /** Every element has been folded with its first `upto` terms. */
  ghost predicate SumsTo(acc: seq<Flt>, table: seq<seq<Term>>, upto: nat) {
    |acc| == |table| == SIZE && forall e :: 0 <= e < SIZE ==>
        upto <= |table[e]| && acc[e] == OwnFold(ZERO, table[e][..upto])
  }

  /** One buffered block: rows scaled by the activation, then added with the weight scales. */
  method ReduceTileOwn(acc: seq<Flt>, component: seq<int>, a: ABlock, b: BBlock, ghost rows: seq<Q8>,
                       ghost columns: seq<Q4>, ghost table: seq<seq<Term>>, ghost block: nat) returns (next: seq<Flt>)
    requires SumsTo(acc, table, block) && TileOf(component, rows, columns) && APacked(a, rows) && BPacked(b, columns)
    requires BlockTable(table, rows, columns, 4, 16, block) && forall e :: 0 <= e < SIZE ==> block < |table[e]|
    ensures SumsTo(next, table, block + 1)
  {
    next := [];
    for e := 0 to SIZE
      invariant |next| == e && forall x :: 0 <= x < e ==> next[x] == OwnFold(ZERO, table[x][..block + 1])
    {
      var m, n := e / 16, e % 16;
      assert TermAt(table, rows, columns, block, m, n) && ComponentAt(component, rows, columns, m, n);
      OwnNext(ZERO, table[e], block);
      next := next + [Fma(acc[e], Mul(OfInt(component[e]), Const(a.d[m])), Const(b.d[n]))];
    }
  }

  /** Ring slots `0 .. count` hold blocks `start .. start + count`. */
  ghost predicate RingHolds(ring: seq<seq<int>>, rows: seq<seq<Q8>>, columns: seq<seq<Q4>>, start: nat, count: nat) {
    count <= |ring| && start + count <= |rows| == |columns| && forall i: nat :: i < count ==>
        SlotHolds(ring, rows, columns, start, i)
  }

  ghost predicate SlotHolds(ring: seq<seq<int>>, rows: seq<seq<Q8>>, columns: seq<seq<Q4>>, start: nat, i: nat)
    requires i < |ring| && start + i < |rows| == |columns|
  {
    TileOf(ring[i], rows[start + i], columns[start + i])
  }

  /** The blocks of a flush, in K order. */
  method FlushRing(acc: seq<Flt>, ring: array<seq<int>>, a: seq<ABlock>, b: seq<BBlock>, start: nat, count: nat,
                   ghost rows: seq<seq<Q8>>, ghost columns: seq<seq<Q4>>, ghost table: seq<seq<Term>>)
    returns (next: seq<Flt>)
    requires ring.Length == RING && |a| == |b| && OwnTable(table, rows, columns, |a|)
             && RingHolds(ring[..], rows, columns, start, count) && SumsTo(acc, table, start)
    requires forall i: nat :: i < |a| ==> APacked(a[i], rows[i]) && BPacked(b[i], columns[i])
    ensures SumsTo(next, table, start + count)
  {
    next := acc;
    for rci := 0 to count
      invariant SumsTo(next, table, start + rci)
    {
      var block := start + rci;
      assert SlotHolds(ring[..], rows, columns, start, rci)
          && BlockTable(table, rows[block], columns[block], 4, 16, block);
      next := ReduceTileOwn(next, ring[rci], a[block], b[block], rows[block], columns[block], table, block);
    }
  }

  /** The m4b kernel on one tile: for every block count, the ring buffer changes
      nothing; each element is its own unbatched fold over all blocks. */
  method KernelM4b(a: seq<ABlock>, b: seq<BBlock>, ghost rows: seq<seq<Q8>>, ghost columns: seq<seq<Q4>>,
                   ghost table: seq<seq<Term>>) returns (acc: seq<Flt>)
    requires |a| == |b| && OwnTable(table, rows, columns, |a|)
    requires forall i: nat :: i < |a| ==> APacked(a[i], rows[i]) && BPacked(b[i], columns[i])
    ensures |acc| == SIZE && forall e :: 0 <= e < SIZE ==>
              acc[e] == OwnFold(ZERO, table[e]) && Eval(acc[e]) == Sum(table[e])
  {
    acc := seq(SIZE, _ => ZERO);
    var ring := new seq<int>[RING](_ => []);
    for bk := 0 to |a|
      invariant RingState(acc, ring[..], rows, columns, table, |a|, bk)
    {
      acc := ProcessBlock(acc, ring, a, b, bk, rows, columns, table);
    }
    forall e | 0 <= e < SIZE ensures acc[e] == OwnFold(ZERO, table[e]) && Eval(acc[e]) == Sum(table[e]) {
      assert table[e][..|a|] == table[e];
      OwnFoldEval(ZERO, table[e]);
    }
  }

  /** Blocks waiting in the ring after `bk` blocks. */
  function Pending(blocks: nat, bk: nat): (r: nat)
    requires bk <= blocks
    ensures r <= bk && r < RING
  {
    if bk == blocks then 0 else bk % RING
  }

  ghost predicate RingState(acc: seq<Flt>, ring: seq<seq<int>>, rows: seq<seq<Q8>>, columns: seq<seq<Q4>>,
                            table: seq<seq<Term>>, blocks: nat, bk: nat) {
    && bk <= blocks && |ring| == RING
    && SumsTo(acc, table, bk - Pending(blocks, bk))
       && RingHolds(ring, rows, columns, bk - Pending(blocks, bk), Pending(blocks, bk))
  }

  method ProcessBlock(acc: seq<Flt>, ring: array<seq<int>>, a: seq<ABlock>, b: seq<BBlock>, bk: nat,
                      ghost rows: seq<seq<Q8>>, ghost columns: seq<seq<Q4>>, ghost table: seq<seq<Term>>)
    returns (next: seq<Flt>)
    requires ring.Length == RING && bk < |a| == |b| && OwnTable(table, rows, columns, |a|)
    requires forall i: nat :: i < |a| ==> APacked(a[i], rows[i]) && BPacked(b[i], columns[i])
    requires RingState(acc, ring[..], rows, columns, table, |a|, bk)
    modifies ring
    ensures RingState(next, ring[..], rows, columns, table, |a|, bk + 1)
  {
    assert BlockTable(table, rows[bk], columns[bk], 4, 16, bk);
    var tile := BlockTile(a[bk], b[bk], rows[bk], columns[bk]);
    ghost var before, pending := ring[..], bk % RING;
    ring[bk % RING] := tile;
    RingMore(before, ring[..], rows, columns, bk - pending, pending);
    RingCount(bk);
    next := FlushWhenDue(acc, ring, a, b, bk + 1, pending, rows, columns, table);
  }

  /** Flushes when the ring is full or the last block is in. */
  method FlushWhenDue(acc: seq<Flt>, ring: array<seq<int>>, a: seq<ABlock>, b: seq<BBlock>, done: nat,
                      ghost pending: nat, ghost rows: seq<seq<Q8>>, ghost columns: seq<seq<Q4>>,
                      ghost table: seq<seq<Term>>) returns (next: seq<Flt>)
    requires ring.Length == RING && 0 < done <= |a| == |b| && OwnTable(table, rows, columns, |a|) && pending < RING
             && pending < done
    requires forall i: nat :: i < |a| ==> APacked(a[i], rows[i]) && BPacked(b[i], columns[i])
    requires done % RING == (if pending + 1 == RING then 0 else pending + 1)
    requires SumsTo(acc, table, done - (pending + 1))
             && RingHolds(ring[..], rows, columns, done - (pending + 1), pending + 1)
    ensures RingState(next, ring[..], rows, columns, table, |a|, done)
  {
    next := acc;
    if done % RING == 0 || done == |a| {
      var reductionCount := if done % RING == 0 then RING else done % RING;
      next := FlushRing(acc, ring, a, b, done - reductionCount, reductionCount, rows, columns, table);
    }
  }

  /** The ring index of the next block, and how full the ring is after it. */
  lemma RingCount(bk: nat)
    ensures (bk + 1) % RING == (if bk % RING + 1 == RING then 0 else bk % RING + 1)
  {}

  lemma RingMore(before: seq<seq<int>>, after: seq<seq<int>>, rows: seq<seq<Q8>>, columns: seq<seq<Q4>>, start: nat,
                 count: nat)
    requires RingHolds(before, rows, columns, start, count) && count < |before| == |after| && start + count < |rows|
    requires after == before[count := after[count]] && TileOf(after[count], rows[start + count], columns[start + count])
    ensures RingHolds(after, rows, columns, start, count + 1)
  {
    forall i: nat | i < count + 1
      ensures SlotHolds(after, rows, columns, start, i)
    {
      if i < count { assert SlotHolds(before, rows, columns, start, i); }
    }
  }
}
