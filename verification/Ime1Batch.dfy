/** The K loop of the IME1 m8b kernels: component tiles buffered and reduced
    eight at a time, into a tile the caller owns. */
module Ime1Batch {
  import opened BitArithmetic
  import opened Floats
  import opened Quantized
  import opened Reduction
  import opened VectorUnit
  import opened Gemm
  import opened Ime1Dot
  import opened Ime1Kernel

  /** The source blocks behind a tile's packed operands, one entry a K block. */
  datatype Source = Source(rows: seq<seq<Q8>>, columns: seq<seq<Q4>>)

  ghost predicate Sized(s: Source, blocks: nat) {
    && |s.rows| == |s.columns| == blocks
    && (forall b :: 0 <= b < blocks ==> |s.rows[b]| == 8)
    && (forall b :: 0 <= b < blocks ==> |s.columns[b]| == 16)
  }

  /** The table lists, for tile element `16 * m + n`, its terms in K order. */
  ghost predicate Describes(table: seq<seq<Term>>, s: Source, blocks: nat)
    requires Sized(s, blocks)
  {
    && Shaped(table, TILE, blocks)
    && forall b: nat, m: nat, n: nat :: b < blocks && m < 8 && n < 16 ==> Entry(table, s, blocks, b, m, n)
  }

  ghost predicate Entry(table: seq<seq<Term>>, s: Source, blocks: nat, b: nat, m: nat, n: nat)
    requires Sized(s, blocks) && Shaped(table, TILE, blocks) && b < blocks && m < 8 && n < 16
  {
    table[16 * m + n][b] == BlockTerm(s.columns[b][n], s.rows[b][m])
  }

  /** The scales handed to the reduction are those of the source blocks. */
  ghost predicate ScalesOf(aScales: seq<seq<real>>, bScales: seq<seq<real>>, s: Source, blocks: nat)
    requires Sized(s, blocks)
  {
    |aScales| == |bScales| == blocks && forall b: nat :: b < blocks ==>
        BlockScales(aScales[b], bScales[b], s, blocks, b)
  }

  ghost predicate BlockScales(aScales: seq<real>, bScales: seq<real>, s: Source, blocks: nat, b: nat)
    requires Sized(s, blocks) && b < blocks
  {
    && |aScales| == 8 && |bScales| == 16
    && (forall m: nat :: m < 8 ==> aScales[m] == s.rows[b][m].d)
    && (forall n: nat :: n < 16 ==> bScales[n] == s.columns[b][n].d)
  }

  lemma ComponentsHold(mem: seq<int>, base: nat, table: seq<seq<Term>>, s: Source, blocks: nat, b: nat)
    requires Sized(s, blocks) && b < blocks && Describes(table, s, blocks) && base + TILE <= |mem|
    requires Components(mem[base..base + TILE], s.rows[b], s.columns[b])
    ensures Holds(mem, base, table, TILE, blocks, b)
  {
    forall e | 0 <= e < TILE ensures mem[base..base + TILE][e] == table[e][b].component {
      var m, n := RowColumn(e, 16, 8);
      assert Entry(table, s, blocks, b, m, n);
      assert ComponentAt(mem[base..base + TILE], s.rows[b], s.columns[b], m, n);
    }
  }

  lemma SlotEntries(mem: seq<int>, base: nat, table: seq<seq<Term>>, s: Source, blocks: nat, b: nat, aScales: seq<real>,
                    bScales: seq<real>)
    requires base + TILE <= |mem| && Sized(s, blocks) && b < blocks && Describes(table, s, blocks)
    requires Holds(mem, base, table, TILE, blocks, b) && BlockScales(aScales, bScales, s, blocks, b)
    ensures Entries(table, blocks, b, mem[base..base + TILE], bScales, aScales)
  {
    var component := mem[base..base + TILE];
    forall m: nat, n: nat | m < 8 && n < 16 ensures EntryAt(table, blocks, b, component, bScales, aScales, m, n) {
      assert Entry(table, s, blocks, b, m, n);
      assert component[16 * m + n] == table[16 * m + n][b].component;
    }
  }

  /** Scatters a block's accumulators into buffer tile `slot`. */
  method Buffer(mem: array<int>, slot: nat, accs: seq<seq<int>>, ghost s: Source, ghost blocks: nat, ghost bk: nat,
                ghost table: seq<seq<Term>>)
    requires mem.Length == BATCH * TILE && slot <= bk < blocks && slot < BATCH && Sized(s, blocks)
             && Describes(table, s, blocks)
    requires BlockPartial(accs, s.rows[bk], s.columns[bk], 4)
    requires Buffered(mem[..], table, TILE, blocks, bk - slot, slot)
    modifies mem
    ensures Buffered(mem[..], table, TILE, blocks, bk - slot, slot + 1)
  {
    ghost var before := mem[..];
    AccumulatorLengths(accs, s.rows[bk], s.columns[bk]);
    Scatter(mem, TILE * slot, accs);
    ScatterHolds(mem[..], TILE * slot, accs, s.rows[bk], s.columns[bk]);
    ComponentsHold(mem[..], TILE * slot, table, s, blocks, bk);
    BufferedMore(before, mem[..], table, TILE, blocks, bk - slot, slot);
  }

  lemma AccumulatorLengths(accs: seq<seq<int>>, rows: seq<Q8>, columns: seq<Q4>)
    requires |rows| == 8 && |columns| == 16 && BlockPartial(accs, rows, columns, 4)
    ensures |accs| == 8 && forall i :: 0 <= i < 8 ==> |accs[i]| == 16
  {
    forall i: nat | i < 8 ensures |accs[i]| == 16 { assert AccPartial(accs[i], rows, columns, 4, i); }
  }

  /** Reduces the buffered components, in K order, into registers. */
  method Flush(regs: seq<Flt>, mem: array<int>, start: nat, count: nat, aScales: seq<seq<real>>,
               bScales: seq<seq<real>>, ghost s: Source, ghost blocks: nat, ghost table: seq<seq<Term>>)
    returns (reduced: seq<Flt>)
    requires |regs| == TILE && mem.Length == BATCH * TILE && count <= BATCH && start + count <= blocks
             && Sized(s, blocks)
    requires Describes(table, s, blocks) && ScalesOf(aScales, bScales, s, blocks)
             && Buffered(mem[..], table, TILE, blocks, start, count)
    ensures |reduced| == TILE && Folded(regs, reduced, table, blocks, start, start + count)
  {
    reduced := regs;
    FoldedNone(regs, table, blocks, start);
    for i := 0 to count
      invariant |reduced| == TILE && Folded(regs, reduced, table, blocks, start, start + i)
    {
      reduced := FlushSlot(regs, reduced, mem, i, start, count, aScales[start + i], bScales[start + i], s, blocks,
                           table);
    }
  }

  method FlushSlot(ghost before: seq<Flt>, regs: seq<Flt>, mem: array<int>, i: nat, start: nat, ghost count: nat,
                   aScales: seq<real>, bScales: seq<real>, ghost s: Source, ghost blocks: nat,
                   ghost table: seq<seq<Term>>) returns (reduced: seq<Flt>)
    requires |regs| == |before| == TILE && mem.Length == BATCH * TILE && i < count <= BATCH && start + count <= blocks
             && Sized(s, blocks)
    requires Describes(table, s, blocks) && BlockScales(aScales, bScales, s, blocks, start + i)
    requires Buffered(mem[..], table, TILE, blocks, start, count)
             && Folded(before, regs, table, blocks, start, start + i)
    ensures |reduced| == TILE && Folded(before, reduced, table, blocks, start, start + i + 1)
  {
    var b, at := start + i, TILE * i;
    assert Slot(mem[..], table, TILE, blocks, start, i);
    SlotEntries(mem[..], at, table, s, blocks, b, aScales, bScales);
    var component := mem[at..at + TILE];
    assert component == mem[..][at..at + TILE];
    reduced := ReduceTile(regs, component, bScales, aScales);
    TileReducedSteps(regs, reduced, table, blocks, b, component, bScales, aScales);
    FoldedStep(before, regs, reduced, table, blocks, start, b);
  }

  // ---------- The packed-weight kernel ----------

  /** Packed operands of `blocks` K blocks whose source is `s`. */
  ghost predicate Operands(a: seq<ABlock>, b: seq<BBlock>, s: Source, blocks: nat)
    requires Sized(s, blocks)
  {
    && |a| == |b| == blocks
    && (forall i: nat :: i < blocks ==> APacked(a[i], s.rows[i]))
    && (forall i: nat :: i < blocks ==> BPacked(b[i], s.columns[i]))
  }

  function AScales(a: seq<ABlock>): (r: seq<seq<real>>)
    ensures |r| == |a| && forall i :: 0 <= i < |a| ==> r[i] == a[i].d
  {
    seq(|a|, i requires 0 <= i < |a| => a[i].d)
  }

  function BScales(b: seq<BBlock>): (r: seq<seq<real>>)
    ensures |r| == |b| && forall i :: 0 <= i < |b| ==> r[i] == b[i].d
  {
    seq(|b|, i requires 0 <= i < |b| => b[i].d)
  }

  lemma OperandScales(a: seq<ABlock>, b: seq<BBlock>, s: Source, blocks: nat)
    requires Sized(s, blocks) && Operands(a, b, s, blocks)
    ensures ScalesOf(AScales(a), BScales(b), s, blocks)
  {
    forall i: nat | i < blocks ensures BlockScales(AScales(a)[i], BScales(b)[i], s, blocks, i) {
      assert APacked(a[i], s.rows[i]) && BPacked(b[i], s.columns[i]);
    }
  }

  /** Folds all the tile's terms, in K order, into the caller's tile at `at`. */
  method TileKernel(a: seq<ABlock>, b: seq<BBlock>, c: array<Flt>, at: nat, blocks: nat, ghost s: Source,
                    ghost table: seq<seq<Term>>)
    requires Sized(s, blocks) && Operands(a, b, s, blocks) && Describes(table, s, blocks) && at + TILE <= c.Length
    modifies c
    ensures Folded(old(c[at..at + TILE]), c[at..at + TILE], table, blocks, 0, blocks)
    ensures c[..at] == old(c[..at]) && c[at + TILE..] == old(c[at + TILE..])
  {
    var mem := new int[BATCH * TILE];
    ghost var before := c[at..at + TILE];
    var reductionCount: nat := 0;
    var bk: nat := 0;
    ProgressStart(before, mem[..], table, blocks);
    OperandScales(a, b, s, blocks);
    while bk < blocks
      invariant reductionCount < BATCH && Progress(before, c[at..at + TILE], mem[..], table, blocks, bk, reductionCount)
      invariant c[..at] == old(c[..at]) && c[at + TILE..] == old(c[at + TILE..])
    {
      var accs := DotBlock(a[bk], b[bk], s.rows[bk], s.columns[bk]);
      Buffer(mem, reductionCount, accs, s, blocks, bk, table);
      bk := bk + 1;
      reductionCount := reductionCount + 1;
      if reductionCount == BATCH || bk == blocks {
        FlushInto(c, at, mem, bk, reductionCount, AScales(a), BScales(b), s, blocks, table, before);
        reductionCount := 0;
      }
    }
  }

  /** Loads the tile, reduces the pending components into it, stores it. */
  method FlushInto(c: array<Flt>, at: nat, mem: array<int>, bk: nat, count: nat, aScales: seq<seq<real>>,
                   bScales: seq<seq<real>>, ghost s: Source, ghost blocks: nat, ghost table: seq<seq<Term>>,
                   ghost before: seq<Flt>)
    requires at + TILE <= c.Length && mem.Length == BATCH * TILE && count <= BATCH && count <= bk <= blocks
             && Sized(s, blocks)
    requires Describes(table, s, blocks) && ScalesOf(aScales, bScales, s, blocks) && |before| == TILE
    requires Folded(before, c[at..at + TILE], table, blocks, 0, bk - count)
             && Buffered(mem[..], table, TILE, blocks, bk - count, count)
    modifies c
    ensures Progress(before, c[at..at + TILE], mem[..], table, blocks, bk, 0)
    ensures c[..at] == old(c[..at]) && c[at + TILE..] == old(c[at + TILE..])
  {
    var regs := c[at..at + TILE];
    var reduced := Flush(regs, mem, bk - count, count, aScales, bScales, s, blocks, table);
    FoldedTrans(before, regs, reduced, table, blocks, 0, bk - count, bk);
    StoreMasked(c, at, reduced, 0, TILE);
    assert c[at..at + TILE] == reduced;
  }
}
