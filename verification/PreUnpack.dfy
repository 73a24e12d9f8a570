/** The dynamic pre-unpack step of the DPU kernels, and the cache-blocked DPU
    tile kernel: the first flush starts from zero or from C, the last writes C,
    the flushes between keep the tile in a local buffer. */
module PreUnpack {
  import opened BitArithmetic
  import opened Floats
  import opened Quantized
  import opened Reduction
  import opened VectorUnit
  import opened Ime1Dot
  import opened Ime1Kernel
  import opened Ime1Batch

  /** The four weight registers at byte `at` of an unpacked block. */
  function Registers(unpacked: seq<int>, at: nat): (r: seq<seq<int>>)
    requires at + 128 <= |unpacked|
    ensures |r| == 4
  {
    [unpacked[at..at + 32], unpacked[at + 32..at + 64], unpacked[at + 64..at + 96], unpacked[at + 96..at + 128]]
  }

  /** Unpacked form of a block: what the kernel loads in each inner step are the
      registers the packed kernel unpacks on the fly. */
  ghost predicate IsUnpacked(unpacked: seq<int>, qs: seq<Byte>) {
    && |unpacked| == 512 && |qs| == 256
    && forall inner: nat :: inner < 2 ==> StepUnpacked(unpacked, qs, inner)
  }

  ghost predicate StepUnpacked(unpacked: seq<int>, qs: seq<Byte>, inner: nat)
    requires |unpacked| == 512 && |qs| == 256 && inner < 2
  {
    && Registers(unpacked, 256 * inner) == LowRegisters(qs, inner)
    && Registers(unpacked, 256 * inner + 128) == HighRegisters(qs, inner)
  }

  lemma HalvesUnpacked(unpacked: seq<int>, qs: seq<Byte>, inner: nat)
    requires |unpacked| == 512 && |qs| == 256 && inner < 2
    requires unpacked[256 * inner..256 * inner + 128] == Low(qs[128 * inner..128 * inner + 128])
    requires unpacked[256 * inner + 128..256 * inner + 256] == High(qs[128 * inner..128 * inner + 128])
    ensures StepUnpacked(unpacked, qs, inner)
  {
    forall g: nat | g < 4 ensures Registers(unpacked, 256 * inner)[g] == LowRegisters(qs, inner)[g] {
      LowPart(unpacked, qs, 256 * inner, 128 * inner, g);
    }
    forall g: nat | g < 4 ensures Registers(unpacked, 256 * inner + 128)[g] == HighRegisters(qs, inner)[g] {
      HighPart(unpacked, qs, 256 * inner + 128, 128 * inner, g);
    }
  }

  lemma LowPart(unpacked: seq<int>, qs: seq<Byte>, at: nat, from: nat, g: nat)
    requires at + 128 <= |unpacked| && from + 128 <= |qs| && g < 4
    requires unpacked[at..at + 128] == Low(qs[from..from + 128])
    ensures unpacked[at + 32 * g..at + 32 * g + 32] == Low(qs[from + 32 * g..from + 32 * g + 32])
  {
    var part := unpacked[at + 32 * g..at + 32 * g + 32];
    forall i | 0 <= i < 32 ensures part[i] == Low(qs[from + 32 * g..from + 32 * g + 32])[i] {
      assert unpacked[at..at + 128][32 * g + i] == Low(qs[from..from + 128])[32 * g + i];
    }
  }

  lemma HighPart(unpacked: seq<int>, qs: seq<Byte>, at: nat, from: nat, g: nat)
    requires at + 128 <= |unpacked| && from + 128 <= |qs| && g < 4
    requires unpacked[at..at + 128] == High(qs[from..from + 128])
    ensures unpacked[at + 32 * g..at + 32 * g + 32] == High(qs[from + 32 * g..from + 32 * g + 32])
  {
    var part := unpacked[at + 32 * g..at + 32 * g + 32];
    forall i | 0 <= i < 32 ensures part[i] == High(qs[from + 32 * g..from + 32 * g + 32])[i] {
      assert unpacked[at..at + 128][32 * g + i] == High(qs[from..from + 128])[32 * g + i];
    }
  }

  /** `unpack_q4_0_ime_m8b_cache_blocking_rvv`, one block. */
  method UnpackBlock(qs: seq<Byte>) returns (unpacked: seq<int>)
    requires |qs| == 256
    ensures IsUnpacked(unpacked, qs)
  {
    var lo0, hi0 := Low(qs[0..128]), High(qs[0..128]);
    var lo1, hi1 := Low(qs[128..256]), High(qs[128..256]);
    unpacked := lo0 + hi0 + lo1 + hi1;
    assert unpacked[256 * 0..256 * 0 + 128] == lo0 && unpacked[256 * 0 + 128..256 * 0 + 256] == hi0;
    assert unpacked[256 * 1..256 * 1 + 128] == lo1 && unpacked[256 * 1 + 128..256 * 1 + 256] == hi1;
    HalvesUnpacked(unpacked, qs, 0);
    HalvesUnpacked(unpacked, qs, 1);
  }

  method DotUnpacked(a: ABlock, unpacked: seq<int>, ghost b: BBlock, ghost rows: seq<Q8>, ghost columns: seq<Q4>)
    returns (accs: seq<seq<int>>)
    requires APacked(a, rows) && BPacked(b, columns) && IsUnpacked(unpacked, b.qs)
    ensures BlockPartial(accs, rows, columns, 4)
  {
    accs := seq(8, _ => Zeros(16));
    NothingYet(accs, rows, columns);
    for inner := 0 to 2
      invariant BlockPartial(accs, rows, columns, 2 * inner)
    {
      accs := UnpackedInner(accs, a, unpacked, inner, b, rows, columns);
    }
  }

  method UnpackedInner(accs: seq<seq<int>>, a: ABlock, unpacked: seq<int>, inner: nat, ghost b: BBlock,
                       ghost rows: seq<Q8>, ghost columns: seq<Q4>) returns (next: seq<seq<int>>)
    requires APacked(a, rows) && BPacked(b, columns) && IsUnpacked(unpacked, b.qs) && inner < 2
             && BlockPartial(accs, rows, columns, 2 * inner)
    ensures BlockPartial(next, rows, columns, 2 * inner + 2)
  {
    ALoaded(a, rows, inner);
    BLoaded(b, columns, inner);
    assert StepUnpacked(unpacked, b.qs, inner);
    next := InnerStep(accs, ARegisters(a.qs, inner), Registers(unpacked, 256 * inner),
                      Registers(unpacked, 256 * inner + 128), inner, rows, columns);
  }

  /** What the accumulation starts from. */
  function Start(tile: seq<Flt>, firstKc: bool): (r: seq<Flt>)
    requires |tile| == TILE
    ensures |r| == TILE
  {
    if firstKc then seq(128, _ => ZERO) else tile
  }

  /** Between turns of the K loop: before the last flush C still holds the
      `original` tile and the sums are `start` or the local buffer; after it, C
      holds them. */
  ghost predicate PanelState(start: seq<Flt>, original: seq<Flt>, tile: seq<Flt>, acc: seq<Flt>, first: bool,
                             mem: seq<int>, table: seq<seq<Term>>, blocks: nat, bk: nat, count: nat)
    requires Shaped(table, |start|, blocks)
  {
    && count < BATCH
    && (bk < blocks ==> tile == original)
    && Progress(start, if bk == blocks then tile else if first then start else acc, mem, table, blocks, bk, count)
  }

  /** The tile a flush starts from. */
  function Loaded(tile: seq<Flt>, acc: seq<Flt>, firstKc: bool, first: bool): seq<Flt>
    requires |tile| == TILE
  {
    if first then Start(tile, firstKc) else acc
  }

  /** The cache-blocked DPU kernel. Whatever C holds, the first K panel starts
      from zero; later panels continue from C. */
  method PanelKernel(a: seq<ABlock>, unpacked: seq<seq<int>>, bScales: seq<seq<real>>, c: array<Flt>, at: nat,
                     blocks: nat, firstKc: bool, ghost b: seq<BBlock>, ghost s: Source, ghost table: seq<seq<Term>>)
    requires Sized(s, blocks) && Operands(a, b, s, blocks) && Describes(table, s, blocks) && at + TILE <= c.Length
             && blocks > 0
    requires |unpacked| == blocks && bScales == BScales(b) && forall i: nat :: i < blocks ==>
               IsUnpacked(unpacked[i], b[i].qs)
    modifies c
    ensures Folded(Start(old(c[at..at + TILE]), firstKc), c[at..at + TILE], table, blocks, 0, blocks)
    ensures c[..at] == old(c[..at]) && c[at + TILE..] == old(c[at + TILE..])
  {
    var mem := new int[BATCH * TILE];
    var acc: seq<Flt> := [];
    var firstReductionFlush := true;
    ghost var original := c[at..at + TILE];
    ghost var start := Start(original, firstKc);
    var reductionCount: nat := 0;
    ProgressStart(start, mem[..], table, blocks);
    OperandScales(a, b, s, blocks);
    for bk := 0 to blocks
      invariant PanelState(start, original, c[at..at + TILE], acc, firstReductionFlush, mem[..], table, blocks, bk,
                           reductionCount)
      invariant c[..at] == old(c[..at]) && c[at + TILE..] == old(c[at + TILE..])
    {
      acc, firstReductionFlush, reductionCount :=
        PanelBlock(a[bk], unpacked[bk], AScales(a), bScales, c, at, mem, acc, firstReductionFlush, reductionCount, bk,
                   blocks, firstKc, b[bk], s, table, original);
    }
  }

  /** One turn of the K loop. */
  method PanelBlock(a: ABlock, unpacked: seq<int>, aScales: seq<seq<real>>, bScales: seq<seq<real>>, c: array<Flt>,
                    at: nat, mem: array<int>, acc: seq<Flt>, first: bool, count: nat, bk: nat, blocks: nat,
                    firstKc: bool, ghost b: BBlock, ghost s: Source, ghost table: seq<seq<Term>>,
                    ghost original: seq<Flt>) returns (local: seq<Flt>, firstReductionFlush: bool, reductionCount: nat)
    requires Sized(s, blocks) && bk < blocks && Describes(table, s, blocks) && ScalesOf(aScales, bScales, s, blocks)
             && at + TILE <= c.Length && mem.Length == BATCH * TILE
    requires APacked(a, s.rows[bk]) && BPacked(b, s.columns[bk]) && IsUnpacked(unpacked, b.qs) && |original| == TILE
    requires PanelState(Start(original, firstKc), original, c[at..at + TILE], acc, first, mem[..], table, blocks, bk,
                        count)
    modifies c, mem
    ensures PanelState(Start(original, firstKc), original, c[at..at + TILE], local, firstReductionFlush, mem[..],
                       table, blocks, bk + 1, reductionCount)
    ensures c[..at] == old(c[..at]) && c[at + TILE..] == old(c[at + TILE..])
  {
    var accs := DotUnpacked(a, unpacked, b, s.rows[bk], s.columns[bk]);
    Buffer(mem, count, accs, s, blocks, bk, table);
    local, firstReductionFlush, reductionCount :=
      FlushWhenDue(aScales, bScales, c, at, mem, acc, first, count + 1, bk + 1, blocks, firstKc, s, table, original);
  }

  /** The flush test after a K block has been buffered. */
  method FlushWhenDue(aScales: seq<seq<real>>, bScales: seq<seq<real>>, c: array<Flt>, at: nat, mem: array<int>,
                      acc: seq<Flt>, first: bool, count: nat, bk: nat, blocks: nat, firstKc: bool, ghost s: Source,
                      ghost table: seq<seq<Term>>, ghost original: seq<Flt>)
    returns (local: seq<Flt>, firstReductionFlush: bool, reductionCount: nat)
    requires Sized(s, blocks) && bk <= blocks && Describes(table, s, blocks) && ScalesOf(aScales, bScales, s, blocks)
    requires at + TILE <= c.Length && mem.Length == BATCH * TILE && 0 < count <= BATCH && count <= bk
             && |original| == TILE && c[at..at + TILE] == original
    requires Shaped(table, TILE, blocks)
             && Folded(Start(original, firstKc), if first then Start(original, firstKc)
                       else acc, table, blocks, 0, bk - count)
    requires Buffered(mem[..], table, TILE, blocks, bk - count, count)
    modifies c
    ensures PanelState(Start(original, firstKc), original, c[at..at + TILE], local, firstReductionFlush, mem[..],
                       table, blocks, bk, reductionCount)
    ensures c[..at] == old(c[..at]) && c[at + TILE..] == old(c[at + TILE..])
  {
    ghost var start := Start(original, firstKc);
    local, firstReductionFlush, reductionCount := acc, first, count;
    if reductionCount == BATCH || bk == blocks {
      var regs := Loaded(c[at..at + TILE], acc, firstKc, first);
      local := PanelFlush(c, at, regs, mem, bk, reductionCount, aScales, bScales, acc, s, blocks, table, start);
      firstReductionFlush := false;
      reductionCount := 0;
    }
  }

  /** Reduces the pending components; the final flush stores to C, an earlier one
      to the local buffer. */
  method PanelFlush(c: array<Flt>, at: nat, regs: seq<Flt>, mem: array<int>, bk: nat, count: nat,
                    aScales: seq<seq<real>>, bScales: seq<seq<real>>, acc: seq<Flt>, ghost s: Source, blocks: nat,
                    ghost table: seq<seq<Term>>, ghost start: seq<Flt>) returns (local: seq<Flt>)
    requires at + TILE <= c.Length && mem.Length == BATCH * TILE && count <= BATCH && count <= bk <= blocks
             && Sized(s, blocks)
    requires Describes(table, s, blocks) && ScalesOf(aScales, bScales, s, blocks) && |start| == |regs| == TILE
    requires Folded(start, regs, table, blocks, 0, bk - count)
             && Buffered(mem[..], table, TILE, blocks, bk - count, count)
    modifies c
    ensures Progress(start, if bk == blocks then c[at..at + TILE] else local, mem[..], table, blocks, bk, 0)
    ensures bk < blocks ==> c[at..at + TILE] == old(c[at..at + TILE])
    ensures c[..at] == old(c[..at]) && c[at + TILE..] == old(c[at + TILE..])
  {
    local := acc;
    var reduced := Flush(regs, mem, bk - count, count, aScales, bScales, s, blocks, table);
    FoldedTrans(start, regs, reduced, table, blocks, 0, bk - count, bk);
    if bk == blocks {
      StoreMasked(c, at, reduced, 0, TILE);
      assert c[at..at + TILE] == reduced;
    } else {
      local := reduced;
    }
  }
}
