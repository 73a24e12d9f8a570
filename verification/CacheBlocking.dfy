/** The cache-blocked m8b adapters, m8b-CB and m8b-DPU-CB: the panel-major
    repack, the panel / chunk / N tile / M tile nest, and the copy out of the
    packed C. Both share one nest and differ in panel size, in the layout of the
    packed activations, and in how a tile is brought up to date. */
module CacheBlocking {
  import opened BitArithmetic
  import opened Floats
  import opened Quantized
  import opened Reduction
  import opened VectorUnit
  import opened Gemm
  import opened PanelLayout
  import opened Ime1Kernel
  import opened Ime1Batch
  import opened Ime1Tiles
  import opened Ime1Pack
  import opened PreUnpack

  const CHUNK_BUDGET: nat := 128 * 1024   // kAChunkBudgetBytes
  const BLOCK_BYTES: nat := 288           // kAQuantBytesPerBlock + kAScalesPerBlock * sizeof(float)

  /** M tiles of a chunk: as many as the budget holds, at least one. */
  function ChunkTiles(tilesM: nat, blocks: nat): (r: nat)
    requires blocks > 0
    ensures r > 0
  {
    var fit := CHUNK_BUDGET / (blocks * BLOCK_BYTES);
    var capped := if tilesM < fit then tilesM else fit;
    if capped < 1 then 1 else capped
  }

  // ---------- Packed operands ----------

  ghost predicate AReady(p: Problem, v: Variant, tilesM: nat, packed: seq<ABlock>, tm: nat, b: nat)
    requires Valid(p)
  {
    && b < p.k && 8 * tm + 8 <= p.m && BlockIndex(v, tilesM, p.k, tm, b) < |packed|
    && APacked(packed[BlockIndex(v, tilesM, p.k, tm, b)], TileRows(p, tm, b))
  }

  ghost predicate BReady(p: Problem, packed: seq<BBlock>, tn: nat, b: nat)
    requires Valid(p)
  {
    BReadyAt(p, packed, tn, b, WeightBase(p.k, tn, b))
  }

  /** Place of K block `b` of N tile `tn`. */
  function WeightBase(k: nat, tn: nat, b: nat): nat { tn * k + b }

  ghost predicate BReadyAt(p: Problem, packed: seq<BBlock>, tn: nat, b: nat, at: nat)
    requires Valid(p)
  {
    b < p.k && 16 * tn + 16 <= p.n && at < |packed| && BPacked(packed[at], TileColumns(p, tn, b))
  }

  /** Storing one block keeps the block of another place. */
  lemma BKept(p: Problem, before: seq<BBlock>, after: seq<BBlock>, i: nat, packed: BBlock, tn: nat, b: nat, at: nat)
    requires Valid(p) && BReadyAt(p, before, tn, b, at) && i < |before| && at != i && after == before[i := packed]
    ensures BReadyAt(p, after, tn, b, at)
  {}

  lemma BPlacesDiffer(k: nat, t: nat, b: nat, u: nat, c: nat)
    requires b < k && c < k && (t, b) != (u, c)
    ensures WeightBase(k, t, b) != WeightBase(k, u, c)
  {
    CellOrder(k, t, b, u, c);
  }

  /** The packing loops have passed block `b` of tile `t`: its panel is before the
      current one, which holds `local` blocks, or it is earlier in it. */
  predicate Passed(t: nat, b: nat, blockK: nat, local: nat, tile: nat, l: nat) {
    b < blockK || (b < blockK + local && (t < tile || (t == tile && b < blockK + l)))
  }

  ghost predicate APackedTo(p: Problem, v: Variant, tilesM: nat, packed: seq<ABlock>, blockK: nat, local: nat,
                            tile: nat, l: nat)
    requires Valid(p)
  {
    forall t: nat, b: nat :: t < tilesM && b < p.k && Passed(t, b, blockK, local, tile, l) ==>
        AReady(p, v, tilesM, packed, t, b)
  }

  lemma APackedNext(p: Problem, v: Variant, tilesM: nat, before: seq<ABlock>, after: seq<ABlock>, i: nat, block: ABlock,
                    blockK: nat, local: nat, tile: nat, l: nat)
    requires Valid(p) && p.m == tilesM * 8 && tile < tilesM && l < local && blockK + local <= p.k
    requires APackedTo(p, v, tilesM, before, blockK, local, tile, l)
    requires i == BlockIndex(v, tilesM, p.k, tile, blockK + l) && i < |before| && after == before[i := block]
    requires 8 * tile + 8 <= p.m && APacked(block, TileRows(p, tile, blockK + l))
    ensures APackedTo(p, v, tilesM, after, blockK, local, tile, l + 1)
  {
    forall t: nat, b: nat | t < tilesM && b < p.k && Passed(t, b, blockK, local, tile, l + 1)
      ensures AReady(p, v, tilesM, after, t, b)
    {
      if (t, b) != (tile, blockK + l) {
        assert AReady(p, v, tilesM, before, t, b);
        if BlockIndex(v, tilesM, p.k, t, b) == i { IndexInjective(v, tilesM, p.k, t, b, tile, blockK + l); }
      }
    }
  }

  ghost predicate BPackedTo(p: Problem, packed: seq<BBlock>, tile: nat, block: nat)
    requires Valid(p)
  {
    forall t: nat, b: nat :: b < p.k && (t < tile || (t == tile && b < block)) ==> BReady(p, packed, t, b)
  }

  lemma BPackedNext(p: Problem, before: seq<BBlock>, after: seq<BBlock>, i: nat, packed: BBlock, tile: nat, block: nat)
    requires Valid(p) && block < p.k && BPackedTo(p, before, tile, block)
    requires i == WeightBase(p.k, tile, block) && i < |before| && after == before[i := packed]
    requires 16 * tile + 16 <= p.n && BPacked(packed, TileColumns(p, tile, block))
    ensures BPackedTo(p, after, tile, block + 1)
  {
    forall t: nat, b: nat | b < p.k && (t < tile || (t == tile && b < block + 1)) ensures BReady(p, after, t, b) {
      if (t, b) != (tile, block) {
        assert BReady(p, before, t, b);
        BPlacesDiffer(p.k, t, b, tile, block);
        BKept(p, before, after, i, packed, t, b, WeightBase(p.k, t, b));
      }
    }
  }

  // ---------- The packed C ----------

  /** First float of packed C tile `(tm, tn)`. */
  function CTile(tilesN: nat, tm: nat, tn: nat): nat { (tm * tilesN + tn) * 128 }

  /** Packed C tile `(tm, tn)` holds the sums over its first `upto` K blocks; before
      the first panel it may hold anything. */
  ghost predicate CDone(p: Problem, c: seq<Flt>, tilesN: nat, tm: nat, tn: nat, upto: nat)
    requires Valid(p)
  {
    && CTile(tilesN, tm, tn) + 128 <= |c|
    && (upto > 0 ==> TileSum(p, c[CTile(tilesN, tm, tn)..CTile(tilesN, tm, tn) + 128], tm, tn, upto))
  }

  /** Only packed C tile `(tm, tn)` has changed. */
  ghost predicate OnlyTile(before: seq<Flt>, after: seq<Flt>, tilesN: nat, tm: nat, tn: nat) {
    var at := CTile(tilesN, tm, tn);
    |before| == |after| && at + 128 <= |before| && after[..at] == before[..at]
        && after[at + 128..] == before[at + 128..]
  }

  lemma CKept(p: Problem, before: seq<Flt>, after: seq<Flt>, tilesN: nat, tm: nat, tn: nat, um: nat, un: nat, upto: nat)
    requires Valid(p) && OnlyTile(before, after, tilesN, tm, tn) && tn < tilesN && un < tilesN && (um, un) != (tm, tn)
    requires CDone(p, before, tilesN, um, un, upto)
    ensures CDone(p, after, tilesN, um, un, upto)
  {
    CTilesApart(tilesN, tm, tn, um, un);
    SliceKept(before, after, CTile(tilesN, tm, tn), CTile(tilesN, um, un));
  }

  lemma CTilesApart(tilesN: nat, tm: nat, tn: nat, um: nat, un: nat)
    requires tn < tilesN && un < tilesN && (um, un) != (tm, tn)
    ensures CTile(tilesN, tm, tn) + 128 <= CTile(tilesN, um, un) || CTile(tilesN, um, un) + 128 <= CTile(tilesN, tm, tn)
  {
    CellOrder(tilesN, tm, tn, um, un);
  }

  lemma SliceKept(before: seq<Flt>, after: seq<Flt>, at: nat, from: nat)
    requires |before| == |after| && at + 128 <= |before| && from + 128 <= |before|
             && (at + 128 <= from || from + 128 <= at)
    requires after[..at] == before[..at] && after[at + 128..] == before[at + 128..]
    ensures after[from..from + 128] == before[from..from + 128]
  {
    if from + 128 <= at {
      assert after[from..from + 128] == after[..at][from..from + 128]
          && before[from..from + 128] == before[..at][from..from + 128];
    } else {
      assert after[from..from + 128] == after[at + 128..][from - at - 128..from - at];
      assert before[from..from + 128] == before[at + 128..][from - at - 128..from - at];
    }
  }

  // ---------- One tile and one panel ----------

  lemma PanelABlock(p: Problem, v: Variant, tilesM: nat, packedA: seq<ABlock>, tm: nat, panel: nat, blockK: nat,
                    base: nat, i: nat)
    requires Valid(p) && blockK == panel * PanelSize(v) && blockK < p.k && i < LocalBlocks(v, p.k, blockK)
    requires base == TileBase(v, tilesM, p.k, tm, blockK) && AReady(p, v, tilesM, packedA, tm, blockK + i)
    ensures base + i < |packedA| && APacked(packedA[base + i], TileRows(p, tm, blockK + i))
  {
    BlockIndexIs(v, tilesM, p.k, tm, panel, i);
  }

  /** The blocks a kernel call reads from K block `blockK` on are this tile's. */
  ghost predicate AWindow(p: Problem, a: seq<ABlock>, tm: nat, blockK: nat)
    requires Valid(p) && 8 * tm + 8 <= p.m && blockK + |a| <= p.k
  {
    forall i: nat :: i < |a| ==> AWindowAt(p, a, tm, blockK, i)
  }

  ghost predicate AWindowAt(p: Problem, a: seq<ABlock>, tm: nat, blockK: nat, i: nat)
    requires Valid(p) && 8 * tm + 8 <= p.m && i < |a| && blockK + |a| <= p.k
  {
    APacked(a[i], TileRows(p, tm, blockK + i))
  }

  ghost predicate BWindow(p: Problem, b: seq<BBlock>, tn: nat, blockK: nat)
    requires Valid(p) && 16 * tn + 16 <= p.n && blockK + |b| <= p.k
  {
    forall i: nat :: i < |b| ==> BWindowAt(p, b, tn, blockK, i)
  }

  ghost predicate BWindowAt(p: Problem, b: seq<BBlock>, tn: nat, blockK: nat, i: nat)
    requires Valid(p) && 16 * tn + 16 <= p.n && i < |b| && blockK + |b| <= p.k
  {
    BPacked(b[i], TileColumns(p, tn, blockK + i))
  }

  lemma PanelA(p: Problem, v: Variant, tilesM: nat, packedA: seq<ABlock>, tm: nat, panel: nat, blockK: nat, base: nat)
    requires Valid(p) && tm < tilesM && p.m == tilesM * 8 && 8 * tm + 8 <= p.m
    requires forall t: nat, b: nat :: t < tilesM && b < p.k ==> AReady(p, v, tilesM, packedA, t, b)
    requires blockK == panel * PanelSize(v) && blockK < p.k && base == TileBase(v, tilesM, p.k, tm, blockK)
    ensures var local := LocalBlocks(v, p.k, blockK);
            base + local <= |packedA| && AWindow(p, packedA[base..base + local], tm, blockK)
  {
    var local := LocalBlocks(v, p.k, blockK);
    var last := blockK + (local - 1);
    assert AReady(p, v, tilesM, packedA, tm, last);
    PanelABlock(p, v, tilesM, packedA, tm, panel, blockK, base, local - 1);
    var a := packedA[base..base + local];
    forall i: nat | i < local ensures AWindowAt(p, a, tm, blockK, i) {
      var b := blockK + i;
      assert AReady(p, v, tilesM, packedA, tm, b);
      PanelABlock(p, v, tilesM, packedA, tm, panel, blockK, base, i);
    }
  }

  lemma PanelB(p: Problem, packedB: seq<BBlock>, tilesN: nat, tn: nat, blockK: nat, local: nat, tb: nat)
    requires Valid(p) && tn < tilesN && p.n == tilesN * 16 && 16 * tn + 16 <= p.n && 0 < local && blockK + local <= p.k
             && tb == WeightBase(p.k, tn, blockK)
    requires forall t: nat, b: nat :: t < tilesN && b < p.k ==> BReady(p, packedB, t, b)
    ensures tb + local <= |packedB| && BWindow(p, packedB[tb..tb + local], tn, blockK)
  {
    var last := blockK + (local - 1);
    assert BReady(p, packedB, tn, last);
    var s := packedB[tb..tb + local];
    forall i: nat | i < local ensures BWindowAt(p, s, tn, blockK, i) {
      var b := blockK + i;
      assert BReady(p, packedB, tn, b);
    }
  }

  lemma WindowOperands(p: Problem, a: seq<ABlock>, b: seq<BBlock>, tm: nat, tn: nat, blockK: nat, local: nat)
    requires Valid(p) && 8 * tm + 8 <= p.m && 16 * tn + 16 <= p.n && blockK + local <= p.k && |a| == |b| == local
    requires AWindow(p, a, tm, blockK) && BWindow(p, b, tn, blockK)
    ensures Sized(PanelSource(p, tm, tn, blockK, blockK + local), local)
    ensures Operands(a, b, PanelSource(p, tm, tn, blockK, blockK + local), local)
  {
    var s := PanelSource(p, tm, tn, blockK, blockK + local);
    forall i: nat | i < local ensures APacked(a[i], s.rows[i]) { assert AWindowAt(p, a, tm, blockK, i); }
    forall i: nat | i < local ensures BPacked(b[i], s.columns[i]) { assert BWindowAt(p, b, tn, blockK, i); }
  }

  /** A kernel call's slices of the packed operands are what its tile needs. */
  lemma CallReady(p: Problem, v: Variant, tilesM: nat, tilesN: nat, packedA: seq<ABlock>, packedB: seq<BBlock>, tm: nat,
                  tn: nat, panel: nat, blockK: nat, local: nat, base: nat, tb: nat)
    requires Accepted(p, tilesM, tilesN) && tm < tilesM && tn < tilesN
    requires forall t: nat, b: nat :: t < tilesM && b < p.k ==> AReady(p, v, tilesM, packedA, t, b)
    requires forall t: nat, b: nat :: t < tilesN && b < p.k ==> BReady(p, packedB, t, b)
    requires blockK == panel * PanelSize(v) && blockK < p.k && local == LocalBlocks(v, p.k, blockK)
    requires base == TileBase(v, tilesM, p.k, tm, blockK) && tb == WeightBase(p.k, tn, blockK)
    ensures base + local <= |packedA| && tb + local <= |packedB| && 8 * tm + 8 <= p.m && 16 * tn + 16 <= p.n
    ensures Sized(PanelSource(p, tm, tn, blockK, blockK + local), local)
    ensures Operands(packedA[base..base + local], packedB[tb..tb + local],
                     PanelSource(p, tm, tn, blockK, blockK + local), local)
    ensures Describes(PanelTable(p, tm, tn, blockK, blockK + local), PanelSource(p, tm, tn, blockK, blockK + local),
                      local)
  {
    MulStep(8, tm, tilesM);
    MulStep(16, tn, tilesN);
    PanelA(p, v, tilesM, packedA, tm, panel, blockK, base);
    PanelB(p, packedB, tilesN, tn, blockK, local, tb);
    WindowOperands(p, packedA[base..base + local], packedB[tb..tb + local], tm, tn, blockK, local);
    PanelDescribed(p, tm, tn, blockK, blockK + local);
  }

  /** Unpacked form of every packed weight block. */
  ghost predicate AllUnpacked(unpacked: seq<seq<int>>, packedB: seq<BBlock>, count: nat) {
    count <= |unpacked| == |packedB| && forall x: nat :: x < count ==> IsUnpacked(unpacked[x], packedB[x].qs)
  }

  lemma UnpackedSlice(unpacked: seq<seq<int>>, packedB: seq<BBlock>, at: nat, local: nat)
    requires AllUnpacked(unpacked, packedB, |packedB|) && at + local <= |packedB|
    ensures AllUnpacked(unpacked[at..at + local], packedB[at..at + local], local)
  {
    var u, b := unpacked[at..at + local], packedB[at..at + local];
    forall x: nat | x < local
      ensures IsUnpacked(u[x], b[x].qs)
    {
      var y := at + x;
      assert IsUnpacked(unpacked[y], packedB[y].qs);
    }
  }

  /** The sums of tile `(tm, tn)` after a kernel call that started from `start`. */
  lemma TileUpdated(p: Problem, start: seq<Flt>, before: seq<Flt>, after: seq<Flt>, tilesN: nat, tm: nat, tn: nat,
                    from: nat, to: nat, at: nat)
    requires Valid(p) && 8 * tm + 8 <= p.m && 16 * tn + 16 <= p.n && from < to <= p.k && at == CTile(tilesN, tm, tn)
    requires |before| == |after| && at + 128 <= |before| && after[..at] == before[..at]
             && after[at + 128..] == before[at + 128..]
    requires TileSum(p, start, tm, tn, from)
    requires Folded(start, after[at..at + 128], PanelTable(p, tm, tn, from, to), to - from, 0, to - from)
    ensures CDone(p, after, tilesN, tm, tn, to) && OnlyTile(before, after, tilesN, tm, tn)
  {
    TileSumStep(p, start, after[at..at + 128], tm, tn, from, to);
  }

  // ---------- Progress through the nest ----------

  /** Tiles `lo .. hi` of N tile `tn` hold their sums over `upto` blocks. */
  ghost predicate StripDone(p: Problem, c: seq<Flt>, tilesN: nat, lo: nat, hi: nat, tn: nat, upto: nat)
    requires Valid(p)
  {
    forall tm: nat :: lo <= tm < hi ==> CDone(p, c, tilesN, tm, tn, upto)
  }

  /** Every tile outside rows `lo .. hi` of N tile `tn` keeps its sums. */
  ghost predicate KeptElse(p: Problem, before: seq<Flt>, after: seq<Flt>, tilesN: nat, lo: nat, hi: nat, tn: nat)
    requires Valid(p)
  {
    forall um: nat, un: nat, u: nat ::
        un < tilesN && !(lo <= um < hi && un == tn) && CDone(p, before, tilesN, um, un, u) ==>
            CDone(p, after, tilesN, um, un, u)
  }

  /** Every tile outside rows `lo .. hi` keeps its sums. */
  ghost predicate KeptRows(p: Problem, before: seq<Flt>, after: seq<Flt>, tilesN: nat, lo: nat, hi: nat)
    requires Valid(p)
  {
    forall um: nat, un: nat, u: nat :: un < tilesN && !(lo <= um < hi) && CDone(p, before, tilesN, um, un, u) ==>
        CDone(p, after, tilesN, um, un, u)
  }

  lemma StripStep(p: Problem, start: seq<Flt>, before: seq<Flt>, after: seq<Flt>, tilesN: nat, lo: nat, tm: nat,
                  hi: nat, tn: nat, from: nat, to: nat)
    requires Valid(p) && lo <= tm < hi && tn < tilesN && OnlyTile(before, after, tilesN, tm, tn)
             && CDone(p, after, tilesN, tm, tn, to)
    requires StripDone(p, before, tilesN, lo, tm, tn, to) && StripDone(p, before, tilesN, tm, hi, tn, from)
    requires KeptElse(p, start, before, tilesN, lo, hi, tn)
    ensures StripDone(p, after, tilesN, lo, tm + 1, tn, to) && StripDone(p, after, tilesN, tm + 1, hi, tn, from)
    ensures KeptElse(p, start, after, tilesN, lo, hi, tn)
  {
    forall um: nat | lo <= um < tm
      ensures CDone(p, after, tilesN, um, tn, to)
    {
      CKept(p, before, after, tilesN, tm, tn, um, tn, to);
    }
    forall um: nat | tm < um < hi
      ensures CDone(p, after, tilesN, um, tn, from)
    {
      CKept(p, before, after, tilesN, tm, tn, um, tn, from);
    }
    forall um: nat, un: nat, u: nat | un < tilesN && !(lo <= um < hi && un == tn) && CDone(p, start, tilesN, um, un, u)
      ensures CDone(p, after, tilesN, um, un, u)
    {
      CKept(p, before, after, tilesN, tm, tn, um, un, u);
    }
  }

  /** N tiles `x .. y` of an order hold, in rows `lo .. hi`, their sums. */
  ghost predicate OrderDone(p: Problem, c: seq<Flt>, tilesN: nat, lo: nat, hi: nat, order: seq<nat>, x: nat, y: nat,
                            upto: nat)
    requires Valid(p) && x <= y <= |order|
  {
    forall i: nat :: x <= i < y ==> StripDone(p, c, tilesN, lo, hi, order[i], upto)
  }

  lemma StripKept(p: Problem, before: seq<Flt>, after: seq<Flt>, tilesN: nat, lo: nat, hi: nat, tn: nat, un: nat,
                  upto: nat)
    requires Valid(p) && un < tilesN && un != tn && KeptElse(p, before, after, tilesN, lo, hi, tn)
             && StripDone(p, before, tilesN, lo, hi, un, upto)
    ensures StripDone(p, after, tilesN, lo, hi, un, upto)
  {
    forall tm: nat | lo <= tm < hi ensures CDone(p, after, tilesN, tm, un, upto) {
      assert CDone(p, before, tilesN, tm, un, upto);
    }
  }

  lemma ChunkStep(p: Problem, start: seq<Flt>, before: seq<Flt>, after: seq<Flt>, tilesN: nat, lo: nat, hi: nat,
                  order: seq<nat>, x: nat, from: nat, to: nat)
    requires Valid(p) && Schedule(order, tilesN) && x < |order|
    requires KeptElse(p, before, after, tilesN, lo, hi, order[x]) && StripDone(p, after, tilesN, lo, hi, order[x], to)
    requires OrderDone(p, before, tilesN, lo, hi, order, 0, x, to)
             && OrderDone(p, before, tilesN, lo, hi, order, x, |order|, from)
    requires KeptRows(p, start, before, tilesN, lo, hi)
    ensures OrderDone(p, after, tilesN, lo, hi, order, 0, x + 1, to)
            && OrderDone(p, after, tilesN, lo, hi, order, x + 1, |order|, from)
    ensures KeptRows(p, start, after, tilesN, lo, hi)
  {
    forall i: nat | i < x
      ensures StripDone(p, after, tilesN, lo, hi, order[i], to)
    {
      StripKept(p, before, after, tilesN, lo, hi, order[x], order[i], to);
    }
    forall i: nat | x < i < |order|
      ensures StripDone(p, after, tilesN, lo, hi, order[i], from)
    {
      StripKept(p, before, after, tilesN, lo, hi, order[x], order[i], from);
    }
    forall um: nat, un: nat, u: nat | un < tilesN && !(lo <= um < hi) && CDone(p, start, tilesN, um, un, u)
      ensures CDone(p, after, tilesN, um, un, u)
    {
      assert CDone(p, before, tilesN, um, un, u);
    }
  }

  /** Every tile of rows `lo .. hi` holds its sums over `upto` blocks. */
  ghost predicate RowsDone(p: Problem, c: seq<Flt>, tilesN: nat, lo: nat, hi: nat, upto: nat)
    requires Valid(p)
  {
    forall tn: nat :: tn < tilesN ==> StripDone(p, c, tilesN, lo, hi, tn, upto)
  }

  lemma WholeOrder(p: Problem, c: seq<Flt>, tilesN: nat, lo: nat, hi: nat, order: seq<nat>, upto: nat)
    requires Valid(p) && Schedule(order, tilesN)
    ensures RowsDone(p, c, tilesN, lo, hi, upto) <==> OrderDone(p, c, tilesN, lo, hi, order, 0, |order|, upto)
  {
    if OrderDone(p, c, tilesN, lo, hi, order, 0, |order|, upto) {
      forall tn: nat | tn < tilesN ensures StripDone(p, c, tilesN, lo, hi, tn, upto) { assert tn in order; }
    }
  }

  lemma RowsStep(p: Problem, before: seq<Flt>, after: seq<Flt>, tilesN: nat, lo: nat, hi: nat, end: nat, from: nat,
                 to: nat)
    requires Valid(p) && lo <= hi <= end && RowsDone(p, before, tilesN, 0, lo, to)
             && RowsDone(p, before, tilesN, lo, end, from)
    requires KeptRows(p, before, after, tilesN, lo, hi) && RowsDone(p, after, tilesN, lo, hi, to)
    ensures RowsDone(p, after, tilesN, 0, hi, to) && RowsDone(p, after, tilesN, hi, end, from)
  {
    forall tn: nat | tn < tilesN ensures StripDone(p, after, tilesN, 0, hi, tn, to) {
      forall tm: nat | tm < hi ensures CDone(p, after, tilesN, tm, tn, to) {
        if tm < lo { assert StripDone(p, before, tilesN, 0, lo, tn, to) && CDone(p, before, tilesN, tm, tn, to); }
        else { assert StripDone(p, after, tilesN, lo, hi, tn, to); }
      }
    }
    forall tn: nat | tn < tilesN ensures StripDone(p, after, tilesN, hi, end, tn, from) {
      forall tm: nat | hi <= tm < end ensures CDone(p, after, tilesN, tm, tn, from) {
        assert StripDone(p, before, tilesN, lo, end, tn, from) && CDone(p, before, tilesN, tm, tn, from);
      }
    }
  }

  lemma SubRows(p: Problem, c: seq<Flt>, tilesN: nat, lo: nat, hi: nat, end: nat, upto: nat)
    requires Valid(p) && lo <= hi <= end && RowsDone(p, c, tilesN, lo, end, upto)
    ensures RowsDone(p, c, tilesN, lo, hi, upto)
  {
    forall tn: nat | tn < tilesN
      ensures StripDone(p, c, tilesN, lo, hi, tn, upto)
    {
      assert StripDone(p, c, tilesN, lo, end, tn, upto);
    }
  }

  class CacheBlockedState {
    const p: Problem
    const tilesM: nat
    const tilesN: nat
    const variant: Variant
    const packedA: array<ABlock>
    const packedB: array<BBlock>
    const packedC: array<Flt>
    const output: array<Flt>

    ghost predicate Shape()
    {
      && Accepted(p, tilesM, tilesN) && packedA.Length == Capacity(variant, tilesM, p.k)
         && packedB.Length == tilesN * p.k
      && packedC.Length == tilesM * tilesN * 128 && output.Length == p.m * p.n
      && packedC != output
    }

    ghost predicate Prepared()
      reads packedA, packedB
    {
      && Shape()
      && (forall t: nat, b: nat :: t < tilesM && b < p.k ==> AReady(p, variant, tilesM, packedA[..], t, b))
      && (forall t: nat, b: nat :: t < tilesN && b < p.k ==> BReady(p, packedB[..], t, b))
    }

    /** One kernel call: brings tile `(tm, tn)` from `blockK` blocks to the end of the panel. */
    method UpdateTile(tm: nat, tn: nat, panel: nat, blockK: nat, unpacked: seq<seq<int>>)
      requires Prepared() && tm < tilesM && tn < tilesN && blockK == panel * PanelSize(variant) && blockK < p.k
      requires variant.UnpackedPanels? ==> AllUnpacked(unpacked, packedB[..], packedB.Length)
      requires CDone(p, packedC[..], tilesN, tm, tn, blockK)
      modifies packedC
      ensures CDone(p, packedC[..], tilesN, tm, tn, blockK + LocalBlocks(variant, p.k, blockK))
      ensures OnlyTile(old(packedC[..]), packedC[..], tilesN, tm, tn)
    {
      var local := LocalBlocks(variant, p.k, blockK);
      UpdateAt(tm, tn, panel, blockK, unpacked, local, TileBase(variant, tilesM, p.k, tm, blockK),
               WeightBase(p.k, tn, blockK), CTile(tilesN, tm, tn));
    }

    /** The same, the operands' and the tile's places computed. */
    method UpdateAt(ghost tm: nat, ghost tn: nat, ghost panel: nat, blockK: nat, unpacked: seq<seq<int>>, local: nat,
                    base: nat, tb: nat, at: nat)
      requires Prepared() && tm < tilesM && tn < tilesN && blockK == panel * PanelSize(variant) && blockK < p.k
      requires variant.UnpackedPanels? ==> AllUnpacked(unpacked, packedB[..], packedB.Length)
      requires local == LocalBlocks(variant, p.k, blockK) && base == TileBase(variant, tilesM, p.k, tm, blockK)
               && tb == WeightBase(p.k, tn, blockK)
      requires at == CTile(tilesN, tm, tn) && CDone(p, packedC[..], tilesN, tm, tn, blockK)
      modifies packedC
      ensures CDone(p, packedC[..], tilesN, tm, tn, blockK + local)
      ensures OnlyTile(old(packedC[..]), packedC[..], tilesN, tm, tn)
    {
      var a, b := packedA[..], packedB[..];
      CallReady(p, variant, tilesM, tilesN, a, b, tm, tn, panel, blockK, local, base, tb);
      var weights := SelectWeights(unpacked, tb, local);
      CallKernel(a[base..base + local], b[tb..tb + local], weights, at, local, tm, tn, blockK);
    }

    method SelectWeights(unpacked: seq<seq<int>>, tb: nat, local: nat) returns (weights: seq<seq<int>>)
      requires variant.UnpackedPanels? ==> AllUnpacked(unpacked, packedB[..], packedB.Length)
      requires tb + local <= packedB.Length
      ensures variant.UnpackedPanels? ==> AllUnpacked(weights, packedB[..][tb..tb + local], local)
    {
      weights := [];
      if variant.UnpackedPanels? {
        weights := unpacked[tb..tb + local];
        UnpackedSlice(unpacked, packedB[..], tb, local);
      }
    }

    /** The zero fill and the kernel of m8b-CB, or the kernel of m8b-DPU-CB. */
    method CallKernel(a: seq<ABlock>, b: seq<BBlock>, unpacked: seq<seq<int>>, at: nat, local: nat, ghost tm: nat,
                      ghost tn: nat, blockK: nat)
      requires Valid(p) && 8 * tm + 8 <= p.m && 16 * tn + 16 <= p.n && blockK + local <= p.k && local > 0
      requires Sized(PanelSource(p, tm, tn, blockK, blockK + local), local)
      requires Operands(a, b, PanelSource(p, tm, tn, blockK, blockK + local), local)
      requires Describes(PanelTable(p, tm, tn, blockK, blockK + local), PanelSource(p, tm, tn, blockK, blockK + local),
                         local)
      requires variant.UnpackedPanels? ==> AllUnpacked(unpacked, b, local)
      requires at == CTile(tilesN, tm, tn) && CDone(p, packedC[..], tilesN, tm, tn, blockK)
      modifies packedC
      ensures CDone(p, packedC[..], tilesN, tm, tn, blockK + local)
      ensures OnlyTile(old(packedC[..]), packedC[..], tilesN, tm, tn)
    {
      ghost var s, table := PanelSource(p, tm, tn, blockK, blockK + local),
          PanelTable(p, tm, tn, blockK, blockK + local);
      ghost var before := packedC[..];
      ghost var start := Start(before[at..at + 128], blockK == 0);
      if blockK == 0 { ZeroTile(p, start, tm, tn); }
      match variant {
        case PackedPanels =>
          if blockK == 0 {
            StoreMasked(packedC, at, seq(128, _ => ZERO), 0, 128);
          }
          assert packedC[at..at + 128] == start;
          TileKernel(a, b, packedC, at, local, s, table);
        case UnpackedPanels =>
          PanelKernel(a, unpacked, BScales(b), packedC, at, local, blockK == 0, b, s, table);
      }
      TileUpdated(p, start, before, packedC[..], tilesN, tm, tn, blockK, blockK + local, at);
    }

    /** The M tiles of a chunk for one N tile. */
    method UpdateStrip(tn: nat, lo: nat, hi: nat, panel: nat, blockK: nat, unpacked: seq<seq<int>>)
      requires Prepared() && lo <= hi <= tilesM && tn < tilesN && blockK == panel * PanelSize(variant) && blockK < p.k
      requires variant.UnpackedPanels? ==> AllUnpacked(unpacked, packedB[..], packedB.Length)
      requires StripDone(p, packedC[..], tilesN, lo, hi, tn, blockK)
      modifies packedC
      ensures StripDone(p, packedC[..], tilesN, lo, hi, tn, blockK + LocalBlocks(variant, p.k, blockK))
      ensures KeptElse(p, old(packedC[..]), packedC[..], tilesN, lo, hi, tn)
    {
      ghost var to, start := blockK + LocalBlocks(variant, p.k, blockK), packedC[..];
      for tm := lo to hi
        invariant StripDone(p, packedC[..], tilesN, lo, tm, tn, to)
                  && StripDone(p, packedC[..], tilesN, tm, hi, tn, blockK)
        invariant KeptElse(p, start, packedC[..], tilesN, lo, hi, tn)
      {
        ghost var before := packedC[..];
        UpdateTile(tm, tn, panel, blockK, unpacked);
        StripStep(p, start, before, packedC[..], tilesN, lo, tm, hi, tn, blockK, to);
      }
    }

    /** A chunk of M tiles: the N tiles form a parallel loop, taken in any order. */
    method UpdateChunk(lo: nat, hi: nat, panel: nat, blockK: nat, order: seq<nat>, unpacked: seq<seq<int>>)
      requires Prepared() && lo <= hi <= tilesM && blockK == panel * PanelSize(variant) && blockK < p.k
               && Schedule(order, tilesN)
      requires variant.UnpackedPanels? ==> AllUnpacked(unpacked, packedB[..], packedB.Length)
      requires RowsDone(p, packedC[..], tilesN, lo, hi, blockK)
      modifies packedC
      ensures RowsDone(p, packedC[..], tilesN, lo, hi, blockK + LocalBlocks(variant, p.k, blockK))
      ensures KeptRows(p, old(packedC[..]), packedC[..], tilesN, lo, hi)
    {
      ghost var to, start := blockK + LocalBlocks(variant, p.k, blockK), packedC[..];
      WholeOrder(p, packedC[..], tilesN, lo, hi, order, blockK);
      for x := 0 to |order|
        invariant OrderDone(p, packedC[..], tilesN, lo, hi, order, 0, x, to)
                  && OrderDone(p, packedC[..], tilesN, lo, hi, order, x, |order|, blockK)
        invariant KeptRows(p, start, packedC[..], tilesN, lo, hi)
      {
        ghost var before := packedC[..];
        UpdateStrip(order[x], lo, hi, panel, blockK, unpacked);
        ChunkStep(p, start, before, packedC[..], tilesN, lo, hi, order, x, blockK, to);
      }
      WholeOrder(p, packedC[..], tilesN, lo, hi, order, to);
    }

    /** One K panel: all chunks of M tiles. */
    method UpdatePanel(panel: nat, blockK: nat, orders: nat -> seq<nat>, unpacked: seq<seq<int>>)
      requires Prepared() && blockK == panel * PanelSize(variant) && blockK < p.k
               && forall x :: Schedule(orders(x), tilesN)
      requires variant.UnpackedPanels? ==> AllUnpacked(unpacked, packedB[..], packedB.Length)
      requires RowsDone(p, packedC[..], tilesN, 0, tilesM, blockK)
      modifies packedC
      ensures RowsDone(p, packedC[..], tilesN, 0, tilesM, blockK + LocalBlocks(variant, p.k, blockK))
    {
      ghost var to := blockK + LocalBlocks(variant, p.k, blockK);
      var chunkTiles := ChunkTiles(tilesM, if variant.PackedPanels? then PanelSize(variant)
                                   else LocalBlocks(variant, p.k, blockK));
      var chunkBegin: nat := 0;
      while chunkBegin < tilesM
        invariant chunkBegin <= tilesM && RowsDone(p, packedC[..], tilesN, 0, chunkBegin, to)
                  && RowsDone(p, packedC[..], tilesN, chunkBegin, tilesM, blockK)
      {
        var chunkEnd := if tilesM < chunkBegin + chunkTiles then tilesM else chunkBegin + chunkTiles;
        ghost var before := packedC[..];
        SubRows(p, before, tilesN, chunkBegin, chunkEnd, tilesM, blockK);
        UpdateChunk(chunkBegin, chunkEnd, panel, blockK, orders(chunkBegin), unpacked);
        RowsStep(p, before, packedC[..], tilesN, chunkBegin, chunkEnd, tilesM, blockK, to);
        chunkBegin := chunkEnd;
      }
    }

    /** The dynamic pre-unpack of one iteration, N tile by N tile and panel by panel. */
    method UnpackWeights() returns (unpacked: array<seq<int>>)
      requires Shape() && forall x :: 0 <= x < packedB.Length ==> |packedB[x].qs| == 256
      ensures fresh(unpacked) && AllUnpacked(unpacked[..], packedB[..], packedB.Length)
    {
      unpacked := new seq<int>[packedB.Length];
      for tileN := 0 to tilesN
        invariant 0 <= tileN * p.k <= packedB.Length && AllUnpacked(unpacked[..], packedB[..], tileN * p.k)
      {
        MulStep(p.k, tileN, tilesN);
        UnpackTile(unpacked, tileN * p.k);
      }
    }

    method UnpackTile(unpacked: array<seq<int>>, first: nat)
      requires first + p.k <= packedB.Length == unpacked.Length && forall x :: 0 <= x < packedB.Length ==>
                 |packedB[x].qs| == 256
      requires AllUnpacked(unpacked[..], packedB[..], first)
      modifies unpacked
      ensures AllUnpacked(unpacked[..], packedB[..], first + p.k)
    {
      var blockK: nat := 0;
      while blockK < p.k
        invariant AllUnpacked(unpacked[..], packedB[..], first + if blockK < p.k then blockK else p.k)
      {
        UnpackPanel(unpacked, first + blockK, LocalBlocks(variant, p.k, blockK));
        blockK := blockK + PanelSize(variant);
      }
    }

    method UnpackPanel(unpacked: array<seq<int>>, first: nat, local: nat)
      requires first + local <= packedB.Length == unpacked.Length && forall x :: 0 <= x < packedB.Length ==>
                 |packedB[x].qs| == 256
      requires AllUnpacked(unpacked[..], packedB[..], first)
      modifies unpacked
      ensures AllUnpacked(unpacked[..], packedB[..], first + local)
    {
      for i := 0 to local
        invariant AllUnpacked(unpacked[..], packedB[..], first + i)
      {
        unpacked[first + i] := UnpackBlock(packedB[first + i].qs);
      }
    }

    /** All K panels of one iteration, whatever packed C held before. */
    method Accumulate(orders: (nat, nat) -> seq<nat>, unpacked: seq<seq<int>>)
      requires Prepared() && forall x, y :: Schedule(orders(x, y), tilesN)
      requires variant.UnpackedPanels? ==> AllUnpacked(unpacked, packedB[..], packedB.Length)
      modifies packedC
      ensures RowsDone(p, packedC[..], tilesN, 0, tilesM, p.k)
    {
      AnyC(p, packedC[..], tilesM, tilesN);
      var blockK: nat := 0;
      var panel: nat := 0;
      ghost var done: nat := 0;
      while blockK < p.k
        invariant blockK == panel * PanelSize(variant) && done == (if blockK < p.k then blockK else p.k)
        invariant RowsDone(p, packedC[..], tilesN, 0, tilesM, done)
      {
        UpdatePanel(panel, blockK, x => orders(blockK, x), unpacked);
        done := blockK + LocalBlocks(variant, p.k, blockK);
        blockK := blockK + PanelSize(variant);
        panel := panel + 1;
      }
    }

    /** Copies every packed C tile to its place in the output. */
    method CopyOut()
      requires Shape() && RowsDone(p, packedC[..], tilesN, 0, tilesM, p.k)
      modifies output
      ensures IsProduct(p, output[..])
    {
      for tm := 0 to tilesM
        invariant forall um, un :: 0 <= um < tm && 0 <= un < tilesN ==> TileDone(p, output[..], 8, 16, um, un)
      {
        for tn := 0 to tilesN
          invariant forall um, un :: 0 <= um < tm && 0 <= un < tilesN ==> TileDone(p, output[..], 8, 16, um, un)
          invariant forall un :: 0 <= un < tn ==> TileDone(p, output[..], 8, 16, tm, un)
        {
          CopyTile(tm, tn);
        }
      }
      AllTilesDone(p, output[..], 8, 16, tilesM, tilesN);
    }

    method CopyTile(tm: nat, tn: nat)
      requires Shape() && tm < tilesM && tn < tilesN && RowsDone(p, packedC[..], tilesN, 0, tilesM, p.k)
      modifies output
      ensures forall um: nat, un: nat :: old(TileDone(p, output[..], 8, 16, um, un)) ==>
                TileDone(p, output[..], 8, 16, um, un)
      ensures TileDone(p, output[..], 8, 16, tm, tn)
    {
      assert StripDone(p, packedC[..], tilesN, 0, tilesM, tn, p.k) && CDone(p, packedC[..], tilesN, tm, tn, p.k);
      var at := CTile(tilesN, tm, tn);
      var tile := packedC[..][at..at + 128];
      CompleteTile(p, tile, tm, tn);
      PutTile(tm, tn, tile);
    }

    method PutTile(tm: nat, tn: nat, tile: seq<Flt>)
      requires Shape() && tm < tilesM && tn < tilesN && IsTile(p, tile, 8, 16, tm, tn)
      modifies output
      ensures forall um: nat, un: nat :: old(TileDone(p, output[..], 8, 16, um, un)) ==>
                TileDone(p, output[..], 8, 16, um, un)
      ensures TileDone(p, output[..], 8, 16, tm, tn)
    {
      ghost var before := output[..];
      MulStep(8, tm, tilesM);
      MulStep(16, tn, tilesN);
      MulOrder(tm * 8 + 8, p.m, p.n);
      StoreTile(output, p.n, tm * 8, 8, tn * 16, 16, tile);
      TileStored(p, before, output[..], 8, 16, tm, tn, tile);
    }

    /** `run`: whatever the packed C and the output hold, and in whatever order the
        N tiles of each parallel loop are taken. */
    method Run(iterations: nat, orders: (nat, nat, nat) -> seq<nat>)
      requires Prepared() && iterations >= 1 && forall i, x, y :: Schedule(orders(i, x, y), tilesN)
      modifies packedC, output
      ensures IsProduct(p, output[..])
    {
      for iteration := 0 to iterations
        invariant iteration > 0 ==> IsProduct(p, output[..])
      {
        var unpacked: seq<seq<int>> := [];
        if variant.UnpackedPanels? {
          PackedLengths();
          var weights := UnpackWeights();
          unpacked := weights[..];
        }
        Accumulate((x, y) => orders(iteration, x, y), unpacked);
        CopyOut();
      }
    }

    lemma PackedLengths()
      requires Prepared()
      ensures forall x :: 0 <= x < packedB.Length ==> |packedB[x].qs| == 256
    {
      forall x | 0 <= x < packedB.Length ensures |packedB[x].qs| == 256 {
        var t, b := DivMod(x, p.k, tilesN);
        assert BReady(p, packedB[..], t, b);
      }
    }

    // ---------- Preparation ----------

    constructor (problem: Problem, tm: nat, tn: nat, v: Variant)
      requires Accepted(problem, tm, tn)
      ensures p == problem && tilesM == tm && tilesN == tn && variant == v && Prepared()
      ensures fresh(packedA) && fresh(packedB) && fresh(packedC) && fresh(output)
    {
      p, tilesM, tilesN, variant := problem, tm, tn, v;
      packedA := new ABlock[Capacity(v, tm, problem.k)](_ => ABlock([], []));
      packedB := new BBlock[tn * problem.k](_ => BBlock([], []));
      var c := new Flt[tm * tn * 128](_ => ZERO);
      packedC := c;
      output := new Flt[problem.m * problem.n](_ => ZERO);
      new;
      PackActivations();
      PackWeights();
    }

    /** The panel-major repack of the activations. */
    method PackActivations()
      requires Shape()
      modifies packedA
      ensures forall t: nat, b: nat :: t < tilesM && b < p.k ==> AReady(p, variant, tilesM, packedA[..], t, b)
    {
      var blockK: nat := 0;
      var panel: nat := 0;
      while blockK < p.k
        invariant blockK == panel * PanelSize(variant)
        invariant APackedTo(p, variant, tilesM, packedA[..], blockK, 0, 0, 0)
      {
        PackPanel(panel, blockK, LocalBlocks(variant, p.k, blockK));
        blockK := blockK + PanelSize(variant);
        panel := panel + 1;
      }
    }

    method PackPanel(panel: nat, blockK: nat, local: nat)
      requires Shape() && blockK == panel * PanelSize(variant) && blockK < p.k
               && local == LocalBlocks(variant, p.k, blockK)
      requires APackedTo(p, variant, tilesM, packedA[..], blockK, 0, 0, 0)
      modifies packedA
      ensures APackedTo(p, variant, tilesM, packedA[..], blockK + PanelSize(variant), 0, 0, 0)
    {
      for tile := 0 to tilesM
        invariant APackedTo(p, variant, tilesM, packedA[..], blockK, local, tile, 0)
      {
        for l := 0 to local
          invariant APackedTo(p, variant, tilesM, packedA[..], blockK, local, tile, l)
        {
          PackActivationBlock(panel, blockK, local, tile, l);
        }
      }
    }

    method PackActivationBlock(panel: nat, blockK: nat, local: nat, tile: nat, l: nat)
      requires Shape() && blockK == panel * PanelSize(variant) && blockK < p.k
               && local == LocalBlocks(variant, p.k, blockK) && tile < tilesM && l < local
      requires APackedTo(p, variant, tilesM, packedA[..], blockK, local, tile, l)
      modifies packedA
      ensures APackedTo(p, variant, tilesM, packedA[..], blockK, local, tile, l + 1)
    {
      MulStep(8, tile, tilesM);
      BlockIndexIs(variant, tilesM, p.k, tile, panel, l);
      IndexInBounds(variant, tilesM, p.k, tile, blockK + l);
      var destination := TileBase(variant, tilesM, p.k, tile, blockK) + l;
      var block := PackA(TileRows(p, tile, blockK + l));
      ghost var before := packedA[..];
      packedA[destination] := block;
      APackedNext(p, variant, tilesM, before, packedA[..], destination, block, blockK, local, tile, l);
    }

    method PackWeights()
      requires Shape()
      modifies packedB
      ensures forall t: nat, b: nat :: t < tilesN && b < p.k ==> BReady(p, packedB[..], t, b)
    {
      for tile := 0 to tilesN
        invariant BPackedTo(p, packedB[..], tile, 0)
      {
        for block := 0 to p.k
          invariant BPackedTo(p, packedB[..], tile, block)
        {
          PackWeightBlock(tile, block);
        }
      }
    }

    method PackWeightBlock(tile: nat, block: nat)
      requires Shape() && tile < tilesN && block < p.k && BPackedTo(p, packedB[..], tile, block)
      modifies packedB
      ensures BPackedTo(p, packedB[..], tile, block + 1)
    {
      MulStep(16, tile, tilesN);
      CellBound(tilesN, p.k, tile, block);
      var packed := PackQ4N16(TileColumns(p, tile, block));
      ghost var before := packedB[..];
      var at := WeightBase(p.k, tile, block);
      packedB[at] := packed;
      BPackedNext(p, before, packedB[..], at, packed, tile, block);
    }
  }

  /** Before the first panel nothing is asked of packed C but its size. */
  lemma AnyC(p: Problem, c: seq<Flt>, tilesM: nat, tilesN: nat)
    requires Valid(p) && |c| == tilesM * tilesN * 128
    ensures RowsDone(p, c, tilesN, 0, tilesM, 0)
  {
    forall tn: nat | tn < tilesN ensures StripDone(p, c, tilesN, 0, tilesM, tn, 0) {
      forall tm: nat | tm < tilesM ensures CDone(p, c, tilesN, tm, tn, 0) { CellBound(tilesM, tilesN, tm, tn); }
    }
  }

  /** Both cache-blocked kernels, end to end: for every shape they admit, every
      number of iterations and every order of the parallel N tiles, each output
      element is the same expression as the unblocked product's, hence over the
      reals the reference dot product. */
  method Multiply(p: Problem, tilesM: nat, tilesN: nat, v: Variant, iterations: nat,
                  orders: (nat, nat, nat) -> seq<nat>) returns (output: seq<Flt>)
    requires Accepted(p, tilesM, tilesN) && iterations >= 1 && forall i, x, y :: Schedule(orders(i, x, y), tilesN)
    ensures IsProduct(p, output)
    ensures forall i: nat, j: nat :: i < p.m && j < p.n ==> Matches(p, output, i, j)
  {
    var state := new CacheBlockedState(p, tilesM, tilesN, v);
    state.Run(iterations, orders);
    output := state.output[..];
    forall i: nat, j: nat | i < p.m && j < p.n ensures Matches(p, output, i, j) {
      ComputedIsReference(p, output, i, j);
    }
  }
}
