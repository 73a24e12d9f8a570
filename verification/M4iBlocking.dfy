/** The cache-blocked m4i-CB adapter: activations copied into padded panels, the
    packed C tiles brought up to date panel by panel, and unpacked at the end. */
module M4iBlocking {
  import opened BitArithmetic
  import opened Floats
  import opened Quantized
  import opened Gemm
  import opened PanelLayout
  import opened TileShapes
  import opened OutputCells
  import opened TileOperands
  import opened M4iAdapter
  import Ime1 = Ime1Adapter
  import C = CacheBlocking

  const CHUNK_BUDGET: nat := 128 * 1024   // kAChunkBudgetBytes
  const TILE_BYTES: nat := 32 * 144       // kAChunkBytesPerTile

  /** M tiles of a chunk: as many as the budget holds, at least one. */
  function ChunkTiles(tilesM: nat): (r: nat)
    ensures r > 0
  {
    var fit := CHUNK_BUDGET / TILE_BYTES;
    var capped := if tilesM < fit then tilesM else fit;
    if capped < 1 then 1 else capped
  }

  // ---------- The panel copy ----------

  /** Place `i` of the packed panels holds block `b` of tile `t`. */
  ghost predicate Copied(packed: seq<ABlock>, a: seq<seq<ABlock>>, t: nat, b: nat, i: nat) {
    t < |a| && b < |a[t]| && i < |packed| && packed[i] == a[t][b]
  }

  ghost predicate CopiedTo(packed: seq<ABlock>, a: seq<seq<ABlock>>, k: nat, blockK: nat, local: nat, tile: nat,
                           l: nat) {
    forall t: nat, b: nat :: t < |a| && b < k && C.Passed(t, b, blockK, local, tile, l) ==>
      Copied(packed, a, t, b, BlockIndex(PackedPanels, |a|, k, t, b))
  }

  lemma CopiedNext(before: seq<ABlock>, a: seq<seq<ABlock>>, k: nat, i: nat, blockK: nat, local: nat, tile: nat, l: nat)
    requires tile < |a| && l < local && blockK + local <= k && k == |a[tile]|
             && CopiedTo(before, a, k, blockK, local, tile, l)
    requires i == BlockIndex(PackedPanels, |a|, k, tile, blockK + l) && i < |before|
    ensures CopiedTo(before[i := a[tile][blockK + l]], a, k, blockK, local, tile, l + 1)
  {
    var after, here, next := before[i := a[tile][blockK + l]], blockK + l, l + 1;
    forall t: nat, b: nat | t < |a| && b < k && C.Passed(t, b, blockK, local, tile, next)
      ensures Copied(after, a, t, b, BlockIndex(PackedPanels, |a|, k, t, b))
    {
      if (t, b) != (tile, here) {
        assert Copied(before, a, t, b, BlockIndex(PackedPanels, |a|, k, t, b));
        if BlockIndex(PackedPanels, |a|, k, t, b) == i { IndexInjective(PackedPanels, |a|, k, t, b, tile, here); }
      }
    }
  }

  /** What a kernel call reads is what the preparation stored. */
  lemma ReadBack(packed: seq<ABlock>, a: seq<seq<ABlock>>, k: nat, tm: nat, panel: nat, blockK: nat, base: nat)
    requires tm < |a| && |a[tm]| == k && blockK == 32 * panel && blockK < k
             && base == TileBase(PackedPanels, |a|, k, tm, blockK)
    requires |packed| == Capacity(PackedPanels, |a|, k)
    requires forall t: nat, b: nat :: t < |a| && b < k ==>
               Copied(packed, a, t, b, BlockIndex(PackedPanels, |a|, k, t, b))
    ensures var local := LocalBlocks(PackedPanels, k, blockK);
            base + local <= |packed| && packed[base..base + local] == a[tm][blockK..blockK + local]
  {
    var local := LocalBlocks(PackedPanels, k, blockK);
    var last := local - 1;
    PlaceIs(k, |a|, tm, panel, blockK, last);
    IndexInBounds(PackedPanels, |a|, k, tm, blockK + last);
    var x, y := packed[base..base + local], a[tm][blockK..blockK + local];
    forall i: nat | i < local ensures x[i] == y[i] {
      PlaceIs(k, |a|, tm, panel, blockK, i);
      var b := blockK + i;
      assert Copied(packed, a, tm, b, BlockIndex(PackedPanels, |a|, k, tm, b));
    }
  }

  lemma PlaceIs(k: nat, tilesM: nat, tm: nat, panel: nat, blockK: nat, l: nat)
    requires blockK == 32 * panel && l < 32 && blockK + l < k
    ensures BlockIndex(PackedPanels, tilesM, k, tm, blockK + l) == TileBase(PackedPanels, tilesM, k, tm, blockK) + l
  {
    BlockIndexIs(PackedPanels, tilesM, k, tm, panel, l);
  }

  // ---------- Progress through the nest ----------

  /** In the current panel, tile `(um, un)` has been brought up to date: its chunk is
      done, or its N tile is, or it comes earlier in the one under way. */
  predicate Updated(lo: nat, hi: nat, order: seq<nat>, x: nat, t: nat, um: nat, un: nat)
    requires x <= |order|
  {
    um < lo || (um < hi && (un in order[..x] || (x < |order| && un == order[x] && um < t)))
  }

  /** What a tile not yet visited holds: anything, before the first panel. */
  function Earlier(from: nat): Goal { if from == 0 then Anything else Upto(from) }

  class M4iState {
    const p: Problem
    const tilesM: nat
    const tilesN: nat
    const packedA: array<ABlock>
    const packedC: array2<seq<Flt>>
    const output: array<Flt>
    const staged: seq<seq<ABlock>>      // M-major, from `initialize_q4_0_ime`
    const packedB: seq<seq<BBlock>>

    ghost predicate Shape() {
      && Accepted(p, tilesM, tilesN) && |staged| == tilesM && APrepared(p, 4, staged) && |packedB| == tilesN
         && BPrepared(p, 16, packedB)
      && packedA.Length == Capacity(PackedPanels, tilesM, p.k) && packedC.Length0 == tilesM && packedC.Length1 == tilesN
      && output.Length == p.m * p.n
    }

    ghost predicate Prepared()
      reads packedA
    {
      && Shape()
      && forall t: nat, b: nat :: t < tilesM && b < p.k ==>
           Copied(packedA[..], staged, t, b, BlockIndex(PackedPanels, tilesM, p.k, t, b))
    }

    /** Packed C tile `(um, un)`. */
    ghost predicate Holds(um: nat, un: nat, goal: Goal)
      requires Shape() && um < tilesM && un < tilesN
      reads packedC
    {
      goal != Anything ==> MivMeets(p, packedC[um, un], um, un, goal)
    }

    ghost predicate Stage(from: nat, end: nat, lo: nat, hi: nat, order: seq<nat>, x: nat, t: nat)
      requires Shape() && x <= |order|
      reads packedC
    {
      forall um: nat, un: nat :: um < tilesM && un < tilesN ==> StageAt(from, end, lo, hi, order, x, t, um, un)
    }

    ghost predicate StageAt(from: nat, end: nat, lo: nat, hi: nat, order: seq<nat>, x: nat, t: nat, um: nat, un: nat)
      requires Shape() && x <= |order| && um < tilesM && un < tilesN
      reads packedC
    {
      Holds(um, un, if Updated(lo, hi, order, x, t, um, un) then Upto(end) else Earlier(from))
    }

    // ---------- Preparation ----------

    constructor (problem: Problem, tm: nat, tn: nat, a: seq<seq<ABlock>>, b: seq<seq<BBlock>>)
      requires Accepted(problem, tm, tn) && |a| == tm && APrepared(problem, 4, a) && |b| == tn
               && BPrepared(problem, 16, b)
      ensures p == problem && tilesM == tm && tilesN == tn && Prepared() && fresh(packedA) && fresh(packedC)
              && fresh(output)
    {
      p, tilesM, tilesN, staged, packedB := problem, tm, tn, a, b;
      packedA := new ABlock[Capacity(PackedPanels, tm, problem.k)](_ => ABlock([], []));
      packedC := new seq<Flt>[tm, tn]((_, _) => []);
      output := new Flt[problem.m * problem.n](_ => ZERO);
      new;
      CopyPanels();
    }

    method CopyPanels()
      requires Shape()
      modifies packedA
      ensures Prepared()
    {
      var blockK: nat := 0;
      var panel: nat := 0;
      while blockK < p.k
        invariant blockK == 32 * panel && CopiedTo(packedA[..], staged, p.k, blockK, 0, 0, 0)
      {
        CopyPanel(panel, blockK, LocalBlocks(PackedPanels, p.k, blockK));
        blockK := blockK + 32;
        panel := panel + 1;
      }
    }

    method CopyPanel(panel: nat, blockK: nat, local: nat)
      requires Shape() && blockK == 32 * panel && blockK < p.k && local == LocalBlocks(PackedPanels, p.k, blockK)
      requires CopiedTo(packedA[..], staged, p.k, blockK, 0, 0, 0)
      modifies packedA
      ensures CopiedTo(packedA[..], staged, p.k, blockK + 32, 0, 0, 0)
    {
      for tile := 0 to tilesM
        invariant CopiedTo(packedA[..], staged, p.k, blockK, local, tile, 0)
      {
        for l := 0 to local
          invariant CopiedTo(packedA[..], staged, p.k, blockK, local, tile, l)
        {
          CopyBlock(panel, blockK, local, tile, l);
        }
      }
    }

    method CopyBlock(panel: nat, blockK: nat, local: nat, tile: nat, l: nat)
      requires Shape() && blockK == 32 * panel && blockK < p.k && local == LocalBlocks(PackedPanels, p.k, blockK)
      requires tile < tilesM && l < local && CopiedTo(packedA[..], staged, p.k, blockK, local, tile, l)
      modifies packedA
      ensures CopiedTo(packedA[..], staged, p.k, blockK, local, tile, l + 1)
    {
      assert ATile(p, 4, staged, tile);
      var destination := TileBase(PackedPanels, tilesM, p.k, tile, blockK) + l;
      PlaceIs(p.k, tilesM, tile, panel, blockK, l);
      IndexInBounds(PackedPanels, tilesM, p.k, tile, blockK + l);
      CopiedNext(packedA[..], staged, p.k, destination, blockK, local, tile, l);
      packedA[destination] := staged[tile][blockK + l];
    }

    // ---------- The blocked nest ----------

    /** One kernel call. */
    method UpdateTile(tm: nat, tn: nat, panel: nat, blockK: nat, local: nat)
      requires Prepared() && tm < tilesM && tn < tilesN && blockK == 32 * panel && blockK < p.k
               && local == LocalBlocks(PackedPanels, p.k, blockK)
      requires Holds(tm, tn, Earlier(blockK))
      modifies packedC
      ensures Holds(tm, tn, Upto(blockK + local))
      ensures forall um: nat, un: nat :: um < tilesM && un < tilesN && (um, un) != (tm, tn) ==>
                packedC[um, un] == old(packedC[um, un])
    {
      var base := TileBase(PackedPanels, tilesM, p.k, tm, blockK);
      assert ATile(p, 4, staged, tm) && BTile(p, 16, packedB, tn);
      ReadBack(packedA[..], staged, p.k, tm, panel, blockK, base);
      APart(p, 4, staged[tm], 4 * tm, blockK, local);
      BPart(p, 16, packedB[tn], 16 * tn, blockK, local);
      if blockK == 0 {
        packedC[tm, tn] := seq(64, _ => ZERO);
        ZeroMiv(p, packedC[tm, tn], tm, tn);
      }
      var next := Advance(packedC[tm, tn], packedA[..][base..base + local], packedB[tn][blockK..blockK + local], p, tm,
                          tn, blockK);
      packedC[tm, tn] := next;
    }

    method UpdateStrip(panel: nat, blockK: nat, local: nat, lo: nat, hi: nat, order: seq<nat>, x: nat)
      requires Prepared() && blockK == 32 * panel && blockK < p.k && local == LocalBlocks(PackedPanels, p.k, blockK)
      requires lo <= hi <= tilesM && Schedule(order, tilesN) && x < |order|
               && Stage(blockK, blockK + local, lo, hi, order, x, lo)
      modifies packedC
      ensures Stage(blockK, blockK + local, lo, hi, order, x + 1, lo)
    {
      ghost var end := blockK + local;
      for tm := lo to hi
        invariant Stage(blockK, end, lo, hi, order, x, tm)
      {
        UpdateNext(panel, blockK, local, lo, hi, order, x, tm);
      }
      ghost var next := x + 1;
      forall um: nat, un: nat | um < tilesM && un < tilesN
        ensures StageAt(blockK, end, lo, hi, order, next, lo, um, un)
      {
        assert StageAt(blockK, end, lo, hi, order, x, hi, um, un);
        StripDone(lo, hi, order, x, um, un);
      }
    }

    method UpdateNext(panel: nat, blockK: nat, local: nat, ghost lo: nat, ghost hi: nat, order: seq<nat>, x: nat,
                      tm: nat)
      requires Prepared() && blockK == 32 * panel && blockK < p.k && local == LocalBlocks(PackedPanels, p.k, blockK)
      requires lo <= tm < hi <= tilesM && Schedule(order, tilesN) && x < |order|
               && Stage(blockK, blockK + local, lo, hi, order, x, tm)
      modifies packedC
      ensures Stage(blockK, blockK + local, lo, hi, order, x, tm + 1)
    {
      ghost var end, tn, next := blockK + local, order[x], tm + 1;
      Unvisited(lo, hi, order, x, tm);
      assert StageAt(blockK, end, lo, hi, order, x, tm, tm, tn);
      UpdateTile(tm, order[x], panel, blockK, local);
      forall um: nat, un: nat | um < tilesM && un < tilesN
        ensures StageAt(blockK, end, lo, hi, order, x, next, um, un)
      {
        assert old(StageAt(blockK, end, lo, hi, order, x, tm, um, un));
        if (um, un) != (tm, tn) {
          assert Updated(lo, hi, order, x, next, um, un) == Updated(lo, hi, order, x, tm, um, un);
        }
      }
    }

    /** A chunk of M tiles: the N tiles form a parallel loop, taken in any order. */
    method UpdateChunk(panel: nat, blockK: nat, local: nat, lo: nat, hi: nat, order: seq<nat>)
      requires Prepared() && blockK == 32 * panel && blockK < p.k && local == LocalBlocks(PackedPanels, p.k, blockK)
      requires lo <= hi <= tilesM && Schedule(order, tilesN) && Stage(blockK, blockK + local, lo, lo, [], 0, 0)
      modifies packedC
      ensures Stage(blockK, blockK + local, hi, hi, [], 0, 0)
    {
      ghost var end := blockK + local;
      forall um: nat, un: nat | um < tilesM && un < tilesN ensures StageAt(blockK, end, lo, hi, order, 0, lo, um, un) {
        assert StageAt(blockK, end, lo, lo, [], 0, 0, um, un);
      }
      for x := 0 to |order|
        invariant Stage(blockK, end, lo, hi, order, x, lo)
      {
        UpdateStrip(panel, blockK, local, lo, hi, order, x);
      }
      forall um: nat, un: nat | um < tilesM && un < tilesN ensures StageAt(blockK, end, hi, hi, [], 0, 0, um, un) {
        assert StageAt(blockK, end, lo, hi, order, |order|, lo, um, un);
        assert order[..|order|] == order && un in order;
      }
    }

    method UpdatePanel(panel: nat, blockK: nat, local: nat, orders: nat -> seq<nat>)
      requires Prepared() && blockK == 32 * panel && blockK < p.k && local == LocalBlocks(PackedPanels, p.k, blockK)
      requires (forall c :: Schedule(orders(c), tilesN)) && Stage(blockK, blockK + local, 0, 0, [], 0, 0)
      modifies packedC
      ensures Stage(blockK, blockK + local, tilesM, tilesM, [], 0, 0)
    {
      var chunkTiles := ChunkTiles(tilesM);
      var chunkBegin: nat := 0;
      while chunkBegin < tilesM
        invariant chunkBegin <= tilesM && Stage(blockK, blockK + local, chunkBegin, chunkBegin, [], 0, 0)
      {
        var chunkEnd := if tilesM < chunkBegin + chunkTiles then tilesM else chunkBegin + chunkTiles;
        UpdateChunk(panel, blockK, local, chunkBegin, chunkEnd, orders(chunkBegin));
        chunkBegin := chunkEnd;
      }
    }

    /** All K panels, whatever packed C held before. */
    method Accumulate(orders: (nat, nat) -> seq<nat>)
      requires Prepared() && forall x, y :: Schedule(orders(x, y), tilesN)
      modifies packedC
      ensures forall um: nat, un: nat :: um < tilesM && un < tilesN ==> Holds(um, un, Upto(p.k))
    {
      var blockK: nat := 0;
      var panel: nat := 0;
      ghost var done: nat := 0;
      while blockK < p.k
        invariant blockK == 32 * panel && done == (if blockK < p.k then blockK else p.k)
        invariant forall um: nat, un: nat :: um < tilesM && un < tilesN ==> Holds(um, un, Earlier(done))
      {
        var local := LocalBlocks(PackedPanels, p.k, blockK);
        ghost var end := blockK + local;
        forall um: nat, un: nat | um < tilesM && un < tilesN ensures StageAt(blockK, end, 0, 0, [], 0, 0, um, un) {
          assert Holds(um, un, Earlier(done));
        }
        UpdatePanel(panel, blockK, local, c => orders(blockK, c));
        forall um: nat, un: nat | um < tilesM && un < tilesN ensures Holds(um, un, Earlier(end)) {
          assert StageAt(blockK, end, tilesM, tilesM, [], 0, 0, um, un);
        }
        done := end;
        blockK := blockK + 32;
        panel := panel + 1;
      }
      forall um: nat, un: nat | um < tilesM && un < tilesN
        ensures Holds(um, un, Upto(p.k))
      {
        assert Holds(um, un, Earlier(done));
      }
    }

    /** Unpacks every packed C tile to its place; the tile rows form a parallel loop. */
    method CopyOut(order: seq<nat>)
      requires Shape() && Schedule(order, tilesM)
      requires forall um: nat, un: nat :: um < tilesM && un < tilesN ==> Holds(um, un, Upto(p.k))
      modifies output
      ensures IsProduct(p, output[..])
    {
      for x := 0 to |order|
        invariant RowsHold(p, output[..], order, x, 0, Upto(p.k))
      {
        for tn := 0 to tilesN
          invariant RowsHold(p, output[..], order, x, tn, Upto(p.k))
        {
          var tm := order[x];
          assert Holds(tm, tn, Upto(p.k));
          ghost var before := output[..];
          UnpackTile(output, p, tilesM, tilesN, tm, tn, packedC[tm, tn], Upto(p.k));
          TileRowNext(p, before, output[..], order, x, tn, Upto(p.k));
        }
        RowFinished(p, output[..], order, x, tilesN, Upto(p.k));
      }
      AllRows(p, output[..], order, tilesM, Upto(p.k));
      FinishedIsProduct(p, output[..]);
    }

    /** `run`, whatever the packed C and the output hold. */
    method Run(iterations: nat, orders: (nat, nat, nat) -> seq<nat>, rows: nat -> seq<nat>)
      requires Prepared() && iterations >= 1
      requires (forall i, x, y :: Schedule(orders(i, x, y), tilesN)) && forall i :: Schedule(rows(i), tilesM)
      modifies packedC, output
      ensures IsProduct(p, output[..])
    {
      for iteration := 0 to iterations
        invariant iteration > 0 ==> IsProduct(p, output[..])
      {
        Accumulate((x, y) => orders(iteration, x, y));
        CopyOut(rows(iteration));
      }
    }
  }

  lemma Unvisited(lo: nat, hi: nat, order: seq<nat>, x: nat, tm: nat)
    requires lo <= tm < hi && x < |order| && forall k, l :: 0 <= k < l < |order| ==> order[k] != order[l]
    ensures !Updated(lo, hi, order, x, tm, tm, order[x])
  {
    forall k | 0 <= k < x ensures order[..x][k] != order[x] {}
  }

  /** An N tile whose rows `lo .. hi` have all been visited. */
  lemma StripDone(lo: nat, hi: nat, order: seq<nat>, x: nat, um: nat, un: nat)
    requires lo <= hi && x < |order|
    ensures Updated(lo, hi, order, x, hi, um, un) == Updated(lo, hi, order, x + 1, lo, um, un)
  {
    assert order[..x + 1] == order[..x] + [order[x]];
  }

  /** m4i, its cache-blocked variant and m8b store the same floats for every shape
      all three admit, every order of their parallel loops and any stale contents. */
  method CompareM4i(p: Problem, tilesM: nat, tilesN: nat, tilesM8: nat, iterations: nat,
                    orders: (nat, nat, nat) -> seq<nat>, rows: nat -> seq<nat>, m8Orders: (nat, nat, nat) -> seq<nat>,
                    m8Order: seq<nat>) returns (plain: seq<Flt>, blocked: seq<Flt>, m8b: seq<Flt>)
    requires Accepted(p, tilesM, tilesN) && p.m == 8 * tilesM8 && iterations >= 1
    requires (forall i, x, y :: Schedule(orders(i, x, y), tilesN)) && forall i :: Schedule(rows(i), tilesM)
    requires (forall i, x, y :: Schedule(m8Orders(i, x, y), tilesN)) && Schedule(m8Order, tilesM8)
    ensures plain == blocked == m8b && IsProduct(p, plain)
  {
    var a := PackActivations(p, 4, tilesM);
    var b := PackWeights(p, 16, tilesN);
    var state := new M4iState(p, tilesM, tilesN, a, b);
    state.Run(iterations, orders, rows);
    var output := M4iAdapter.Multiply(p, tilesM, tilesN, rows(0));
    var other, same := Ime1.CompareKernels(p, tilesM8, tilesN, PackedPanels, iterations, m8Orders, m8Order);
    plain, blocked, m8b := output[..], state.output[..], same;
    ProductUnique(p, plain, blocked);
    ProductUnique(p, plain, m8b);
  }
}
