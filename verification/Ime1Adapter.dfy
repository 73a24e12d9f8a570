/** The unblocked IME1 m8b adapter: M-major packed activations, and for every
    output tile a zeroed local tile, the kernel over all of K, and a copy. */
module Ime1Adapter {
  import opened BitArithmetic
  import opened Floats
  import opened Quantized
  import opened Reduction
  import opened Gemm
  import opened PanelLayout
  import opened Ime1Kernel
  import opened Ime1Batch
  import opened Ime1Tiles
  import opened Ime1Pack
  import opened CacheBlocking

  ghost predicate MajorReady(p: Problem, packed: seq<ABlock>, tm: nat, b: nat)
    requires Valid(p)
  {
    && b < p.k && 8 * tm + 8 <= p.m && tm * p.k + b < |packed|
    && APacked(packed[tm * p.k + b], TileRows(p, tm, b))
  }

  /** The blocks before place `place` hold their rows. */
  ghost predicate MajorTo(p: Problem, tilesM: nat, packed: seq<ABlock>, place: nat)
    requires Valid(p)
  {
    forall t: nat, b: nat :: t < tilesM && b < p.k && t * p.k + b < place ==> MajorReady(p, packed, t, b)
  }

  lemma MajorNext(p: Problem, tilesM: nat, before: seq<ABlock>, block: nat, packed: ABlock, tile: nat, b: nat)
    requires Valid(p) && block < |before| && b < p.k && block == tile * p.k + b && 8 * tile + 8 <= p.m
    requires MajorTo(p, tilesM, before, block) && APacked(packed, TileRows(p, tile, b))
    ensures MajorTo(p, tilesM, before[block := packed], block + 1)
  {
    var after := before[block := packed];
    forall t: nat, c: nat | t < tilesM && c < p.k && t * p.k + c < block + 1 ensures MajorReady(p, after, t, c) {
      if (t, c) != (tile, b) {
        CellOrder(p.k, t, c, tile, b);
        assert MajorReady(p, before, t, c);
      }
    }
  }

  class M8State {
    const p: Problem
    const tilesM: nat
    const tilesN: nat
    const packedA: array<ABlock>
    const packedB: array<BBlock>
    const output: array<Flt>

    ghost predicate Shape() {
      && Accepted(p, tilesM, tilesN) && packedA.Length == tilesM * p.k && packedB.Length == tilesN * p.k
         && output.Length == p.m * p.n
    }

    ghost predicate Prepared()
      reads packedA, packedB
    {
      && Shape()
      && (forall t: nat, b: nat :: t < tilesM && b < p.k ==> MajorReady(p, packedA[..], t, b))
      && (forall t: nat, b: nat :: t < tilesN && b < p.k ==> BReady(p, packedB[..], t, b))
    }

    /** `prepare`, for weights already packed by `initialize_q4_0_ime`. */
    constructor (problem: Problem, tm: nat, tn: nat, weights: array<BBlock>)
      requires Accepted(problem, tm, tn) && weights.Length == tn * problem.k
      requires forall t: nat, b: nat :: t < tn && b < problem.k ==> BReady(problem, weights[..], t, b)
      ensures p == problem && tilesM == tm && tilesN == tn && packedB == weights && Prepared() && fresh(packedA)
              && fresh(output)
    {
      p, tilesM, tilesN, packedB := problem, tm, tn, weights;
      packedA := new ABlock[tm * problem.k](_ => ABlock([], []));
      output := new Flt[problem.m * problem.n](_ => ZERO);
      new;
      PackActivations();
    }

    method PackActivations()
      requires Shape()
      modifies packedA
      ensures forall t: nat, b: nat :: t < tilesM && b < p.k ==> MajorReady(p, packedA[..], t, b)
    {
      for block := 0 to packedA.Length
        invariant MajorTo(p, tilesM, packedA[..], block)
      {
        PackBlock(block);
      }
      forall t: nat, b: nat | t < tilesM && b < p.k
        ensures MajorReady(p, packedA[..], t, b)
      {
        CellBound(tilesM, p.k, t, b);
      }
    }

    /** One staged block, its chunks reordered. */
    method PackBlock(block: nat)
      requires Shape() && block < packedA.Length && MajorTo(p, tilesM, packedA[..], block)
      modifies packedA
      ensures MajorTo(p, tilesM, packedA[..], block + 1)
    {
      var tile, b := block / p.k, block % p.k;
      PlaceIs(block, p.k, tilesM);
      MulStep(8, tile, tilesM);
      var packed := PackA(TileRows(p, tile, b));
      ghost var before := packedA[..];
      packedA[block] := packed;
      MajorNext(p, tilesM, before, block, packed, tile, b);
    }

    /** One output tile. */
    method ComputeTile(tm: nat, tn: nat)
      requires Prepared() && tm < tilesM && tn < tilesN
      modifies output
      ensures forall um: nat, un: nat :: old(TileDone(p, output[..], 8, 16, um, un)) ==>
                TileDone(p, output[..], 8, 16, um, un)
      ensures TileDone(p, output[..], 8, 16, tm, tn)
    {
      var aBlock, bBlock := tm * p.k, tn * p.k;
      MajorCallReady(p, tilesM, tilesN, packedA[..], packedB[..], tm, tn, aBlock, bBlock);
      var tile := KernelTile(packedA[..][aBlock..aBlock + p.k], packedB[..][bBlock..bBlock + p.k], tm, tn);
      ghost var before := output[..];
      MulStep(8, tm, tilesM);
      MulStep(16, tn, tilesN);
      MulOrder(tm * 8 + 8, p.m, p.n);
      StoreTile(output, p.n, tm * 8, 8, tn * 16, 16, tile);
      TileStored(p, before, output[..], 8, 16, tm, tn, tile);
    }

    method KernelTile(a: seq<ABlock>, b: seq<BBlock>, ghost tm: nat, ghost tn: nat) returns (tile: seq<Flt>)
      requires Valid(p) && 8 * tm + 8 <= p.m && 16 * tn + 16 <= p.n
      requires Sized(PanelSource(p, tm, tn, 0, p.k), p.k) && Operands(a, b, PanelSource(p, tm, tn, 0, p.k), p.k)
      requires Describes(PanelTable(p, tm, tn, 0, p.k), PanelSource(p, tm, tn, 0, p.k), p.k)
      ensures IsTile(p, tile, 8, 16, tm, tn)
    {
      var acc := new Flt[128](_ => ZERO);
      ghost var zero := acc[..];
      ZeroTile(p, zero, tm, tn);
      assert acc[0..128] == zero;
      TileKernel(a, b, acc, 0, p.k, PanelSource(p, tm, tn, 0, p.k), PanelTable(p, tm, tn, 0, p.k));
      tile := acc[..];
      assert acc[0..128] == tile;
      TileSumStep(p, zero, tile, tm, tn, 0, p.k);
      CompleteTile(p, tile, tm, tn);
    }

    /** One row of tiles, and the parallel loop over the rows, taken in any order. */
    method ComputeRowTile(tm: nat)
      requires Prepared() && tm < tilesM
      modifies output
      ensures forall um: nat, un: nat :: old(TileDone(p, output[..], 8, 16, um, un)) ==>
                TileDone(p, output[..], 8, 16, um, un)
      ensures forall tn :: 0 <= tn < tilesN ==> TileDone(p, output[..], 8, 16, tm, tn)
    {
      for tn := 0 to tilesN
        invariant forall um: nat, un: nat :: old(TileDone(p, output[..], 8, 16, um, un)) ==>
                    TileDone(p, output[..], 8, 16, um, un)
        invariant forall un :: 0 <= un < tn ==> TileDone(p, output[..], 8, 16, tm, un)
      {
        ComputeTile(tm, tn);
      }
    }

    method RunOnce(order: seq<nat>)
      requires Prepared() && Schedule(order, tilesM)
      modifies output
      ensures IsProduct(p, output[..])
    {
      for k := 0 to |order|
        invariant forall l, tn :: 0 <= l < k && 0 <= tn < tilesN ==> TileDone(p, output[..], 8, 16, order[l], tn)
      {
        ComputeRowTile(order[k]);
      }
      forall tm, tn | 0 <= tm < tilesM && 0 <= tn < tilesN
        ensures TileDone(p, output[..], 8, 16, tm, tn)
      {
        assert tm in order;
      }
      AllTilesDone(p, output[..], 8, 16, tilesM, tilesN);
    }
  }

  lemma PlaceIs(block: nat, k: nat, tilesM: nat)
    requires k > 0 && block < tilesM * k
    ensures block / k < tilesM && block % k < k && block == block / k * k + block % k
  {
    var q, r := DivMod(block, k, tilesM);
    ModUnique(block, k, q, r);
  }

  lemma MajorCallReady(p: Problem, tilesM: nat, tilesN: nat, packedA: seq<ABlock>, packedB: seq<BBlock>, tm: nat,
                       tn: nat, ta: nat, tb: nat)
    requires Accepted(p, tilesM, tilesN) && tm < tilesM && tn < tilesN && ta == tm * p.k && tb == tn * p.k
    requires forall t: nat, b: nat :: t < tilesM && b < p.k ==> MajorReady(p, packedA, t, b)
    requires forall t: nat, b: nat :: t < tilesN && b < p.k ==> BReady(p, packedB, t, b)
    ensures ta + p.k <= |packedA| && tb + p.k <= |packedB| && 8 * tm + 8 <= p.m && 16 * tn + 16 <= p.n
    ensures Sized(PanelSource(p, tm, tn, 0, p.k), p.k)
            && Operands(packedA[ta..ta + p.k], packedB[tb..tb + p.k], PanelSource(p, tm, tn, 0, p.k), p.k)
    ensures Describes(PanelTable(p, tm, tn, 0, p.k), PanelSource(p, tm, tn, 0, p.k), p.k)
  {
    MulStep(8, tm, tilesM);
    MulStep(16, tn, tilesN);
    PanelB(p, packedB, tilesN, tn, 0, p.k, tb);
    var last := p.k - 1;
    assert MajorReady(p, packedA, tm, last);
    var a := packedA[ta..ta + p.k];
    forall i: nat | i < p.k ensures AWindowAt(p, a, tm, 0, i) { assert MajorReady(p, packedA, tm, i); }
    WindowOperands(p, a, packedB[tb..tb + p.k], tm, tn, 0, p.k);
    PanelDescribed(p, tm, tn, 0, p.k);
  }

  /** Cache blocking does not change the arithmetic: for any shape, both blocked
      kernels and the unblocked one, on the same problem, store the same floats. */
  method CompareKernels(p: Problem, tilesM: nat, tilesN: nat, v: Variant, iterations: nat,
                        orders: (nat, nat, nat) -> seq<nat>, order: seq<nat>)
    returns (blocked: seq<Flt>, plain: seq<Flt>)
    requires Accepted(p, tilesM, tilesN) && iterations >= 1 && Schedule(order, tilesM)
             && forall i, x, y :: Schedule(orders(i, x, y), tilesN)
    ensures blocked == plain && IsProduct(p, plain)
  {
    var state := new CacheBlockedState(p, tilesM, tilesN, v);
    var unblocked := new M8State(p, tilesM, tilesN, state.packedB);
    unblocked.RunOnce(order);
    state.Run(iterations, orders);
    blocked, plain := state.output[..], unblocked.output[..];
    ProductUnique(p, blocked, plain);
  }
}
