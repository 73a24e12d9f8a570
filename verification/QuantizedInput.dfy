/** Float activations quantized as the adapters do, and the results of the
    pipelines that depend on the quantizer's range, started from floats. */
module QuantizedInput {
  import opened BitArithmetic
  import opened Quantized
  import opened Quantizers
  import opened Gemm
  import Floats
  import Rvv = RvvAdapter
  import Kernel = RvvKernel
  import Iq2 = Iq2Block
  import Safety = Iq2Safety
  import I = Iq2Gemm

  // ---------- Q8_0 ----------

  /** Block `b` of float row `i` is recovered by its quantized block. */
  ghost predicate Recovers(input: seq<real>, act: seq<Q8>, k: nat, i: nat, b: nat) {
    && i * (32 * k) + 32 * k <= |input| && b < k && i * k + b < |act|
    && FaithfulQ8(Block(Row(input, 32 * k, i), b), act[i * k + b])
  }

  ghost predicate AllInRange(act: seq<Q8>) {
    forall x :: 0 <= x < |act| ==> InRange(act[x])
  }

  lemma RecoversMore(input: seq<real>, act: seq<Q8>, row: seq<Q8>, k: nat, i: nat, b: nat)
    requires Recovers(input, act, k, i, b)
    ensures Recovers(input, act + row, k, i, b)
  {}

  lemma RowRecovers(input: seq<real>, act: seq<Q8>, row: seq<Q8>, k: nat, i: nat, b: nat)
    requires i * (32 * k) + 32 * k <= |input| && b < k && |act| == i * k && |row| == k
    requires FaithfulQ8(Block(Row(input, 32 * k, i), b), row[b])
    ensures Recovers(input, act + row, k, i, b)
  {}

  /** The adapters' quantization loop: one row after the other. */
  method QuantizeActivations(input: seq<real>, m: nat, k: nat) returns (act: seq<Q8>)
    requires |input| == m * (32 * k)
    ensures |act| == m * k && AllInRange(act)
    ensures forall i: nat, b: nat :: i < m && b < k ==> Recovers(input, act, k, i, b)
  {
    act := [];
    for i := 0 to m
      invariant |act| == i * k && AllInRange(act)
      invariant forall u: nat, b: nat :: u < i && b < k ==> Recovers(input, act, k, u, b)
    {
      act := QuantizeNextRow(input, act, m, k, i);
    }
  }

  method QuantizeNextRow(input: seq<real>, act: seq<Q8>, m: nat, k: nat, i: nat) returns (next: seq<Q8>)
    requires |input| == m * (32 * k) && i < m && |act| == i * k && AllInRange(act)
    requires forall u: nat, b: nat :: u < i && b < k ==> Recovers(input, act, k, u, b)
    ensures |next| == (i + 1) * k && AllInRange(next)
    ensures forall u: nat, b: nat :: u < i + 1 && b < k ==> Recovers(input, next, k, u, b)
  {
    MulStep(32 * k, i, m);
    var row := QuantizeRowQ80(Row(input, 32 * k, i));
    next := act + row;
    forall b | 0 <= b < k ensures InRange(row[b]) { FaithfulInRange(Block(Row(input, 32 * k, i), b), row[b]); }
    forall u: nat, b: nat | u < i + 1 && b < k ensures Recovers(input, next, k, u, b) {
      if u < i { RecoversMore(input, act, row, k, u, b); } else { RowRecovers(input, act, row, k, i, b); }
    }
  }

  /** The RVV pipelines from floats: no assumption on the activations is left. */
  method RvvFromFloats(input: seq<real>, wt: seq<Q4>, m: nat, n: nat, k: nat, mr: Kernel.Rows, tilesM: nat, tilesN: nat,
                       iterations: nat) returns (p: Problem, output: array<Floats.Flt>)
    requires |input| == m * (32 * k) && |wt| == n * k && m == tilesM * mr && n == tilesN * 32 && iterations >= 1
    ensures p.m == m && p.n == n && p.k == k && p.wt == wt && Valid(p) && output.Length == m * n
    ensures forall i: nat, b: nat :: i < m && b < k ==> Recovers(input, p.act, k, i, b)
    ensures forall i: nat, j: nat :: i < m && j < n ==> Matches(p, output[..], i, j)
  {
    var act := QuantizeActivations(input, m, k);
    p := Problem(m, n, k, act, wt);
    output := Rvv.Multiply(p, mr, tilesM, tilesN, iterations);
  }

  // ---------- Q8_K ----------

  /** The scale is the block's largest magnitude over 127 and every code the
      rounded quotient. */
  ghost predicate CodesFor(input: seq<real>, a: Iq2.Q8K)
    requires |input| == 256
  {
    Iq2.Codes(a) && CodesOf(input, a.d, a.qs)
  }

  ghost predicate RecoversK(input: seq<real>, act: seq<Iq2.Q8K>, x: nat) {
    x < |act| && 256 * x + 256 <= |input| && CodesFor(input[256 * x..256 * x + 256], act[x])
  }

  /** `quantize_row_q8_K`, one block, without the group sums no kernel here reads. */
  method QuantizeQ8KBlock(input: seq<real>) returns (a: Iq2.Q8K)
    requires |input| == 256
    ensures CodesFor(input, a)
  {
    var scale, qs := QuantizeCodes(input);
    forall i | 0 <= i < 256 ensures -127 <= qs[i] <= 127 { assert GoodCode(input[i], qs[i], scale); }
    a := Iq2.Q8K(scale, qs);
  }

  method QuantizeQ8K(input: seq<real>, blocks: nat) returns (act: seq<Iq2.Q8K>)
    requires |input| == 256 * blocks
    ensures |act| == blocks && forall x: nat :: x < blocks ==> RecoversK(input, act, x)
  {
    act := [];
    for b := 0 to blocks
      invariant |act| == b && forall x: nat :: x < b ==> RecoversK(input, act, x)
    {
      var a := QuantizeQ8KBlock(input[256 * b..256 * b + 256]);
      ghost var before := act;
      act := act + [a];
      forall x: nat | x < b + 1 ensures RecoversK(input, act, x) { if x < b { assert RecoversK(input, before, x); } }
    }
  }

  /** Both IQ2 kernels from floats: they agree with each other, and with the
      reference in every column whose packed weights are safe. */
  method Iq2FromFloats(input: seq<real>, wt: seq<Iq2.PackedBlock>, grid: seq<seq<int>>, m: nat, n: nat, k: nat,
                       tilesM: nat, tilesN: nat) returns (p: I.Problem, br: array<real>, ir: array<real>)
    requires |input| == 256 * (m * k) && |wt| == n * k && m == 12 * tilesM && n == 32 * tilesN && k > 0
    requires Iq2.IsGrid(grid) && forall x :: 0 <= x < |wt| ==> Iq2.IsPacked(wt[x])
    ensures I.Valid(p) && p.m == m && p.n == n && p.k == k && p.wt == wt && p.grid == grid
    ensures |p.act| == m * k && forall x: nat :: x < m * k ==> RecoversK(input, p.act, x)
    ensures br[..] == ir[..] && br.Length == m * n
    ensures forall i: nat, j: nat :: i < m && j < n && Safety.SafeColumn(grid, I.PackedColumn(p, j)) ==>
              I.IsReference(p, br[..], i, j)
  {
    var act := QuantizeQ8K(input, m * k);
    forall x | 0 <= x < m * k ensures Iq2.Codes(act[x]) { assert RecoversK(input, act, x); }
    p := I.Problem(m, n, k, act, wt, grid);
    br, ir := I.Compare(p, tilesM, tilesN);
  }
}
