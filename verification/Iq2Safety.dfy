/** Which IQ2_XXS weights the 16-bit subblock sums are safe for: one row of
    activations against one column of packed weights, over the reals. */
module Iq2Safety {
  import opened Quantized
  import opened Iq2Block

  ghost predicate IsRow(row: seq<Q8K>, blocks: nat) {
    |row| == blocks && forall b :: 0 <= b < blocks ==> Activation(row[b])
  }

  ghost predicate IsColumn(column: seq<W2>) {
    forall b :: 0 <= b < |column| ==> Weight(column[b])
  }

  function Scaled(sum: int, weightScale: real, activationScale: real): real {
    sum as real * (weightScale * activationScale)
  }

  /** What both kernels accumulate over the first `n` blocks. */
  ghost function KernelElement(row: seq<Q8K>, column: seq<W2>, n: nat): real
    requires IsRow(row, |column|) && IsColumn(column) && n <= |column|
  {
    if n == 0 then 0.0
    else KernelElement(row, column, n - 1)
         + Scaled(KernelBlock(row[n - 1], column[n - 1], 8), column[n - 1].d, row[n - 1].d)
  }

  /** The reference: `0.125 * d_w * d_a * sum` of every block. */
  ghost function ReferenceElement(row: seq<Q8K>, column: seq<W2>, n: nat): real
    requires IsRow(row, |column|) && IsColumn(column) && n <= |column|
  {
    if n == 0 then 0.0
    else ReferenceElement(row, column, n - 1)
         + 0.125 * Scaled(ExactBlock(row[n - 1], column[n - 1], 8), column[n - 1].d, row[n - 1].d)
  }

  /** What 16-bit wrapping takes from an element: each block's scaled carries. */
  ghost function Lost(row: seq<Q8K>, column: seq<W2>, n: nat): real
    requires IsRow(row, |column|) && IsColumn(column) && n <= |column|
  {
    if n == 0 then 0.0
    else Lost(row, column, n - 1) + LostIn(row[n - 1], column[n - 1])
  }

  ghost function LostIn(a: Q8K, w: W2): real
    requires Activation(a) && Weight(w)
  {
    Scaled(Carries(a, w, 8), w.d, a.d)
  }

  /** How far an element is from the reference, exactly. */
  lemma {:induction false} LostIsDifference(row: seq<Q8K>, column: seq<W2>, n: nat)
    requires IsRow(row, |column|) && IsColumn(column) && n <= |column|
    ensures ReferenceElement(row, column, n) == 0.125 * KernelElement(row, column, n) + 8192.0 * Lost(row, column, n)
  {
    if n > 0 {
      LostIsDifference(row, column, n - 1);
      var a, w := row[n - 1], column[n - 1];
      BlockDifference(a, w, 8);
      ScaledDifference(ExactBlock(a, w, 8), KernelBlock(a, w, 8), Carries(a, w, 8), w.d, a.d);
    }
  }

  lemma ScaledDifference(exact: int, kernel: int, carries: int, x: real, y: real)
    requires exact == kernel + 0x1_0000 * carries
    ensures Scaled(exact, x, y) == Scaled(kernel, x, y) + 65536.0 * Scaled(carries, x, y)
  {
    Distributed(kernel as real, carries as real, x * y);
  }

  lemma Distributed(x: real, y: real, z: real)
    ensures (x + 65536.0 * y) * z == x * z + 65536.0 * (y * z)
  {}

  // ---------- Safe weights ----------

  ghost predicate IsPackedColumn(column: seq<PackedBlock>) {
    forall b :: 0 <= b < |column| ==> IsPacked(column[b])
  }

  ghost function DecodeColumn(grid: seq<seq<int>>, column: seq<PackedBlock>): (r: seq<W2>)
    requires IsGrid(grid) && IsPackedColumn(column)
    ensures |r| == |column| && IsColumn(r)
  {
    seq(|column|, b requires 0 <= b < |column| => Decode(grid, column[b]))
  }

  /** A block is safe: its scale is zero, or in no subblock do the four grid
      entries' magnitudes total more than 258. */
  predicate Safe(grid: seq<seq<int>>, b: PackedBlock)
    requires IsPacked(b)
  {
    b.d == 0.0 || forall s: nat :: s < 8 ==> IndexTotal(grid, b.subblocks[s].indices) <= 258
  }

  ghost predicate SafeColumn(grid: seq<seq<int>>, column: seq<PackedBlock>)
    requires IsPackedColumn(column)
  {
    forall b :: 0 <= b < |column| ==> Safe(grid, column[b])
  }

  lemma SafeIsSmall(grid: seq<seq<int>>, b: PackedBlock)
    requires IsGrid(grid) && IsPacked(b)
    ensures Safe(grid, b) <==> b.d == 0.0 || Small(Decode(grid, b))
  {
    forall s: nat | s < 8 ensures SubMagnitude(Decode(grid, b), s) == IndexTotal(grid, b.subblocks[s].indices) {
      DecodedTotal(grid, b, s);
    }
  }

  // ---------- The reference ----------

  method SubblockSum(values: seq<int>, codes: seq<int>) returns (sum: int)
    requires |values| == |codes|
    ensures sum == Dot(codes, values)
  {
    sum := 0;
    for i := 0 to |values|
      invariant sum == Dot(codes[..i], values[..i])
    {
      DotNext(codes, values, i);
      sum := sum + values[i] * codes[i];
    }
    assert codes[..|codes|] == codes && values[..|values|] == values;
  }

  /** `dot_iq2_xxs_q8_K`: decodes, sums and scales one subblock after the other. */
  method DotIq2Q8K(grid: seq<seq<int>>, b: PackedBlock, a: Q8K) returns (r: real)
    requires IsGrid(grid) && IsPacked(b) && Activation(a)
    ensures r == 0.125 * Scaled(ExactBlock(a, Decode(grid, b), 8), b.d, a.d)
  {
    hide Decoded, ScaleOf, Fields, SignedLanes, Dot, Scaled;
    ghost var w := Decode(grid, b);
    var sum := 0;
    for s := 0 to 8
      invariant sum == ExactBlock(a, w, s)
    {
      var values, scale := DecodeSubblock(grid, b.subblocks[s]);
      DecodedPart(grid, b, s, values);
      var subblockSum := SubblockSum(values, a.qs[32 * s..32 * s + 32]);
      sum := sum + scale * subblockSum;
    }
    r := 0.125 * b.d * a.d * sum as real;
    ScaledIs(sum, b.d, a.d);
  }

  lemma ScaledIs(sum: int, x: real, y: real)
    ensures 0.125 * x * y * sum as real == 0.125 * Scaled(sum, x, y)
  {
    var s := sum as real;
    assert x * y * s == s * (x * y);
    assert 0.125 * x * y * s == 0.125 * (x * y * s);
  }

  /** One element of `compute_iq2_xxs`, block after block. */
  method ReferenceDot(grid: seq<seq<int>>, row: seq<Q8K>, column: seq<PackedBlock>) returns (sum: real)
    requires IsGrid(grid) && IsPackedColumn(column) && IsRow(row, |column|)
    ensures sum == ReferenceElement(row, DecodeColumn(grid, column), |column|)
  {
    hide Decode, ExactBlock, Scaled;
    sum := 0.0;
    for b := 0 to |column|
      invariant sum == ReferenceElement(row, DecodeColumn(grid, column), b)
    {
      var product := DotIq2Q8K(grid, column[b], row[b]);
      sum := sum + product;
    }
  }

  /** A row as the quantizer leaves it. */
  ghost predicate QuantizedRow(row: seq<Q8K>, blocks: nat) {
    |row| == blocks && forall b :: 0 <= b < blocks ==> Codes(row[b])
  }

  /** The element both kernels compute is the reference's. */
  ghost predicate Agrees(row: seq<Q8K>, column: seq<W2>)
    requires IsRow(row, |column|) && IsColumn(column)
  {
    0.125 * KernelElement(row, column, |column|) == ReferenceElement(row, column, |column|)
  }

  lemma SafeLosesNothing(grid: seq<seq<int>>, a: Q8K, b: PackedBlock)
    requires IsGrid(grid) && IsPacked(b) && Safe(grid, b) && Codes(a)
    ensures LostIn(a, Decode(grid, b)) == 0.0
  {
    SafeIsSmall(grid, b);
    if b.d != 0.0 {
      SmallWeightsFit(a, Decode(grid, b));
      FitsAgrees(a, Decode(grid, b), 8);
      BlockDifference(a, Decode(grid, b), 8);
    }
  }

  lemma {:induction false} NothingLost(grid: seq<seq<int>>, row: seq<Q8K>, column: seq<PackedBlock>, n: nat)
    requires IsGrid(grid) && IsPackedColumn(column) && SafeColumn(grid, column) && QuantizedRow(row, |column|)
             && n <= |column|
    ensures Lost(row, DecodeColumn(grid, column), n) == 0.0
  {
    hide Decode, LostIn, Codes, Safe;
    if n > 0 {
      NothingLost(grid, row, column, n - 1);
      SafeLosesNothing(grid, row[n - 1], column[n - 1]);
    }
  }

  lemma SafeAgrees(grid: seq<seq<int>>, row: seq<Q8K>, column: seq<PackedBlock>)
    requires IsGrid(grid) && IsPackedColumn(column) && SafeColumn(grid, column) && QuantizedRow(row, |column|)
    ensures Agrees(row, DecodeColumn(grid, column))
  {
    NothingLost(grid, row, column, |column|);
    LostIsDifference(row, DecodeColumn(grid, column), |column|);
  }

  /** Activations `a` in block `b`, zeros in every other. */
  function OneBlock(blocks: nat, b: nat, a: Q8K): (row: seq<Q8K>)
    ensures |row| == blocks
  {
    seq(blocks, x requires 0 <= x < blocks => if x == b then a else Q8K(0.0, seq(256, _ => 0)))
  }

  lemma {:induction false} OneLoss(column: seq<W2>, b: nat, a: Q8K, n: nat)
    requires IsColumn(column) && b < |column| && Activation(a) && IsRow(OneBlock(|column|, b, a), |column|)
             && n <= |column|
    ensures Lost(OneBlock(|column|, b, a), column, n) == if b < n then LostIn(a, column[b]) else 0.0
  {
    if n > 0 {
      OneLoss(column, b, a, n - 1);
      if n - 1 != b { ZeroScale(Carries(OneBlock(|column|, b, a)[n - 1], column[n - 1], 8), column[n - 1].d); }
    }
  }

  lemma ZeroScale(carries: int, x: real)
    ensures Scaled(carries, x, 0.0) == 0.0
  {}

  lemma UnitScale(carries: int, x: real)
    requires carries > 0 && x != 0.0
    ensures Scaled(carries, x, 1.0) != 0.0
  {}

  /** An unsafe block: some row of codes makes the kernels' element wrong. */
  lemma UnsafeDisagrees(grid: seq<seq<int>>, column: seq<PackedBlock>, b: nat) returns (row: seq<Q8K>)
    requires IsGrid(grid) && IsPackedColumn(column) && b < |column| && !Safe(grid, column[b])
    ensures QuantizedRow(row, |column|) && !Agrees(row, DecodeColumn(grid, column))
  {
    hide Carries, KernelElement, ReferenceElement;
    SafeIsSmall(grid, column[b]);
    var w := Decode(grid, column[b]);
    var s: nat :| s < 8 && SubMagnitude(w, s) > 258;
    row := OneBlock(|column|, b, Worst(w, s));
    WorstCarries(w, s);
    UnitScale(Carries(Worst(w, s), w, 8), w.d);
    OneLoss(DecodeColumn(grid, column), b, Worst(w, s), |column|);
    LostIsDifference(row, DecodeColumn(grid, column), |column|);
  }

  /** When a column of packed weights is safe: both kernels give the reference's
      element for every row of quantized activations exactly when every block with
      a scale has, in each subblock, grid entries of total magnitude 258 at most. */
  lemma AgreesExactlyWhenSafe(grid: seq<seq<int>>, column: seq<PackedBlock>)
    requires IsGrid(grid) && IsPackedColumn(column)
    ensures (forall row: seq<Q8K> :: QuantizedRow(row, |column|) ==> Agrees(row, DecodeColumn(grid, column)))
            <==> SafeColumn(grid, column)
  {
    if SafeColumn(grid, column) {
      forall row: seq<Q8K> | QuantizedRow(row, |column|) ensures Agrees(row, DecodeColumn(grid, column)) {
        SafeAgrees(grid, row, column);
      }
    } else {
      var b :| 0 <= b < |column| && !Safe(grid, column[b]);
      var row := UnsafeDisagrees(grid, column, b);
    }
  }
}
