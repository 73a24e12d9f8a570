/** The upstream IME2 kernels: 4-bit matrix-unit dots on nibble-split activations
    and unsigned weight codes, corrected by eight times the stored negated
    activation sum; and the wrapper that walks rows and columns. */
module UpstreamIme2 {
  import opened BitArithmetic
  import opened Floats
  import opened Quantized
  import opened VectorUnit

  // ---------- Packing ----------

  /** Unsigned code of K index `k`. */
  function Code(w: Q4, k: nat): (c: int)
    requires k < 32
    ensures 0 <= c < 16
  {
    var b: int := if k < 16 then w.qs[k] else w.qs[k - 16];
    if k < 16 then b % 16 else b / 16
  }

  lemma CodeIsWeight(w: Q4, k: nat)
    requires k < 32
    ensures Weights(w)[k] == Code(w, k) - 8
  {}

  /** Byte `b` of a packed column carries K = 2b in its low nibble and K = 2b + 1
      in its high one. */
  ghost predicate PairAt(target: seq<Byte>, w: Q4, b: nat)
    requires b < 16
  {
    |target| == 16 && target[b] % 16 == Code(w, 2 * b) && target[b] / 16 == Code(w, 2 * b + 1)
  }

  ghost predicate Paired(target: seq<Byte>, w: Q4) {
    |target| == 16 && forall b: nat :: b < 16 ==> PairAt(target, w, b)
  }

  function Join(low: int, high: int): (b: Byte)
    requires 0 <= low < 16 && 0 <= high < 16
    ensures b % 16 == low && b / 16 == high
  {
    low + 16 * high
  }

  /** One column of `pack_weight_block`. */
  method PackColumn(w: Q4) returns (packed: seq<Byte>)
    ensures Paired(packed, w)
  {
    var target := new Byte[16];
    for pair := 0 to 8
      invariant forall b: nat :: b < 16 && (b < pair || 8 <= b < 8 + pair) ==> PairAt(target[..], w, b)
    {
      ghost var before := target[..];
      var x: int, y: int := w.qs[2 * pair], w.qs[2 * pair + 1];
      target[pair] := Join(x % 16, y % 16);
      target[8 + pair] := Join(x / 16, y / 16);
      PairWritten(before, target[..], w, pair);
    }
    packed := target[..];
  }

  lemma PairWritten(before: seq<Byte>, after: seq<Byte>, w: Q4, pair: nat)
    requires pair < 8 && |before| == |after| == 16
    requires forall b: nat :: b < 16 && (b < pair || 8 <= b < 8 + pair) ==> PairAt(before, w, b)
    requires PairAt(after, w, pair) && PairAt(after, w, 8 + pair)
    requires forall b: nat :: b < 16 && b != pair && b != 8 + pair ==> after[b] == before[b]
    ensures forall b: nat :: b < 16 && (b < pair + 1 || 8 <= b < 8 + pair + 1) ==> PairAt(after, w, b)
  {
    forall b: nat | b < 16 && (b < pair + 1 || 8 <= b < 8 + pair + 1) ensures PairAt(after, w, b) {
      if b != pair && b != 8 + pair { assert PairAt(before, w, b); }
    }
  }

  function Total(x: seq<int>): int {
    if x == [] then 0 else Total(x[..|x| - 1]) + x[|x| - 1]
  }

  lemma {:induction false} TotalBound(x: seq<Int8>)
    ensures -128 * |x| <= Total(x) <= 128 * |x|
  {
    if x != [] { TotalBound(x[..|x| - 1]); }
  }

  /** The 16-bit activation sum never wraps, so what is stored is its negation. */
  method NegatedSum(qs: seq<Int8>) returns (stored: int)
    requires |qs| == 32
    ensures stored == -Total(qs)
  {
    var sum := 0;
    for k := 0 to 32
      invariant sum == Total(qs[..k])
    {
      assert qs[..k + 1][..k] == qs[..k];
      TotalBound(qs[..k + 1]);
      sum := Wrap16(sum + qs[k]);
    }
    assert qs[..32] == qs;
    TotalBound(qs);
    stored := Wrap16(-sum);
  }

  // ---------- The integer arithmetic of one block ----------

  /** A signed byte is sixteen times its arithmetic high nibble plus its low one. */
  function HighPart(a: int): int { a / 16 }
  function LowPart(a: int): int { a % 16 }

  function Codes(w: Q4): (r: seq<int>)
    ensures |r| == 32
  {
    seq(32, k requires 0 <= k < 32 => Code(w, k))
  }

  function Highs(a: seq<Int8>): (r: seq<int>)
    ensures |r| == |a|
  {
    seq(|a|, k requires 0 <= k < |a| => HighPart(a[k]))
  }

  function Lows(a: seq<Int8>): (r: seq<int>)
    ensures |r| == |a|
  {
    seq(|a|, k requires 0 <= k < |a| => LowPart(a[k]))
  }

  lemma {:induction false} NibbleSplit(x: seq<int>, high: seq<int>, low: seq<int>, y: seq<int>)
    requires |x| == |high| == |low| == |y| && forall k :: 0 <= k < |x| ==> x[k] == 16 * high[k] + low[k]
    ensures Dot(x, y) == 16 * Dot(high, y) + Dot(low, y)
  {
    if x != [] {
      var n := |x| - 1;
      NibbleSplit(x[..n], high[..n], low[..n], y[..n]);
      Distribute(x[n], high[n], low[n], y[n]);
    }
  }

  lemma Distribute(x: int, h: int, l: int, y: int)
    requires x == 16 * h + l
    ensures x * y == 16 * (h * y) + l * y
  {}

  lemma {:induction false} ZeroPoint(x: seq<int>, codes: seq<int>, weights: seq<int>)
    requires |x| == |codes| == |weights| && forall k :: 0 <= k < |x| ==> weights[k] == codes[k] - 8
    ensures Dot(x, weights) == Dot(x, codes) - 8 * Total(x)
  {
    if x != [] {
      var n := |x| - 1;
      ZeroPoint(x[..n], codes[..n], weights[..n]);
      assert x[n] * weights[n] == x[n] * codes[n] - 8 * x[n];
    }
  }

  /** High-nibble dots shifted left by four, plus low-nibble dots, plus eight times
      the negated sum: the reference integer sum. */
  lemma SplitIsBlockDot(a: Q8, w: Q4)
    ensures 16 * Dot(Highs(a.qs), Codes(w)) + Dot(Lows(a.qs), Codes(w)) + 8 * -Total(a.qs) == BlockDot(w, a)
  {
    forall k: nat | k < 32 ensures Weights(w)[k] == Codes(w)[k] - 8 { CodeIsWeight(w, k); }
    NibbleSplit(a.qs, Highs(a.qs), Lows(a.qs), Codes(w));
    ZeroPoint(a.qs, Codes(w), Weights(w));
  }

  /** The 4-bit dots of the M4 and M1 kernels on packed bytes. */
  function MadotPairs(x: seq<int>, packed: seq<Byte>): int
    requires |x| == 2 * |packed|
  {
    if packed == [] then 0
    else
      var n := |packed| - 1;
      var b: int := packed[n];
      MadotPairs(x[..2 * n], packed[..n]) + (x[2 * n] * (b % 16) + x[2 * n + 1] * (b / 16))
  }

  lemma {:induction false} PairsAreCodes(x: seq<int>, packed: seq<Byte>, codes: seq<int>)
    requires |x| == 2 * |packed| == |codes|
    requires forall b :: 0 <= b < |packed| ==> packed[b] % 16 == codes[2 * b] && packed[b] / 16 == codes[2 * b + 1]
    ensures MadotPairs(x, packed) == Dot(x, codes)
  {
    if packed != [] {
      var n := |packed| - 1;
      PairsAreCodes(x[..2 * n], packed[..n], codes[..2 * n]);
      var y, d := x[..2 * n + 1], codes[..2 * n + 1];
      assert y[..2 * n] == x[..2 * n] && d[..2 * n] == codes[..2 * n];
      assert Dot(y, d) == Dot(x[..2 * n], codes[..2 * n]) + x[2 * n] * codes[2 * n];
      assert x[..|x| - 1] == y && codes[..|codes| - 1] == d;
    }
  }

  /** One element's block sum as the vector kernels compute it. */
  method BlockSum(quants: seq<Int8>, stored: int, packed: seq<Byte>, ghost a: Q8, ghost w: Q4) returns (acc: int)
    requires quants == a.qs && stored == -Total(a.qs) && Paired(packed, w)
    ensures acc == BlockDot(w, a)
  {
    forall b: nat | b < 16
      ensures packed[b] % 16 == Codes(w)[2 * b] && packed[b] / 16 == Codes(w)[2 * b + 1]
    {
      assert PairAt(packed, w, b);
    }
    var highs, lows := Highs(quants), Lows(quants);
    PairsAreCodes(highs, packed, Codes(w));
    PairsAreCodes(lows, packed, Codes(w));
    SplitIsBlockDot(a, w);
    acc := MadotPairs(highs, packed);
    acc := acc * 16;
    acc := acc + MadotPairs(lows, packed);
    acc := acc + 8 * stored;
  }

  /** `gemm_kernel_i8i4_mrow_ref`'s loop over the bytes of a column. */
  method BlockSumRef(quants: seq<Int8>, stored: int, packed: seq<Byte>, ghost a: Q8, ghost w: Q4) returns (acc: int)
    requires quants == a.qs && stored == -Total(a.qs) && Paired(packed, w)
    ensures acc == BlockDot(w, a)
  {
    acc := stored * 8;
    for bi := 0 to 16
      invariant acc == stored * 8 + MadotPairs(quants[..2 * bi], packed[..bi])
    {
      var b: int := packed[bi];
      assert quants[..2 * bi + 2][..2 * bi] == quants[..2 * bi] && packed[..bi + 1][..bi] == packed[..bi];
      acc := acc + (quants[2 * bi] * (b % 16) + quants[2 * bi + 1] * (b / 16));
    }
    assert quants[..32] == quants && packed[..16] == packed;
    forall b: nat | b < 16
      ensures packed[b] % 16 == Codes(w)[2 * b] && packed[b] / 16 == Codes(w)[2 * b + 1]
    {
      assert PairAt(packed, w, b);
    }
    PairsAreCodes(quants, packed, Codes(w));
    forall k: nat | k < 32 ensures Weights(w)[k] == Codes(w)[k] - 8 { CodeIsWeight(w, k); }
    ZeroPoint(a.qs, Codes(w), Weights(w));
  }
}
