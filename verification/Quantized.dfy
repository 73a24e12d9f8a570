/** Quantized blocks and the reference dot product, the specification every
    Q4_0 x Q8_0 kernel is compared with. */
module Quantized {
  import opened Floats

  type Byte = x: int | 0 <= x < 256
  type Int8 = x: int | -128 <= x < 128

  datatype Q4Block = Q4Block(d: real, qs: seq<Byte>)
  datatype Q8Block = Q8Block(d: real, qs: seq<Int8>)
  type Q4 = b: Q4Block | |b.qs| == 16 witness Q4Block(0.0, seq(16, i => 0))
  type Q8 = b: Q8Block | |b.qs| == 32 witness Q8Block(0.0, seq(32, i => 0))

  /** `(byte & 15) - 8` and `(byte >> 4) - 8`. */
  function LowNibble(b: int): int { b % 16 - 8 }
  function HighNibble(b: int): int { b / 16 - 8 }

  function Low(bytes: seq<Byte>): (r: seq<int>)
    ensures |r| == |bytes| && forall i :: 0 <= i < |r| ==> r[i] == LowNibble(bytes[i])
  {
    seq(|bytes|, i requires 0 <= i < |bytes| => LowNibble(bytes[i]))
  }

  function High(bytes: seq<Byte>): (r: seq<int>)
    ensures |r| == |bytes| && forall i :: 0 <= i < |r| ==> r[i] == HighNibble(bytes[i])
  {
    seq(|bytes|, i requires 0 <= i < |bytes| => HighNibble(bytes[i]))
  }

  /** The 32 weights of a block in K order. */
  function Weights(w: Q4): (r: seq<int>)
    ensures |r| == 32
  {
    Low(w.qs) + High(w.qs)
  }

  function Dot(x: seq<int>, y: seq<int>): int
    requires |x| == |y|
  {
    if x == [] then 0 else Dot(x[..|x| - 1], y[..|y| - 1]) + x[|x| - 1] * y[|y| - 1]
  }

  lemma {:induction false} DotConcat(x: seq<int>, y: seq<int>, u: seq<int>, v: seq<int>)
    requires |x| == |y| && |u| == |v|
    ensures Dot(x + u, y + v) == Dot(x, y) + Dot(u, v)
    decreases |u|
  {
    if u == [] {
      assert x + u == x && y + v == y;
    } else {
      DotConcat(x, y, u[..|u| - 1], v[..|v| - 1]);
      assert (x + u)[..|x + u| - 1] == x + u[..|u| - 1];
      assert (y + v)[..|y + v| - 1] == y + v[..|v| - 1];
    }
  }

  lemma DotSplit(x: seq<int>, y: seq<int>, n: nat)
    requires |x| == |y| && n <= |x|
    ensures Dot(x, y) == Dot(x[..n], y[..n]) + Dot(x[n..], y[n..])
  {
    DotConcat(x[..n], y[..n], x[n..], y[n..]);
    assert x == x[..n] + x[n..] && y == y[..n] + y[n..];
  }

  /** Activations of magnitude at most 128 and weights of at most 8. */
  lemma {:induction false} DotBound(x: seq<int>, y: seq<int>)
    requires |x| == |y|
    requires forall i :: 0 <= i < |x| ==> -128 <= x[i] <= 128
    requires forall i :: 0 <= i < |y| ==> -8 <= y[i] <= 8
    ensures -1024 * |x| <= Dot(x, y) <= 1024 * |x|
  {
    if x != [] {
      DotBound(x[..|x| - 1], y[..|y| - 1]);
      ProductBound(x[|x| - 1], y[|y| - 1]);
    }
  }

  lemma ProductBound(a: int, w: int)
    requires -128 <= a <= 128 && -8 <= w <= 8
    ensures -1024 <= a * w <= 1024
  {
    if a >= 0 { ProductUpTo(a, w); } else { ProductUpTo(-a, w); }
  }

  lemma ProductUpTo(a: nat, w: int)
    requires -8 <= w <= 8
    ensures -8 * a <= a * w <= 8 * a
  {
    assert 0 <= a * (8 - w) && a * (8 - w) == 8 * a - a * w;
    assert 0 <= a * (8 + w) && a * (8 + w) == 8 * a + a * w;
  }

  function BlockDot(w: Q4, a: Q8): int {
    Dot(a.qs, Weights(w))
  }

  /** The contribution of one block, and those of a whole row and column. */
  function BlockTerm(w: Q4, a: Q8): Term {
    Term(BlockDot(w, a), w.d, a.d)
  }

  function RowTerms(w: seq<Q4>, a: seq<Q8>): (r: seq<Term>)
    requires |w| == |a|
    ensures |r| == |w| && forall b :: 0 <= b < |r| ==> r[b] == BlockTerm(w[b], a[b])
  {
    seq(|w|, b requires 0 <= b < |w| => BlockTerm(w[b], a[b]))
  }

  /** The reference dot product over the reals. */
  function Reference(w: seq<Q4>, a: seq<Q8>): real
    requires |w| == |a|
  {
    Sum(RowTerms(w, a))
  }

  /** `dot_q4_0_q8_0`: the integer sum takes both nibbles of a byte at a time. */
  method DotQ40Q80(weight: seq<Q4>, activation: seq<Q8>) returns (sum: real)
    requires |weight| == |activation|
    ensures sum == Reference(weight, activation)
  {
    sum := 0.0;
    ghost var terms := RowTerms(weight, activation);
    var block := 0;
    while block < |weight|
      invariant block <= |weight|
      invariant sum == Sum(terms[..block])
    {
      var integerSum := IntegerSum(weight[block], activation[block]);
      sum := sum + integerSum as real * weight[block].d * activation[block].d;
      assert terms[..block + 1][..block] == terms[..block];
      block := block + 1;
    }
    assert terms[..block] == terms;
  }

  lemma DotNext(x: seq<int>, y: seq<int>, n: nat)
    requires |x| == |y| && n < |x|
    ensures Dot(x[..n + 1], y[..n + 1]) == Dot(x[..n], y[..n]) + x[n] * y[n]
  {
    assert x[..n + 1][..n] == x[..n] && y[..n + 1][..n] == y[..n];
  }

  /** The part of a block's dot product done after `i` bytes. */
  function PartialDot(w: Q4, a: Q8, i: nat): int
    requires i <= 16
  {
    Dot(a.qs[..16][..i], Low(w.qs)[..i]) + Dot(a.qs[16..][..i], High(w.qs)[..i])
  }

  lemma PartialDotNext(w: Q4, a: Q8, i: nat)
    requires i < 16
    ensures PartialDot(w, a, i + 1) ==
            PartialDot(w, a, i) + LowNibble(w.qs[i]) * a.qs[i] + HighNibble(w.qs[i]) * a.qs[i + 16]
  {
    LowNext(w, a, i);
    HighNext(w, a, i);
  }

  lemma LowNext(w: Q4, a: Q8, i: nat)
    requires i < 16
    ensures Dot(a.qs[..16][..i + 1], Low(w.qs)[..i + 1])
            == Dot(a.qs[..16][..i], Low(w.qs)[..i]) + LowNibble(w.qs[i]) * a.qs[i]
  {
    DotNext(a.qs[..16], Low(w.qs), i);
  }

  lemma HighNext(w: Q4, a: Q8, i: nat)
    requires i < 16
    ensures Dot(a.qs[16..][..i + 1], High(w.qs)[..i + 1])
            == Dot(a.qs[16..][..i], High(w.qs)[..i]) + HighNibble(w.qs[i]) * a.qs[i + 16]
  {
    DotNext(a.qs[16..], High(w.qs), i);
  }

  method IntegerSum(w: Q4, a: Q8) returns (sum: int)
    ensures sum == BlockDot(w, a)
  {
    sum := 0;
    var i := 0;
    while i < 16
      invariant 0 <= i <= 16
      invariant sum == PartialDot(w, a, i)
    {
      PartialDotNext(w, a, i);
      sum := sum + LowNibble(w.qs[i]) * a.qs[i];
      sum := sum + HighNibble(w.qs[i]) * a.qs[i + 16];
      i := i + 1;
    }
    BlockDotHalves(w, a);
    assert a.qs[..16][..16] == a.qs[..16] && a.qs[16..][..16] == a.qs[16..];
    assert Low(w.qs)[..16] == Low(w.qs) && High(w.qs)[..16] == High(w.qs);
  }

  /** The dot product of a block over its low and its high nibbles. */
  lemma BlockDotHalves(w: Q4, a: Q8)
    ensures BlockDot(w, a) == Dot(a.qs[..16], Low(w.qs)) + Dot(a.qs[16..], High(w.qs))
  {
    DotSplit(a.qs, Weights(w), 16);
    assert Weights(w)[..16] == Low(w.qs) && Weights(w)[16..] == High(w.qs);
  }
}
