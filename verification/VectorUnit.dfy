/** Vector registers as sequences of lanes, and the instructions the matrix-unit
    kernels use. `Vmadot1` and `Vmadot2` are the A60 and A100 forms of
    `smt.vmadot`; both operands are K-contiguous and the result is row-major. */
module VectorUnit {
  import opened Quantized

  /** A 32-bit two's complement lane. */
  function Wrap32(x: int): int {
    (x + 0x8000_0000) % 0x1_0000_0000 - 0x8000_0000
  }

  function Wrap16(x: int): (r: int)
    ensures -0x8000 <= r < 0x8000
  {
    (x + 0x8000) % 0x1_0000 - 0x8000
  }

  function Zeros(n: nat): (r: seq<int>)
    ensures |r| == n && forall i :: 0 <= i < n ==> r[i] == 0
  {
    seq(n, i => 0)
  }

  /** A(4x8) * B(8x4), added to a 4x4 accumulator. */
  function Vmadot1(acc: seq<int>, a: seq<int>, b: seq<int>): (r: seq<int>)
    requires |acc| == 16 && |a| == 32 && |b| == 32
    ensures |r| == 16
  {
    seq(16, l requires 0 <= l < 16 => Wrap32(acc[l] + Dot(a[l / 4 * 8..l / 4 * 8 + 8], b[l % 4 * 8..l % 4 * 8 + 8])))
  }

  /** A(8x16) * B(16x8), added to an 8x8 accumulator. */
  function Vmadot2(acc: seq<int>, a: seq<int>, b: seq<int>): (r: seq<int>)
    requires |acc| == 64 && |a| == 128 && |b| == 128
    ensures |r| == 64
  {
    seq(64, l requires 0 <= l < 64 => Wrap32(acc[l]
                                             + Dot(a[l / 8 * 16..l / 8 * 16 + 16], b[l % 8 * 16..l % 8 * 16 + 16])))
  }

  predicate Nibbles(b: seq<int>) {
    forall i :: 0 <= i < |b| ==> -8 <= b[i] <= 8
  }

  lemma NibbleRange(w: seq<Byte>)
    ensures Nibbles(Low(w)) && Nibbles(High(w))
  {
    forall i | 0 <= i < |w|
      ensures -8 <= Low(w)[i] <= 8 && -8 <= High(w)[i] <= 8
    {
      var b: int := w[i];
      assert 0 <= b < 256;
    }
  }

  /** With int8 activations and unpacked nibbles the lanes do not wrap. */
  lemma Vmadot1Lane(acc: seq<int>, a: seq<Int8>, b: seq<int>, row: nat, column: nat)
    requires |acc| == 16 && |a| == 32 && |b| == 32 && row < 4 && column < 4 && Nibbles(b)
    requires -1000000 <= acc[4 * row + column] <= 1000000
    ensures Vmadot1(acc, a, b)[4 * row + column] ==
            acc[4 * row + column] + Dot(a[8 * row..8 * row + 8], b[8 * column..8 * column + 8])
  {
    DotBound(a[8 * row..8 * row + 8], b[8 * column..8 * column + 8]);
    assert (4 * row + column) / 4 == row && (4 * row + column) % 4 == column;
  }

  lemma Vmadot2Lane(acc: seq<int>, a: seq<Int8>, b: seq<int>, row: nat, column: nat)
    requires |acc| == 64 && |a| == 128 && |b| == 128 && row < 8 && column < 8 && Nibbles(b)
    requires -1000000 <= acc[8 * row + column] <= 1000000
    ensures Vmadot2(acc, a, b)[8 * row + column] ==
            acc[8 * row + column] + Dot(a[16 * row..16 * row + 16], b[16 * column..16 * column + 16])
  {
    DotBound(a[16 * row..16 * row + 16], b[16 * column..16 * column + 16]);
    assert (8 * row + column) / 8 == row && (8 * row + column) % 8 == column;
  }

  /** A unit-stride store of the lanes `first <= i < vl`: a mask that selects the
      lanes above `first - 1`, and a vector length. Masked-off and tail lanes
      leave memory alone (sections 5.3 and 5.4 of the RISC-V Vector Extension 1.0). */
  method StoreMasked<T>(mem: array<T>, at: int, register: seq<T>, first: nat, vl: nat)
    requires first <= vl <= |register| && 0 <= at + first && at + vl <= mem.Length
    modifies mem
    ensures mem[..at + first] == old(mem[..at + first])
    ensures mem[at + first..at + vl] == register[first..vl]
    ensures mem[at + vl..] == old(mem[at + vl..])
  {
    var i := first;
    while i < vl
      invariant first <= i <= vl
      invariant forall k :: 0 <= k < mem.Length && !(at + first <= k < at + i) ==> mem[k] == old(mem[k])
      invariant forall k :: first <= k < i ==> mem[at + k] == register[k]
    {
      mem[at + i] := register[i];
      i := i + 1;
    }
    forall k | at + first <= k < at + vl
      ensures mem[k] == register[k - at]
    {
      assert mem[at + (k - at)] == register[k - at];
    }
  }
}
