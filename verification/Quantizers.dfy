/** The reference quantizers of the benchmark inputs, over the reals: the codes
    stay in range and every element is recovered within its error bound. */
module Quantizers {
  import opened BitArithmetic
  import opened Quantized

  function Abs(x: real): (r: real)
    ensures r >= 0.0 && (r == x || r == -x) && -r <= x <= r
  {
    if x < 0.0 then -x else x
  }

  /** `q` is the integer nearest to `y`, away from zero when there are two. */
  ghost predicate Rounded(y: real, q: int) {
    Abs(y - q as real) <= 0.5 && (Abs(y - q as real) == 0.5 ==> Abs(q as real) > Abs(y))
  }

  lemma RoundedUnique(y: real, p: int, q: int)
    requires Rounded(y, p) && Rounded(y, q)
    ensures p == q
  {}

  /** `std::round`. */
  function Round(x: real): (r: int)
    ensures Rounded(x, r)
  {
    if x >= 0.0 then (x + 0.5).Floor else -((-x + 0.5).Floor)
  }

  /** A conversion to an integer drops the fraction. */
  function Truncate(x: real): (r: int)
    ensures x >= 0.0 ==> r as real <= x < r as real + 1.0
  {
    if x >= 0.0 then x.Floor else -((-x).Floor)
  }

  function Inverse(scale: real): real {
    if scale != 0.0 then 1.0 / scale else 0.0
  }

  /** An element in steps of the scale. */
  function Steps(x: real, inverse: real): real { x * inverse }

  /** No element of the block is larger in magnitude. */
  ghost predicate Largest(input: seq<real>, m: real) {
    && m >= 0.0
    && (forall i :: 0 <= i < |input| ==> Abs(input[i]) <= m)
    && (m == 0.0 || exists i :: 0 <= i < |input| && Abs(input[i]) == m)
  }

  /** `x * inverse` for an element of magnitude at most `m` and a scale of `m / steps`. */
  lemma Scaled(x: real, m: real, scale: real, steps: real)
    requires steps > 0.0 && Abs(x) <= m && m > 0.0 && (scale == m / steps || scale == -m / steps)
    ensures scale != 0.0 && -steps <= Steps(x, Inverse(scale)) <= steps
    ensures Steps(x, Inverse(scale)) * scale == x
  {
    var inverse := Inverse(scale);
    assert scale * steps == m || scale * steps == -m;
    assert scale != 0.0;
    assert inverse * scale == 1.0;
    var y := x * inverse;
    assert y * scale == x * (inverse * scale);
    assert y * (scale * steps) == x * steps;
    Bound(y, m, steps, if scale * steps == m then x else -x);
  }

  lemma Bound(y: real, m: real, steps: real, x: real)
    requires m > 0.0 && steps > 0.0 && -m <= x <= m && y * m == x * steps
    ensures -steps <= y <= steps
  {
    AtMost(y, m, steps, x);
    assert -y * m == -x * steps;
    AtMost(-y, m, steps, -x);
  }

  lemma AtMost(y: real, m: real, steps: real, x: real)
    requires m > 0.0 && steps > 0.0 && x <= m && y * m == x * steps
    ensures y <= steps
  {
    Monotone(x, m, steps);
    if y > steps { Strict(steps, y, m); }
  }

  lemma Monotone(a: real, b: real, c: real)
    requires a <= b && c > 0.0
    ensures a * c <= b * c
  {}

  lemma Strict(a: real, b: real, c: real)
    requires a < b && c > 0.0
    ensures a * c < b * c
  {}

  /** An error of `e` steps is an error of `e * |scale|`. */
  lemma ErrorScales(y: real, q: real, scale: real, e: real, x: real)
    requires y * scale == x && Abs(y - q) <= e
    ensures Abs(x - q * scale) <= e * Abs(scale)
  {
    assert x - q * scale == (y - q) * scale;
    var d := y - q;
    if scale >= 0.0 {
      Times(d, e, scale);
      Times(-d, e, scale);
    } else {
      Times(d, e, -scale);
      Times(-d, e, -scale);
    }
  }

  lemma Times(a: real, b: real, c: real)
    requires a <= b && c >= 0.0
    ensures a * c <= b * c
  {}

  // ---------- Q8_0 ----------

  ghost predicate InRange(a: Q8) {
    forall i :: 0 <= i < 32 ==> -127 <= a.qs[i] <= 127
  }

  /** A code within 127, the rounded quotient, that recovers its element to half
      a step. */
  ghost predicate GoodCode(x: real, q: int, scale: real) {
    && -127 <= q <= 127 && Abs(x - q as real * scale) <= 0.5 * Abs(scale)
    && (if scale == 0.0 then q == 0 else Rounded(x / scale, q))
  }

  /** In terms of the largest magnitude, `127 * d`: an error of 1/254 of it at
      most, and code 127 or -127 for an element of that magnitude. */
  ghost predicate FullRange(x: real, q: int, d: real) {
    && Abs(x - q as real * d) <= 127.0 * d / 254.0
    && (x != 0.0 && Abs(x) == 127.0 * d ==> q == if x > 0.0 then 127 else -127)
  }

  /** The codes of a block whose scale is its largest magnitude over 127. */
  ghost predicate CodesOf(input: seq<real>, d: real, qs: seq<int>) {
    && |qs| == |input| && Largest(input, 127.0 * d)
    && (forall i :: 0 <= i < |qs| ==> GoodCode(input[i], qs[i], d))
    && (forall i :: 0 <= i < |qs| ==> FullRange(input[i], qs[i], d))
  }

  /** The scale is the largest magnitude over 127 and every code the rounded
      quotient; a zero block decodes to zero. */
  ghost predicate FaithfulQ8(input: seq<real>, a: Q8)
    requires |input| == 32
  {
    CodesOf(input, a.d, a.qs) && ((forall i :: 0 <= i < 32 ==> input[i] == 0.0) ==> a.d == 0.0)
  }

  /** The quantized block of an input is unique. */
  lemma FaithfulUnique(input: seq<real>, a: Q8, b: Q8)
    requires |input| == 32 && FaithfulQ8(input, a) && FaithfulQ8(input, b)
    ensures a == b
  {
    LargestUnique(input, 127.0 * a.d, 127.0 * b.d);
    assert a.d == b.d;
    forall i | 0 <= i < 32 ensures a.qs[i] == b.qs[i] {
      assert GoodCode(input[i], a.qs[i], a.d) && GoodCode(input[i], b.qs[i], b.d);
      if a.d != 0.0 { RoundedUnique(input[i] / a.d, a.qs[i], b.qs[i]); }
    }
    assert a.qs == b.qs;
  }

  lemma LargestUnique(input: seq<real>, m: real, n: real)
    requires Largest(input, m) && Largest(input, n)
    ensures m == n
  {}

  lemma FaithfulInRange(input: seq<real>, a: Q8)
    requires |input| == 32 && FaithfulQ8(input, a)
    ensures InRange(a)
  {
    forall i | 0 <= i < 32 ensures -127 <= a.qs[i] <= 127 { assert GoodCode(input[i], a.qs[i], a.d); }
  }

  lemma RoundRange(y: real)
    requires -127.0 <= y <= 127.0
    ensures -127 <= Round(y) <= 127
  {}

  lemma GoodFromSteps(x: real, y: real, scale: real)
    requires y * scale == x && -127.0 <= y <= 127.0 && (scale == 0.0 ==> y == 0.0)
    ensures GoodCode(x, Round(y), scale)
  {
    RoundRange(y);
    NearestCode(x, y, Round(y), scale);
  }

  lemma NearestCode(x: real, y: real, q: int, scale: real)
    requires y * scale == x && -127 <= q <= 127 && Rounded(y, q) && (scale == 0.0 ==> y == 0.0)
    ensures GoodCode(x, q, scale)
  {
    ErrorScales(y, q as real, scale, 0.5, x);
    if scale != 0.0 { QuotientIs(x, y, scale); }
  }

  lemma QuotientIs(x: real, y: real, scale: real)
    requires y * scale == x && scale != 0.0
    ensures y == x / scale
  {
    assert x / scale * scale == x;
    SameProduct(y, x / scale, scale);
  }

  /** A rounded code uses the whole range up to the largest magnitude. */
  lemma InFullRange(x: real, q: int, d: real)
    requires GoodCode(x, q, d) && d >= 0.0
    ensures FullRange(x, q, d)
  {
    if x != 0.0 && Abs(x) == 127.0 * d {
      QuotientIs(x, if x > 0.0 then 127.0 else -127.0, d);
      RoundedUnique(x / d, q, if x > 0.0 then 127 else -127);
    }
  }

  lemma CodeQ8(x: real, m: real, scale: real, inverse: real)
    requires Abs(x) <= m && scale == m / 127.0 && inverse == Inverse(scale)
    ensures GoodCode(x, Round(Steps(x, inverse)), scale)
  {
    if m == 0.0 {
      ZeroSteps(x, inverse);
      GoodFromSteps(0.0, 0.0, 0.0);
    } else {
      Scaled(x, m, scale, 127.0);
      GoodFromSteps(x, Steps(x, inverse), scale);
    }
  }

  lemma ZeroSteps(x: real, inverse: real)
    requires x == 0.0
    ensures Steps(x, inverse) == 0.0
  {}

  method AbsoluteMax(input: seq<real>) returns (absoluteMax: real)
    ensures Largest(input, absoluteMax)
  {
    absoluteMax := 0.0;
    for i := 0 to |input|
      invariant Largest(input[..i], absoluteMax)
    {
      LargestNext(input, i, absoluteMax);
      if absoluteMax < Abs(input[i]) { absoluteMax := Abs(input[i]); }
    }
    assert input[..|input|] == input;
  }

  /** The scale and the codes of one block, of any length. */
  method QuantizeCodes(input: seq<real>) returns (scale: real, qs: seq<Int8>)
    ensures CodesOf(input, scale, qs)
    ensures (forall i :: 0 <= i < |input| ==> input[i] == 0.0) ==> scale == 0.0
  {
    var absoluteMax := AbsoluteMax(input);
    scale := absoluteMax / 127.0;
    var inverse := Inverse(scale);
    qs := [];
    for i := 0 to |input|
      invariant |qs| == i
      invariant forall k :: 0 <= k < i ==> GoodCode(input[k], qs[k], scale)
    {
      var q := EncodeQ8(input[i], inverse, absoluteMax, scale);
      qs := qs + [q];
    }
    forall i | 0 <= i < |qs| ensures FullRange(input[i], qs[i], scale) { InFullRange(input[i], qs[i], scale); }
  }

  method QuantizeQ80Block(input: seq<real>) returns (a: Q8)
    requires |input| == 32
    ensures FaithfulQ8(input, a)
  {
    var scale, qs := QuantizeCodes(input);
    a := Q8Block(scale, qs);
  }

  method EncodeQ8(x: real, inverse: real, ghost m: real, ghost scale: real) returns (q: Int8)
    requires Abs(x) <= m && scale == m / 127.0 && inverse == Inverse(scale)
    ensures GoodCode(x, q, scale)
  {
    CodeQ8(x, m, scale, inverse);
    q := Round(Steps(x, inverse));
  }

  lemma LargestNext(input: seq<real>, i: nat, m: real)
    requires i < |input| && Largest(input[..i], m)
    ensures Largest(input[..i + 1], if m < Abs(input[i]) then Abs(input[i]) else m)
  {
    var next := input[..i + 1];
    forall k | 0 <= k < |next| ensures Abs(next[k]) <= if m < Abs(input[i]) then Abs(input[i]) else m {
      if k < i { assert next[k] == input[..i][k]; }
    }
    if m < Abs(input[i]) {
      assert Abs(next[i]) == Abs(input[i]);
    } else if m != 0.0 {
      var k :| 0 <= k < i && Abs(input[..i][k]) == m;
      assert next[k] == input[..i][k];
    }
  }

  // ---------- Q4_0 ----------

  /** The element of largest magnitude that comes first. */
  ghost predicate FirstLargest(input: seq<real>, at: nat, m: real) {
    && Largest(input, m)
    && (m > 0.0 ==> at < |input| && Abs(input[at]) == m && forall i :: 0 <= i < at ==> Abs(input[i]) < m)
  }

  /** The 4-bit code of a scaled value. */
  function CodeOf(y: real): int {
    var q := Truncate(y + 8.5);
    if q < 15 then q else 15
  }

  /** Recovered to half a step, or a clamped opposite extreme: more than 7.5 steps
      away from zero on the side without a code, and then within one step. */
  ghost predicate Recovered(x: real, weight: int, scale: real) {
    || Abs(x - weight as real * scale) <= 0.5 * Abs(scale)
    || (weight == 7 && Steps(x, Inverse(scale)) > 7.5 && Abs(x - weight as real * scale) <= Abs(scale))
  }

  /** The weight of an element with scale `d`: the quotient rounded, halves up,
      and 7 where that would be 8. */
  ghost predicate NibbleFor(x: real, weight: int, d: real) {
    if d == 0.0 then weight == 0
    else weight as real - 0.5 <= x / d < weight as real + 0.5 || (weight == 7 && x / d >= 7.5)
  }

  lemma CodeRange(y: real)
    requires -8.0 <= y <= 8.0
    ensures 0 <= CodeOf(y) <= 15
    ensures var weight := CodeOf(y) - 8;
            weight as real - 0.5 <= y < weight as real + 0.5 || (weight == 7 && y >= 7.5)
    ensures Abs(y - (CodeOf(y) - 8) as real) <= 0.5 || (CodeOf(y) == 15 && 7.5 < y && Abs(y - 7.0) <= 1.0)
    ensures y == -8.0 ==> CodeOf(y) == 0
    ensures y == 0.0 ==> CodeOf(y) == 8
  {}

  lemma NibbleFromSteps(x: real, y: real, scale: real)
    requires y * scale == x && -8.0 <= y <= 8.0 && y == Steps(x, Inverse(scale))
    ensures GoodNibble(x, CodeOf(y), scale)
  {
    CodeRange(y);
    NibbleError(x, y, CodeOf(y), scale);
    NibbleIs(x, y, scale);
  }

  lemma NibbleIs(x: real, y: real, scale: real)
    requires y * scale == x && -8.0 <= y <= 8.0 && (scale == 0.0 ==> y == 0.0)
    ensures NibbleFor(x, CodeOf(y) - 8, scale)
  {
    CodeRange(y);
    if scale != 0.0 { QuotientIs(x, y, scale); }
  }

  lemma NibbleError(x: real, y: real, q: int, scale: real)
    requires y * scale == x && 0 <= q <= 15 && y == Steps(x, Inverse(scale))
    requires Abs(y - (q - 8) as real) <= 0.5 || (q == 15 && 7.5 < y && Abs(y - 7.0) <= 1.0)
    ensures 0 <= q <= 15 && Recovered(x, q - 8, scale)
  {
    if Abs(y - (q - 8) as real) <= 0.5 {
      NearestNibble(x, y, q - 8, scale);
    } else {
      ClampedNibble(x, y, scale);
    }
  }

  lemma NearestNibble(x: real, y: real, weight: int, scale: real)
    requires y * scale == x && Abs(y - weight as real) <= 0.5
    ensures Recovered(x, weight, scale)
  {
    ErrorScales(y, weight as real, scale, 0.5, x);
  }

  lemma ClampedNibble(x: real, y: real, scale: real)
    requires y * scale == x && y == Steps(x, Inverse(scale)) && 7.5 < y && Abs(y - 7.0) <= 1.0
    ensures Recovered(x, 7, scale)
  {
    ErrorScales(y, 7.0, scale, 1.0, x);
  }

  lemma CodeQ4(x: real, m: real, signedMax: real, scale: real, inverse: real)
    requires Abs(x) <= m && Abs(signedMax) == m && scale == signedMax / -8.0 && inverse == Inverse(scale)
    ensures GoodNibble(x, CodeOf(Steps(x, inverse)), scale)
  {
    if m == 0.0 {
      ZeroSteps(x, inverse);
      NibbleFromSteps(0.0, 0.0, 0.0);
    } else {
      Scaled(x, m, scale, 8.0);
      NibbleFromSteps(x, Steps(x, inverse), scale);
    }
  }

  ghost predicate GoodNibble(x: real, q: int, scale: real) {
    0 <= q <= 15 && Recovered(x, q - 8, scale) && NibbleFor(x, q - 8, scale)
  }

  /** The element that sets the scale gets code zero. */
  lemma ExtremeCode(x: real, scale: real)
    requires x != 0.0 && scale == x / -8.0
    ensures CodeOf(Steps(x, Inverse(scale))) == 0
  {
    Scaled(x, Abs(x), scale, 8.0);
    SameProduct(Steps(x, Inverse(scale)), -8.0, scale);
    CodeRange(-8.0);
  }

  lemma SameProduct(y: real, z: real, scale: real)
    requires scale != 0.0 && y * scale == z * scale
    ensures y == z
  {
    assert (y - z) * scale == 0.0;
    if y - z > 0.0 { if scale > 0.0 { Strict(0.0, y - z, scale); } else { Strict(0.0, y - z, -scale); } }
    if y - z < 0.0 { if scale > 0.0 { Strict(y - z, 0.0, scale); } else { Strict(y - z, 0.0, -scale); } }
  }

  /** The scale is the first element of largest magnitude over -8, every weight is
      the rounded quotient and recovers its element within its bound, and that
      element gets code zero; a zero block decodes to zero. */
  ghost predicate FaithfulQ4(input: seq<real>, w: Q4, at: nat)
    requires |input| == 32 && at < 32
  {
    && -8.0 * w.d == input[at]
    && (forall i :: 0 <= i < 32 ==> Recovered(input[i], Weights(w)[i], w.d))
    && (forall i :: 0 <= i < 32 ==> NibbleFor(input[i], Weights(w)[i], w.d))
    && (input[at] != 0.0 ==> Weights(w)[at] == -8)
    && (w.d == 0.0 <==> input[at] == 0.0)
  }

  method SignedMax(input: seq<real>) returns (absoluteMax: real, signedMax: real, ghost at: nat)
    requires |input| > 0
    ensures FirstLargest(input, at, absoluteMax) && at < |input| && Abs(input[at]) == absoluteMax
            && signedMax == input[at]
  {
    absoluteMax, signedMax, at := 0.0, 0.0, 0;
    for i := 0 to |input|
      invariant FirstLargest(input[..i], at, absoluteMax) && absoluteMax == Abs(signedMax)
      invariant if absoluteMax > 0.0 then at < i && signedMax == input[at] else at == 0
    {
      FirstNext(input, i, at, absoluteMax);
      if absoluteMax < Abs(input[i]) {
        absoluteMax, signedMax, at := Abs(input[i]), input[i], i;
      }
    }
    assert input[..|input|] == input;
    assert Abs(input[0]) <= absoluteMax;
  }

  lemma FirstNext(input: seq<real>, i: nat, at: nat, m: real)
    requires i < |input| && FirstLargest(input[..i], at, m)
    ensures if m < Abs(input[i]) then FirstLargest(input[..i + 1], i, Abs(input[i]))
            else FirstLargest(input[..i + 1], at, m)
  {
    LargestNext(input, i, m);
    var before, next := input[..i], input[..i + 1];
    forall k | 0 <= k < i ensures next[k] == before[k] {}
    if m < Abs(input[i]) {
      forall k | 0 <= k < i ensures Abs(next[k]) < Abs(input[i]) { assert Abs(before[k]) <= m; }
    }
  }

  /** What `quantize_row_q4_0` promises of one block. */
  ghost predicate FaithfulBlock(input: seq<real>, w: Q4)
    requires |input| == 32
  {
    exists at: nat :: at < 32 && FirstLargest(input, at, Abs(input[at])) && FaithfulQ4(input, w, at)
  }

  method QuantizeQ40Block(input: seq<real>) returns (w: Q4)
    requires |input| == 32
    ensures FaithfulBlock(input, w)
  {
    var absoluteMax, signedMax, at := SignedMax(input);
    var scale := signedMax / -8.0;
    var inverse := Inverse(scale);
    var qs: seq<Byte> := [];
    for i: nat := 0 to 16
      invariant |qs| == i
      invariant forall k: nat :: k < i ==> CodesAt(input, qs[k], inverse, k)
    {
      var b := EncodeQ4(input, i, inverse, absoluteMax, signedMax, scale);
      qs := qs + [b];
    }
    w := Q4Block(scale, qs);
    Encoded(input, w, at, absoluteMax, signedMax);
  }

  method EncodeQ4(input: seq<real>, i: nat, inverse: real, ghost m: real, ghost signedMax: real, ghost scale: real)
    returns (b: Byte)
    requires |input| == 32 && i < 16 && Largest(input, m) && Abs(signedMax) == m && scale == signedMax / -8.0
             && inverse == Inverse(scale)
    ensures CodesAt(input, b, inverse, i)
  {
    CodeQ4(input[i], m, signedMax, scale, inverse);
    CodeQ4(input[16 + i], m, signedMax, scale, inverse);
    var low, high := CodeOf(Steps(input[i], inverse)), CodeOf(Steps(input[16 + i], inverse));
    b := TwoCodes(low, high);
  }

  function TwoCodes(low: int, high: int): (b: Byte)
    requires 0 <= low < 16 && 0 <= high < 16
    ensures b % 16 == low && b / 16 == high
  {
    low + 16 * high
  }

  /** A byte holds the codes of elements `k` and `k + 16`. */
  ghost predicate CodesAt(input: seq<real>, b: Byte, inverse: real, k: nat)
    requires |input| == 32 && k < 16
  {
    LowNibble(b) == CodeOf(Steps(input[k], inverse)) - 8 && HighNibble(b) == CodeOf(Steps(input[k + 16], inverse)) - 8
  }

  lemma Encoded(input: seq<real>, w: Q4, at: nat, m: real, signedMax: real)
    requires |input| == 32 && at < 32 && w.d == signedMax / -8.0 && Largest(input, m) && m == Abs(signedMax)
             && signedMax == input[at]
    requires forall k: nat :: k < 16 ==> CodesAt(input, w.qs[k], Inverse(w.d), k)
    ensures FaithfulQ4(input, w, at)
  {
    forall i | 0 <= i < 32
      ensures Recovered(input[i], Weights(w)[i], w.d) && NibbleFor(input[i], Weights(w)[i], w.d)
    {
      WeightOf(input, w, i);
      CodeQ4(input[i], m, signedMax, w.d, Inverse(w.d));
    }
    if input[at] != 0.0 {
      WeightOf(input, w, at);
      ExtremeCode(input[at], w.d);
    }
  }

  lemma WeightOf(input: seq<real>, w: Q4, i: nat)
    requires |input| == 32 && i < 32 && forall k: nat :: k < 16 ==> CodesAt(input, w.qs[k], Inverse(w.d), k)
    ensures Weights(w)[i] == CodeOf(Steps(input[i], Inverse(w.d))) - 8
  {
    var k: nat := if i < 16 then i else i - 16;
    assert CodesAt(input, w.qs[k], Inverse(w.d), k);
    assert Weights(w)[i] == if i < 16 then LowNibble(w.qs[k]) else HighNibble(w.qs[k]);
  }

  // ---------- Rows ----------

  /** `quantize_row_q8_0`: every block of the row, however many there are. */
  method QuantizeRowQ80(input: seq<real>) returns (output: seq<Q8>)
    requires |input| % 32 == 0
    ensures |output| == |input| / 32
    ensures forall b :: 0 <= b < |output| ==> FaithfulQ8(Block(input, b), output[b])
  {
    output := [];
    for b := 0 to |input| / 32
      invariant |output| == b
      invariant forall c :: 0 <= c < b ==> FaithfulQ8(Block(input, c), output[c])
    {
      var a := QuantizeQ80Block(Block(input, b));
      output := output + [a];
    }
  }

  /** `quantize_row_q4_0`. */
  method QuantizeRowQ40(input: seq<real>) returns (output: seq<Q4>)
    requires |input| % 32 == 0
    ensures |output| == |input| / 32
    ensures forall b :: 0 <= b < |output| ==> FaithfulBlock(Block(input, b), output[b])
  {
    output := [];
    for b := 0 to |input| / 32
      invariant |output| == b
      invariant forall c :: 0 <= c < b ==> FaithfulBlock(Block(input, c), output[c])
    {
      var w := QuantizeQ40Block(Block(input, b));
      output := output + [w];
    }
  }

  function Block(input: seq<real>, b: nat): (r: seq<real>)
    requires 32 * b + 32 <= |input|
    ensures |r| == 32
  {
    input[32 * b..32 * b + 32]
  }
}
