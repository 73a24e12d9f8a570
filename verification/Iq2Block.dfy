/** IQ2_XXS x Q8_K: decoding of a weight subblock, the 16-bit subblock sums of
    both RVV kernels, and when they agree with the reference. */
module Iq2Block {
  import opened BitArithmetic
  import opened Floats
  import opened Quantized
  import opened VectorUnit

  const MR: nat := 12
  const NR: nat := 32

  datatype Q8K = Q8K(d: real, qs: seq<Int8>)
  /** A decoded weight block: 256 signed magnitudes and eight odd scales. */
  datatype W2 = W2(d: real, values: seq<Int8>, scales: seq<int>)

  predicate Activation(a: Q8K) { |a.qs| == 256 }

  predicate Weight(w: W2) {
    |w.values| == 256 && |w.scales| == 8 && forall s :: 0 <= s < 8 ==> 1 <= w.scales[s] <= 31
  }

  // ---------- Decoding ----------

  function Bit(x: nat, i: nat): (b: nat)
    ensures b < 2
  {
    if i == 0 then x % 2 else Bit(x / 2, i - 1)
  }

  /** Set bits among the lowest `n`. */
  function Ones(x: nat, n: nat): nat {
    if n == 0 then 0 else x % 2 + Ones(x / 2, n - 1)
  }

  /** `sign_mask`: bit 7 makes the number of set bits even. */
  function SignMask(index: nat): (r: nat)
    requires index < 128
    ensures r < 256
  {
    index + if Ones(index, 8) % 2 != 0 then 128 else 0
  }

  lemma {:induction false} OnesAbove(x: nat, n: nat, p: nat)
    requires x < p && p == Power(n)
    ensures Ones(x + p, n + 1) == Ones(x, n + 1) + 1
    decreases n
  {
    if n > 0 {
      var half := Power(n - 1);
      HalfSum(x, half);
      OnesAbove(x / 2, n - 1, half);
    }
  }

  lemma HalfSum(x: nat, half: nat)
    ensures (x + 2 * half) / 2 == x / 2 + half && (x + 2 * half) % 2 == x % 2
  {}

  function Power(n: nat): nat { if n == 0 then 1 else 2 * Power(n - 1) }

  /** The mask keeps the seven index bits and always negates an even number of lanes. */
  lemma SignMaskEven(index: nat)
    requires index < 128
    ensures SignMask(index) % 128 == index && Ones(SignMask(index), 8) % 2 == 0
  {
    Power7();
    OnesAbove(index, 7, 128);
    EvenAfter(Ones(index, 8), Ones(index + 128, 8));
    ModUnique(index + 128, 128, 1, index);
    ModUnique(index, 128, 0, index);
  }

  lemma EvenAfter(x: int, y: int)
    requires y == x + 1
    ensures x % 2 != 0 ==> y % 2 == 0
  {}

  lemma Power7()
    ensures Power(7) == 128
  {
    assert Power(2) == 4;
    assert Power(4) == 4 * Power(2);
    assert Power(6) == 4 * Power(4);
  }

  function Shift(x: nat, bits: nat): nat { if bits == 0 then x else Shift(x / 2, bits - 1) }

  /** The magnitudes of the 256 grid entries, eight lanes each. */
  ghost predicate IsGrid(grid: seq<seq<int>>) {
    |grid| == 256 && forall g :: 0 <= g < 256 ==> IsEntry(grid[g])
  }

  ghost predicate IsEntry(entry: seq<int>) {
    |entry| == 8 && forall l :: 0 <= l < 8 ==> 0 <= entry[l] < 128
  }

  /** A packed subblock: four grid indices, and four 7-bit sign indices below a
      4-bit scale. */
  datatype Packed = Packed(indices: seq<Byte>, signsAndScale: nat)

  datatype PackedBlock = PackedBlock(d: real, subblocks: seq<Packed>)

  predicate IsPacked(b: PackedBlock) {
    |b.subblocks| == 8 && forall s :: 0 <= s < 8 ==> |b.subblocks[s].indices| == 4
  }

  function Signs(packed: Packed, group: nat): (r: nat)
    ensures r < 256
  {
    SignMask(Shift(packed.signsAndScale, 7 * group) % 128)
  }

  /** Lane `i` of a subblock: its grid magnitude, negated where the sign bit is set. */
  function Decoded(grid: seq<seq<int>>, packed: Packed, i: nat): (v: Int8)
    requires IsGrid(grid) && |packed.indices| == 4 && i < 32
  {
    var entry := grid[packed.indices[i / 8]];
    assert IsEntry(entry);
    if Bit(Signs(packed, i / 8), i % 8) == 1 then -entry[i % 8] else entry[i % 8]
  }

  function ScaleOf(packed: Packed): (r: int)
    ensures 1 <= r <= 31
  {
    2 * (Shift(packed.signsAndScale, 28) % 16) + 1
  }

  /** The weights a packed block stands for. */
  function Decode(grid: seq<seq<int>>, b: PackedBlock): (w: W2)
    requires IsGrid(grid) && IsPacked(b)
    ensures Weight(w) && w.d == b.d
  {
    W2(b.d, seq(256, i requires 0 <= i < 256 => Decoded(grid, b.subblocks[i / 32], i % 32)),
       seq(8, s requires 0 <= s < 8 => ScaleOf(b.subblocks[s])))
  }

  // ---------- The bits of a packed subblock ----------

  /** The 32-bit word of a subblock: sign indices `s`, seven bits each, and above
      them the scale code `c`. */
  ghost predicate Fields(word: nat, s: seq<nat>, c: nat) {
    && |s| == 4 && (forall g :: 0 <= g < 4 ==> s[g] < 128) && c < 16
    && word == s[0] + 0x80 * s[1] + 0x4000 * s[2] + 0x20_0000 * s[3] + 0x1000_0000 * c
  }

  /** Bit `lane` of a sign index, with the parity of its seven bits as bit 7. */
  predicate NegativeLane(s: nat, lane: nat)
    requires lane < 8
  {
    if lane == 7 then (s % 2 + s / 2 % 2 + s / 4 % 2 + s / 8 % 2 + s / 16 % 2 + s / 32 % 2 + s / 64 % 2) % 2 == 1
    else s / [1, 2, 4, 8, 16, 32, 64][lane] % 2 == 1
  }

  ghost predicate SignedLane(entry: seq<int>, s: nat, lane: nat, value: int)
    requires |entry| == 8 && lane < 8
  {
    value == if NegativeLane(s, lane) then -entry[lane] else entry[lane]
  }

  /** Value `8 * g + l` is lane `l` of the entry of group `g`, negative exactly
      when bit `l` of the group's sign index says so. */
  ghost predicate SignedLanes(grid: seq<seq<int>>, indices: seq<Byte>, s: seq<nat>, values: seq<int>)
    requires IsGrid(grid) && |indices| == |s| == 4 && |values| == 32
  {
    forall g: nat, l: nat :: g < 4 && l < 8 ==> LaneMeant(grid, indices, s, values, g, l)
  }

  ghost predicate LaneMeant(grid: seq<seq<int>>, indices: seq<Byte>, s: seq<nat>, values: seq<int>, g: nat, l: nat)
    requires IsGrid(grid) && |indices| == |s| == 4 && |values| == 32 && g < 4 && l < 8
  {
    IsEntry(grid[indices[g]]) && SignedLane(grid[indices[g]], s[g], l, values[8 * g + l])
  }

  /** Every 32-bit word has its fields. */
  lemma WordFields(word: nat) returns (s: seq<nat>, c: nat)
    requires word < 0x1_0000_0000
    ensures Fields(word, s, c)
  {
    var r1, s0 := Digits(word, 0x80);
    var r2, s1 := Digits(r1, 0x80);
    var r3, s2 := Digits(r2, 0x80);
    var r4, s3 := Digits(r3, 0x80);
    s, c := [s0, s1, s2, s3], r4;
  }

  lemma {:induction false} ShiftDrops(q: nat, r: nat, n: nat)
    requires r < Power(n)
    ensures Shift(q * Power(n) + r, n) == q
    decreases n
  {
    if n > 0 {
      var half := q * Power(n - 1);
      assert q * Power(n) == 2 * half;
      HalfSum(r, half);
      ShiftDrops(q, r / 2, n - 1);
    }
  }

  lemma {:induction false} PowerSum(a: nat, b: nat)
    ensures Power(a + b) == Power(a) * Power(b)
  {
    if a > 0 { PowerSum(a - 1, b); }
  }

  lemma FieldPowers()
    ensures Power(7) == 0x80 && Power(14) == 0x4000 && Power(21) == 0x20_0000 && Power(28) == 0x1000_0000
  {
    Power7();
    PowerSum(7, 7);
    PowerSum(7, 14);
    PowerSum(7, 21);
  }

  /** What the shifts by 0, 7, 14, 21 and 28 leave. */
  lemma FieldsShifted(word: nat, s: seq<nat>, c: nat)
    requires Fields(word, s, c)
    ensures Shift(word, 0) == s[0] + 0x80 * (s[1] + 0x80 * (s[2] + 0x80 * (s[3] + 0x80 * c)))
    ensures Shift(word, 7) == s[1] + 0x80 * (s[2] + 0x80 * (s[3] + 0x80 * c))
    ensures Shift(word, 14) == s[2] + 0x80 * (s[3] + 0x80 * c)
    ensures Shift(word, 21) == s[3] + 0x80 * c
    ensures Shift(word, 28) == c
  {
    FieldPowers();
    ShiftDrops(s[1] + 0x80 * s[2] + 0x4000 * s[3] + 0x20_0000 * c, s[0], 7);
    ShiftDrops(s[2] + 0x80 * s[3] + 0x4000 * c, s[0] + 0x80 * s[1], 14);
    ShiftDrops(s[3] + 0x80 * c, s[0] + 0x80 * s[1] + 0x4000 * s[2], 21);
    ShiftDrops(c, s[0] + 0x80 * s[1] + 0x4000 * s[2] + 0x20_0000 * s[3], 28);
  }

  lemma SignIndexIs(packed: Packed, s: seq<nat>, c: nat, g: nat)
    requires Fields(packed.signsAndScale, s, c) && g < 4
    ensures Shift(packed.signsAndScale, 7 * g) % 128 == s[g]
  {
    FieldsShifted(packed.signsAndScale, s, c);
    var rest := if g == 0 then s[1] + 0x80 * (s[2] + 0x80 * (s[3] + 0x80 * c))
                else if g == 1 then s[2] + 0x80 * (s[3] + 0x80 * c) else if g == 2 then s[3] + 0x80 * c else c;
    ModUnique(Shift(packed.signsAndScale, 7 * g), 128, rest, s[g]);
  }

  lemma {:induction false} BitShift(x: nat, i: nat)
    ensures Bit(x, i) == Shift(x, i) % 2
  {
    if i > 0 { BitShift(x / 2, i - 1); }
  }

  lemma LowShifts(x: nat)
    ensures Shift(x, 0) == x && Shift(x, 1) == x / 2 && Shift(x, 2) == x / 4 && Shift(x, 3) == x / 8
    ensures Shift(x, 4) == x / 16 && Shift(x, 5) == x / 32 && Shift(x, 6) == x / 64 && Shift(x, 7) == x / 128
  {
    ShiftSum(x, 1, 1);
    ShiftSum(x, 2, 1);
    ShiftSum(x, 3, 1);
    ShiftSum(x, 4, 1);
    ShiftSum(x, 5, 1);
    ShiftSum(x, 6, 1);
  }

  lemma {:induction false} ShiftSum(x: nat, a: nat, b: nat)
    ensures Shift(x, a + b) == Shift(Shift(x, a), b)
    decreases a
  {
    if a > 0 { ShiftSum(x / 2, a - 1, b); }
  }

  lemma EightBits(x: nat)
    ensures Bit(x, 0) == x % 2 && Bit(x, 1) == x / 2 % 2 && Bit(x, 2) == x / 4 % 2 && Bit(x, 3) == x / 8 % 2
    ensures Bit(x, 4) == x / 16 % 2 && Bit(x, 5) == x / 32 % 2 && Bit(x, 6) == x / 64 % 2 && Bit(x, 7) == x / 128 % 2
  {
    LowShifts(x);
    BitShift(x, 0);
    BitShift(x, 1);
    BitShift(x, 2);
    BitShift(x, 3);
    BitShift(x, 4);
    BitShift(x, 5);
    BitShift(x, 6);
    BitShift(x, 7);
  }

  lemma EightOnes(x: nat)
    ensures Ones(x, 8) == Bit(x, 0) + Bit(x, 1) + Bit(x, 2) + Bit(x, 3) + Bit(x, 4) + Bit(x, 5) + Bit(x, 6) + Bit(x, 7)
  {
    hide Bit;
    NegatedIsOnes(x, 8);
    assert Negated(x, 1) == Negated(x, 0) + Bit(x, 0);
    assert Negated(x, 2) == Bit(x, 0) + Bit(x, 1);
    assert Negated(x, 4) == Negated(x, 2) + Bit(x, 2) + Bit(x, 3);
    assert Negated(x, 6) == Negated(x, 4) + Bit(x, 4) + Bit(x, 5);
    assert Negated(x, 8) == Negated(x, 6) + Bit(x, 6) + Bit(x, 7);
  }

  /** Adding a power of two above a number sets that bit alone. */
  lemma {:induction false} BitAbove(x: nat, n: nat, p: nat, i: nat)
    requires x < p && p == Power(n) && i <= n
    ensures Bit(x + p, i) == if i == n then 1 else Bit(x, i)
    ensures Bit(x, n) == 0
    decreases n
  {
    if n > 0 {
      var half := Power(n - 1);
      HalfSum(x, half);
      BitAbove(x / 2, n - 1, half, if i == 0 then 0 else i - 1);
    }
  }

  /** The sign mask's bits: those of the index, and its parity. */
  lemma MaskBit(index: nat, lane: nat)
    requires index < 128 && lane < 8
    ensures Bit(SignMask(index), lane) == 1 <==> NegativeLane(index, lane)
  {
    hide Bit, Ones;
    Power7();
    EightOnes(index);
    EightBits(index);
    BitAbove(index, 7, 128, lane);
  }

  lemma DecodedLane(grid: seq<seq<int>>, packed: Packed, s: seq<nat>, c: nat, g: nat, l: nat)
    requires IsGrid(grid) && |packed.indices| == 4 && Fields(packed.signsAndScale, s, c) && g < 4 && l < 8
    ensures IsEntry(grid[packed.indices[g]])
            && SignedLane(grid[packed.indices[g]], s[g], l, Decoded(grid, packed, 8 * g + l))
  {
    ModUnique(8 * g + l, 8, g, l);
    SignIndexIs(packed, s, c, g);
    MaskBit(s[g], l);
  }

  /** What decoding means, bit by bit. */
  lemma DecodedMeaning(grid: seq<seq<int>>, packed: Packed, values: seq<Int8>, s: seq<nat>, c: nat)
    requires IsGrid(grid) && |packed.indices| == 4 && Fields(packed.signsAndScale, s, c)
    requires |values| == 32 && forall i: nat :: i < 32 ==> values[i] == Decoded(grid, packed, i)
    ensures SignedLanes(grid, packed.indices, s, values) && ScaleOf(packed) == 2 * c + 1
  {
    forall g: nat, l: nat | g < 4 && l < 8 ensures LaneMeant(grid, packed.indices, s, values, g, l) {
      DecodedLane(grid, packed, s, c, g, l);
    }
    FieldsShifted(packed.signsAndScale, s, c);
    ModUnique(c, 16, 0, c);
  }

  /** `decode_subblock`, for any grid of magnitudes below 128. */
  method DecodeSubblock(grid: seq<seq<int>>, packed: Packed) returns (values: seq<Int8>, scale: int)
    requires IsGrid(grid) && |packed.indices| == 4
    ensures |values| == 32 && forall i: nat :: i < 32 ==> values[i] == Decoded(grid, packed, i)
    ensures scale == ScaleOf(packed)
    ensures forall s: seq<nat>, c: nat :: Fields(packed.signsAndScale, s, c) ==>
              SignedLanes(grid, packed.indices, s, values) && scale == 2 * c + 1
  {
    values := [];
    for group := 0 to 4
      invariant |values| == 8 * group && forall i: nat :: i < 8 * group ==> values[i] == Decoded(grid, packed, i)
    {
      var magnitudes := grid[packed.indices[group]];
      var signs := Signs(packed, group);
      assert IsEntry(magnitudes);
      for lane := 0 to 8
        invariant |values| == 8 * group + lane
        invariant forall i: nat :: i < 8 * group + lane ==> values[i] == Decoded(grid, packed, i)
      {
        var magnitude := magnitudes[lane];
        assert (8 * group + lane) / 8 == group && (8 * group + lane) % 8 == lane;
        values := values + [if Bit(signs, lane) == 1 then -magnitude else magnitude];
      }
    }
    scale := ScaleOf(packed);
    forall s: seq<nat>, c: nat | Fields(packed.signsAndScale, s, c)
      ensures SignedLanes(grid, packed.indices, s, values) && scale == 2 * c + 1
    {
      DecodedMeaning(grid, packed, values, s, c);
    }
  }

  /** The weights and the scale of subblock `t` are what its word and indices say. */
  ghost predicate SubblockMeant(grid: seq<seq<int>>, b: PackedBlock, w: W2, t: nat, s: seq<nat>, c: nat)
    requires IsGrid(grid) && IsPacked(b) && Weight(w) && t < 8 && |s| == 4
  {
    SignedLanes(grid, b.subblocks[t].indices, s, w.values[32 * t..32 * t + 32]) && w.scales[t] == 2 * c + 1
  }

  lemma SubblockDecoded(grid: seq<seq<int>>, b: PackedBlock, t: nat, s: seq<nat>, c: nat)
    requires IsGrid(grid) && IsPacked(b) && t < 8 && Fields(b.subblocks[t].signsAndScale, s, c)
    ensures SubblockMeant(grid, b, Decode(grid, b), t, s, c)
  {
    var part := seq(32, i requires 0 <= i < 32 => Decoded(grid, b.subblocks[t], i));
    DecodedPart(grid, b, t, part);
    DecodedMeaning(grid, b.subblocks[t], part, s, c);
  }

  /** All eight subblocks of a block. */
  method DecodeBlock(grid: seq<seq<int>>, b: PackedBlock) returns (w: W2)
    requires IsGrid(grid) && IsPacked(b)
    ensures w == Decode(grid, b) && w.d == b.d
    ensures forall t: nat, s: seq<nat>, c: nat :: t < 8 && Fields(b.subblocks[t].signsAndScale, s, c) ==>
              SubblockMeant(grid, b, w, t, s, c)
  {
    ghost var all := Decode(grid, b);
    var values: seq<Int8> := [];
    var scales: seq<int> := [];
    for s := 0 to 8
      invariant values == all.values[..32 * s] && scales == all.scales[..s]
    {
      var part, scale := DecodeSubblock(grid, b.subblocks[s]);
      DecodedPart(grid, b, s, part);
      values, scales := values + part, scales + [scale];
    }
    w := W2(b.d, values, scales);
    assert w == all;
    forall t: nat, s: seq<nat>, c: nat | t < 8 && Fields(b.subblocks[t].signsAndScale, s, c)
      ensures SubblockMeant(grid, b, w, t, s, c)
    {
      SubblockDecoded(grid, b, t, s, c);
    }
  }

  lemma DecodedPart(grid: seq<seq<int>>, b: PackedBlock, s: nat, part: seq<Int8>)
    requires IsGrid(grid) && IsPacked(b) && s < 8
    requires |part| == 32 && forall i: nat :: i < 32 ==> part[i] == Decoded(grid, b.subblocks[s], i)
    ensures Decode(grid, b).values[32 * s..32 * s + 32] == part
  {
    var values := Decode(grid, b).values;
    forall i: nat | i < 32 ensures values[32 * s + i] == part[i] { ModUnique(32 * s + i, 32, s, i); }
  }

  // ---------- What decoding keeps ----------

  /** Lanes below `n` that a sign mask negates. */
  function Negated(signs: nat, n: nat): nat {
    if n == 0 then 0 else Negated(signs, n - 1) + Bit(signs, n - 1)
  }

  lemma {:induction false} NegatedIsOnes(signs: nat, n: nat)
    ensures Negated(signs, n) == Ones(signs, n)
    decreases n
  {
    if n > 0 {
      NegatedTail(signs, n);
      NegatedIsOnes(signs / 2, n - 1);
    }
  }

  lemma {:induction false} NegatedTail(signs: nat, n: nat)
    requires n > 0
    ensures Negated(signs, n) == signs % 2 + Negated(signs / 2, n - 1)
  {
    if n > 1 { NegatedTail(signs, n - 1); } else { assert Negated(signs, 0) == 0; }
  }

  /** Every group negates an even number of its eight lanes. */
  lemma EvenNegations(packed: Packed, group: nat)
    requires group < 4
    ensures Negated(Signs(packed, group), 8) % 2 == 0
  {
    SignMaskEven(Shift(packed.signsAndScale, 7 * group) % 128);
    NegatedIsOnes(Signs(packed, group), 8);
  }

  /** The magnitude total of a subblock, from its indices alone. */
  function IndexTotal(grid: seq<seq<int>>, indices: seq<Byte>): nat {
    if indices == [] || |grid| != 256 then 0
    else IndexTotal(grid, indices[..|indices| - 1]) + Magnitudes(grid[indices[|indices| - 1]])
  }

  /** Whatever the signs, a decoded subblock has the magnitudes of its grid entries. */
  lemma DecodedTotal(grid: seq<seq<int>>, b: PackedBlock, s: nat)
    requires IsGrid(grid) && IsPacked(b) && s < 8
    ensures SubMagnitude(Decode(grid, b), s) == IndexTotal(grid, b.subblocks[s].indices)
  {
    var packed := b.subblocks[s];
    var part := seq(32, i requires 0 <= i < 32 => Decoded(grid, packed, i));
    DecodedPart(grid, b, s, part);
    GroupTotals(grid, packed, part, 4);
    assert part[..32] == part && packed.indices[..4] == packed.indices;
  }

  lemma {:induction false} GroupTotals(grid: seq<seq<int>>, packed: Packed, part: seq<Int8>, groups: nat)
    requires IsGrid(grid) && |packed.indices| == 4 && groups <= 4
    requires |part| == 32 && forall i: nat :: i < 32 ==> part[i] == Decoded(grid, packed, i)
    ensures Magnitudes(part[..8 * groups]) == IndexTotal(grid, packed.indices[..groups])
  {
    hide Decoded, Magnitude;
    if groups > 0 {
      var g := groups - 1;
      GroupTotals(grid, packed, part, g);
      GroupTotal(grid, packed, part, g);
      MagnitudesConcat(part[..8 * g], part[8 * g..8 * g + 8]);
      assert part[..8 * groups] == part[..8 * g] + part[8 * g..8 * g + 8];
      assert packed.indices[..groups][..g] == packed.indices[..g];
    }
  }

  lemma GroupTotal(grid: seq<seq<int>>, packed: Packed, part: seq<Int8>, g: nat)
    requires IsGrid(grid) && |packed.indices| == 4 && g < 4
    requires |part| == 32 && forall i: nat :: i < 32 ==> part[i] == Decoded(grid, packed, i)
    ensures Magnitudes(part[8 * g..8 * g + 8]) == Magnitudes(grid[packed.indices[g]])
  {
    var entry, lanes := grid[packed.indices[g]], part[8 * g..8 * g + 8];
    assert IsEntry(entry);
    forall l: nat | l < 8 ensures Magnitude(lanes[l]) == Magnitude(entry[l]) { LaneMagnitude(grid, packed, g, l); }
    SameMagnitudes(lanes, entry);
  }

  lemma LaneMagnitude(grid: seq<seq<int>>, packed: Packed, g: nat, l: nat)
    requires IsGrid(grid) && |packed.indices| == 4 && g < 4 && l < 8
    ensures IsEntry(grid[packed.indices[g]])
            && Magnitude(Decoded(grid, packed, 8 * g + l)) == Magnitude(grid[packed.indices[g]][l])
  {
    ModUnique(8 * g + l, 8, g, l);
  }

  lemma {:induction false} SameMagnitudes(x: seq<int>, y: seq<int>)
    requires |x| == |y| && forall i: nat :: i < |x| ==> Magnitude(x[i]) == Magnitude(y[i])
    ensures Magnitudes(x) == Magnitudes(y)
  {
    if x != [] { SameMagnitudes(x[..|x| - 1], y[..|y| - 1]); }
  }

  lemma {:induction false} MagnitudesConcat(x: seq<int>, y: seq<int>)
    ensures Magnitudes(x + y) == Magnitudes(x) + Magnitudes(y)
  {
    if y == [] {
      assert x + y == x;
    } else {
      MagnitudesConcat(x, y[..|y| - 1]);
      assert (x + y)[..|x + y| - 1] == x + y[..|y| - 1];
    }
  }

  // ---------- Subblock sums ----------

  /** Multiples of 65536 that wrapping drops. */
  function Carry(x: int): int { (x + 0x8000) / 0x1_0000 }

  /** Wrapping keeps a value exactly when it fits in 16 bits. */
  lemma WrapMeaning(x: int)
    ensures x == Wrap16(x) + 0x1_0000 * Carry(x)
    ensures Wrap16(x) == x <==> -0x8000 <= x < 0x8000
  {}

  lemma WrapAdds(x: int, y: int)
    ensures Wrap16(Wrap16(x) + y) == Wrap16(x + y)
  {
    WrapMeaning(x);
    var c := Carry(x);
    var d := Carry(Wrap16(x) + y);
    ModUnique(x + y + 0x8000, 0x1_0000, d + c, Wrap16(Wrap16(x) + y) + 0x8000);
  }

  function SubDot(a: Q8K, w: W2, s: nat): int
    requires Activation(a) && Weight(w) && s < 8
  {
    Dot(a.qs[32 * s..32 * s + 32], w.values[32 * s..32 * s + 32])
  }

  /** What the kernels compute for a block: wrapped subblock sums times scales. */
  function KernelBlock(a: Q8K, w: W2, s: nat): int
    requires Activation(a) && Weight(w) && s <= 8
  {
    if s == 0 then 0 else KernelBlock(a, w, s - 1) + w.scales[s - 1] * Wrap16(SubDot(a, w, s - 1))
  }

  /** The reference integer sum. */
  function ExactBlock(a: Q8K, w: W2, s: nat): int
    requires Activation(a) && Weight(w) && s <= 8
  {
    if s == 0 then 0 else ExactBlock(a, w, s - 1) + w.scales[s - 1] * SubDot(a, w, s - 1)
  }

  function Carries(a: Q8K, w: W2, s: nat): int
    requires Activation(a) && Weight(w) && s <= 8
  {
    if s == 0 then 0 else Carries(a, w, s - 1) + w.scales[s - 1] * Carry(SubDot(a, w, s - 1))
  }

  /** The 32-bit block sum never wraps. */
  lemma {:induction false} KernelBlockFits(a: Q8K, w: W2, s: nat)
    requires Activation(a) && Weight(w) && s <= 8
    ensures -1015808 * s <= KernelBlock(a, w, s) <= 1015808 * s
  {
    if s > 0 {
      KernelBlockFits(a, w, s - 1);
      ScaledBound(w.scales[s - 1], Wrap16(SubDot(a, w, s - 1)));
    }
  }

  lemma ScaledBound(scale: int, x: int)
    requires 1 <= scale <= 31 && -0x8000 <= x < 0x8000
    ensures -1015808 <= scale * x <= 1015808
  {
    if x >= 0 { ScaledUpTo(scale, x); } else { ScaledUpTo(scale, -x); }
  }

  lemma ScaledUpTo(scale: nat, x: nat)
    requires scale <= 31
    ensures 0 <= scale * x <= 31 * x
  {
    assert 0 <= (31 - scale) * x;
    assert (31 - scale) * x == 31 * x - scale * x;
  }

  /** How far a kernel block is from the reference, exactly. */
  lemma {:induction false} BlockDifference(a: Q8K, w: W2, s: nat)
    requires Activation(a) && Weight(w) && s <= 8
    ensures ExactBlock(a, w, s) == KernelBlock(a, w, s) + 0x1_0000 * Carries(a, w, s)
  {
    if s > 0 {
      BlockDifference(a, w, s - 1);
      WrapMeaning(SubDot(a, w, s - 1));
      Spread(w.scales[s - 1], Wrap16(SubDot(a, w, s - 1)), Carry(SubDot(a, w, s - 1)));
    }
  }

  lemma Spread(k: int, x: int, c: int)
    ensures k * (x + 0x1_0000 * c) == k * x + 0x1_0000 * (k * c)
  {}

  /** Every subblock sum fits in 16 bits. */
  ghost predicate Fits(a: Q8K, w: W2)
    requires Activation(a) && Weight(w)
  {
    forall s: nat :: s < 8 ==> -0x8000 <= SubDot(a, w, s) < 0x8000
  }

  lemma {:induction false} FitsAgrees(a: Q8K, w: W2, s: nat)
    requires Activation(a) && Weight(w) && Fits(a, w) && s <= 8
    ensures KernelBlock(a, w, s) == ExactBlock(a, w, s)
  {
    if s > 0 {
      FitsAgrees(a, w, s - 1);
      WrapMeaning(SubDot(a, w, s - 1));
    }
  }

  function Magnitude(x: int): nat { if x < 0 then -x else x }

  function Magnitudes(x: seq<int>): nat {
    if x == [] then 0 else Magnitudes(x[..|x| - 1]) + Magnitude(x[|x| - 1])
  }

  lemma {:induction false} DotWithin(a: seq<int>, w: seq<int>)
    requires |a| == |w| && forall i :: 0 <= i < |a| ==> -127 <= a[i] <= 127
    ensures -127 * Magnitudes(w) <= Dot(a, w) <= 127 * Magnitudes(w)
  {
    if a != [] {
      var n := |a| - 1;
      DotWithin(a[..n], w[..n]);
      OneWithin(a[n], w[n]);
    }
  }

  lemma OneWithin(a: int, w: int)
    requires -127 <= a <= 127
    ensures -127 * Magnitude(w) <= a * w <= 127 * Magnitude(w)
  {
    var k := Magnitude(w);
    assert 0 <= (127 - a) * k && 0 <= (127 + a) * k;
    assert (127 - a) * k == 127 * k - a * k && (127 + a) * k == 127 * k + a * k;
    assert a * w == a * k || a * w == -(a * k);
  }

  /** Activations as the quantizer leaves them. */
  predicate Codes(a: Q8K) {
    Activation(a) && forall i :: 0 <= i < 256 ==> -127 <= a.qs[i] <= 127
  }

  /** The magnitude total of subblock `s`. */
  function SubMagnitude(w: W2, s: nat): nat
    requires Weight(w) && s < 8
  {
    Magnitudes(w.values[32 * s..32 * s + 32])
  }

  /** No subblock's magnitudes total more than 258. */
  predicate Small(w: W2)
    requires Weight(w)
  {
    forall s: nat :: s < 8 ==> SubMagnitude(w, s) <= 258
  }

  /** A magnitude total of 258 a subblock is enough, with codes within 127. */
  lemma SmallWeightsFit(a: Q8K, w: W2)
    requires Codes(a) && Weight(w) && Small(w)
    ensures Fits(a, w)
  {
    forall s: nat | s < 8 ensures -0x8000 <= SubDot(a, w, s) < 0x8000 {
      assert SubMagnitude(w, s) <= 258;
      DotWithin(a.qs[32 * s..32 * s + 32], w.values[32 * s..32 * s + 32]);
    }
  }

  /** The largest codes with the signs of subblock `s`, zeros elsewhere. */
  function Worst(w: W2, s: nat): (a: Q8K)
    requires Weight(w) && s < 8
    ensures Codes(a)
  {
    Q8K(1.0, seq(256, i requires 0 <= i < 256 => if i / 32 != s then 0 else if w.values[i] < 0 then -127 else 127))
  }

  lemma {:induction false} WorstDot(a: seq<int>, w: seq<int>)
    requires |a| == |w| && forall i :: 0 <= i < |a| ==> a[i] == if w[i] < 0 then -127 else 127
    ensures Dot(a, w) == 127 * Magnitudes(w)
  {
    if a != [] { WorstDot(a[..|a| - 1], w[..|w| - 1]); }
  }

  lemma WorstSums(w: W2, s: nat, t: nat)
    requires Weight(w) && s < 8 && t < 8
    ensures SubDot(Worst(w, s), w, t) == if t == s then 127 * SubMagnitude(w, s) else 0
  {
    var a, v := Worst(w, s).qs[32 * t..32 * t + 32], w.values[32 * t..32 * t + 32];
    forall i | 0 <= i < 32 ensures a[i] == (if t != s then 0 else if v[i] < 0 then -127 else 127) {
      ModUnique(32 * t + i, 32, t, i);
    }
    if t == s { WorstDot(a, v); } else { ZeroDot(a, v); }
  }

  lemma {:induction false} ZeroDot(x: seq<int>, y: seq<int>)
    requires |x| == |y| && forall i :: 0 <= i < |x| ==> x[i] == 0
    ensures Dot(x, y) == 0
  {
    if x != [] { ZeroDot(x[..|x| - 1], y[..|y| - 1]); }
  }

  /** The carries of a block whose activations are zero outside subblock `s`. */
  lemma {:induction false} OnlyCarry(a: Q8K, w: W2, s: nat, n: nat)
    requires Activation(a) && Weight(w) && s < 8 && n <= 8
    requires forall t: nat :: t < 8 && t != s ==> SubDot(a, w, t) == 0
    ensures Carries(a, w, n) == if s < n then w.scales[s] * Carry(SubDot(a, w, s)) else 0
  {
    if n > 0 {
      OnlyCarry(a, w, s, n - 1);
      if n - 1 != s { assert Carry(0) == 0; }
    }
  }

  lemma WorstCarries(w: W2, s: nat)
    requires Weight(w) && s < 8 && SubMagnitude(w, s) > 258
    ensures Carries(Worst(w, s), w, 8) > 0
  {
    var a := Worst(w, s);
    forall t: nat | t < 8
      ensures SubDot(a, w, t) == if t == s then 127 * SubMagnitude(w, s) else 0
    {
      WorstSums(w, s, t);
    }
    OnlyCarry(a, w, s, 8);
    LargeCarry(SubDot(a, w, s));
    AtLeastOne(w.scales[s], Carry(SubDot(a, w, s)));
  }

  lemma LargeCarry(x: int)
    requires x >= 0x8000
    ensures Carry(x) >= 1
  {}

  lemma AtLeastOne(x: int, y: int)
    requires x >= 1 && y >= 1
    ensures x * y >= 1
  {
    assert (x - 1) * y >= 0;
  }

  /** When a weight block is safe: the kernels give the reference's sum for all
      activations exactly when no subblock's magnitudes total more than 258. */
  lemma AgreesForAll(w: W2)
    requires Weight(w)
    ensures (forall a: Q8K :: Codes(a) ==> KernelBlock(a, w, 8) == ExactBlock(a, w, 8)) <==> Small(w)
  {
    if Small(w) {
      forall a: Q8K | Codes(a) ensures KernelBlock(a, w, 8) == ExactBlock(a, w, 8) {
        SmallWeightsFit(a, w);
        FitsAgrees(a, w, 8);
      }
    } else {
      var s: nat :| s < 8 && SubMagnitude(w, s) > 258;
      WorstCarries(w, s);
      BlockDifference(Worst(w, s), w, 8);
      assert Codes(Worst(w, s));
    }
  }

  /** Three lanes of 43 and five of 8: 0x08080808082b2b2b, lowest byte first. */
  const ENTRY: seq<int> := [43, 43, 43, 8, 8, 8, 8, 8]

  /** The grid's own entries do overflow: four copies of entry 10 have total
      magnitude 676, and activations of 127 lose a carry in every subblock. */
  lemma GridOverflows(grid: seq<seq<int>>) returns (b: PackedBlock, a: Q8K)
    requires IsGrid(grid) && grid[10] == ENTRY
    ensures IsPacked(b) && Codes(a) && forall s :: 0 <= s < 8 ==> b.subblocks[s] == Packed([10, 10, 10, 10], 0)
    ensures !Small(Decode(grid, b))
    ensures ExactBlock(a, Decode(grid, b), 8) == 8 * 85852 && KernelBlock(a, Decode(grid, b), 8) == 8 * 20316
  {
    var packed := Packed([10, 10, 10, 10], 0);
    b, a := PackedBlock(1.0, seq(8, _ => packed)), Q8K(1.0, seq(256, _ => 127));
    var w := Decode(grid, b);
    EntryTotal();
    FourTotals(grid);
    hide Decode, SubDot, ExactBlock, KernelBlock;
    forall s: nat | s < 8 ensures SubDot(a, w, s) == 85852 && w.scales[s] == 1 { OverflowsAt(grid, b, a, s); }
    DecodedTotal(grid, b, 0);
    EqualBlocks(a, w, 8);
  }

  lemma OverflowsAt(grid: seq<seq<int>>, b: PackedBlock, a: Q8K, s: nat)
    requires IsGrid(grid) && IsPacked(b) && s < 8 && IndexTotal(grid, [10, 10, 10, 10]) == 676
    requires b.subblocks[s] == Packed([10, 10, 10, 10], 0) && a.qs == seq(256, _ => 127)
    ensures SubDot(a, Decode(grid, b), s) == 85852 && Decode(grid, b).scales[s] == 1
  {
    var w := Decode(grid, b);
    DecodedTotal(grid, b, s);
    Positive(grid, b, s);
    WorstDot(a.qs[32 * s..32 * s + 32], w.values[32 * s..32 * s + 32]);
    ShiftZero(28);
  }

  lemma EntryTotal()
    ensures Magnitudes(ENTRY) == 169
  {
    assert ENTRY[..7] == [43, 43, 43, 8, 8, 8, 8] && ENTRY[..7][..6] == [43, 43, 43, 8, 8, 8];
    assert ENTRY[..6][..5] == [43, 43, 43, 8, 8] && ENTRY[..5][..4] == [43, 43, 43, 8];
    assert ENTRY[..4][..3] == [43, 43, 43] && ENTRY[..3][..2] == [43, 43] && ENTRY[..2][..1] == [43];
    PrefixTotal(ENTRY, 8);
    PrefixTotal(ENTRY, 7);
    PrefixTotal(ENTRY, 6);
    PrefixTotal(ENTRY, 5);
    PrefixTotal(ENTRY, 4);
    PrefixTotal(ENTRY, 3);
    PrefixTotal(ENTRY, 2);
    PrefixTotal(ENTRY, 1);
  }

  lemma PrefixTotal(x: seq<int>, n: nat)
    requires 0 < n <= |x|
    ensures Magnitudes(x[..n]) == Magnitudes(x[..n - 1]) + Magnitude(x[n - 1])
    ensures x[..|x|] == x && Magnitudes(x[..0]) == 0
  {
    assert x[..n][..n - 1] == x[..n - 1];
  }

  lemma FourTotals(grid: seq<seq<int>>)
    requires IsGrid(grid) && grid[10] == ENTRY && Magnitudes(ENTRY) == 169
    ensures IndexTotal(grid, [10, 10, 10, 10]) == 676
  {
    var x: seq<Byte> := [10, 10, 10, 10];
    assert x[..3] == [10, 10, 10] && x[..3][..2] == [10, 10] && x[..2][..1] == [10] && x[..1][..0] == [];
    assert IndexTotal(grid, [10]) == 169;
    assert IndexTotal(grid, [10, 10]) == 338;
    assert IndexTotal(grid, [10, 10, 10]) == 507;
  }

  lemma {:induction false} ShiftZero(bits: nat)
    ensures Shift(0, bits) == 0
  {
    if bits > 0 { ShiftZero(bits - 1); }
  }

  lemma {:induction false} BitZero(i: nat)
    ensures Bit(0, i) == 0
  {
    if i > 0 { BitZero(i - 1); }
  }

  lemma Positive(grid: seq<seq<int>>, b: PackedBlock, s: nat)
    requires IsGrid(grid) && IsPacked(b) && s < 8 && b.subblocks[s].signsAndScale == 0
    ensures var v := Decode(grid, b).values[32 * s..32 * s + 32]; forall i :: 0 <= i < 32 ==> v[i] >= 0
  {
    var v := Decode(grid, b).values[32 * s..32 * s + 32];
    forall i | 0 <= i < 32 ensures v[i] >= 0 {
      ModUnique(32 * s + i, 32, s, i);
      ShiftZero(7 * (i / 8));
      NoSigns();
      BitZero(i % 8);
      assert IsEntry(grid[b.subblocks[s].indices[i / 8]]);
    }
  }

  lemma NoSigns()
    ensures SignMask(0) == 0
  {
    NoOnes(8);
  }

  lemma {:induction false} NoOnes(n: nat)
    ensures Ones(0, n) == 0
  {
    if n > 0 { NoOnes(n - 1); }
  }

  lemma {:induction false} EqualBlocks(a: Q8K, w: W2, s: nat)
    requires Activation(a) && Weight(w) && s <= 8
    requires forall t: nat :: t < 8 ==> SubDot(a, w, t) == 85852 && w.scales[t] == 1
    ensures ExactBlock(a, w, s) == s * 85852 && KernelBlock(a, w, s) == s * 20316
  {
    if s > 0 {
      EqualBlocks(a, w, s - 1);
      assert SubDot(a, w, s - 1) == 85852;
    }
  }
}
