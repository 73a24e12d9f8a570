/** The RVV kernels, RVV-group (12 rows, activations read as 64-bit words) and
    RVV-my (8 rows): 16-bit accumulators over interleaved operands, with the next
    weight register always loaded one step ahead. */
module RvvKernel {
  import opened BitArithmetic
  import opened Floats
  import opened Quantized
  import opened VectorUnit
  import opened Quantizers
  import opened Reduction

  /** Rows of a tile: 12 for RVV-group, 8 for RVV-my. */
  type Rows = x: nat | x == 8 || x == 12 witness 8

  datatype ABlock = ABlock(qs: seq<Int8>, d: seq<real>)
  datatype BBlock = BBlock(qs: seq<Byte>, d: seq<real>)

  // ---------- Interleaved operands ----------

  /** Place of row `row`'s code for byte step `z`: low half first, then high. */
  function Place(mr: Rows, z: nat, half: nat, row: nat): nat {
    if mr == 8 then 16 * z + 8 * half + row else 24 * z + 12 * half + row
  }

  lemma PlaceInjective(mr: Rows, z: nat, h: nat, row: nat, y: nat, g: nat, r: nat)
    requires h < 2 && g < 2 && row < mr && r < mr && z < 16 && y < 16
    ensures Place(mr, z, h, row) < 32 * mr
    ensures Place(mr, z, h, row) == Place(mr, y, g, r) ==> (z, h, row) == (y, g, r)
  {}

  ghost predicate ACode(qs: seq<Int8>, mr: Rows, rows: seq<Q8>, z: nat, half: nat, row: nat)
    requires |rows| == mr && z < 16 && half < 2 && row < mr
  {
    Place(mr, z, half, row) < |qs| && qs[Place(mr, z, half, row)] == rows[row].qs[z + 16 * half]
  }

  ghost predicate AInterleaved(a: ABlock, mr: Rows, rows: seq<Q8>) {
    && |rows| == mr && |a.qs| == 32 * mr && |a.d| == mr
    && (forall row: nat :: row < mr ==> a.d[row] == rows[row].d)
    && (forall z: nat, half: nat, row: nat :: z < 16 && half < 2 && row < mr ==> ACode(a.qs, mr, rows, z, half, row))
  }

  ghost predicate BCode(qs: seq<Byte>, columns: seq<Q4>, z: nat, x: nat)
    requires |columns| == 32 && z < 16 && x < 32
  {
    32 * z + x < |qs| && qs[32 * z + x] == columns[x].qs[z]
  }

  ghost predicate BInterleaved(b: BBlock, columns: seq<Q4>) {
    && |columns| == 32 && |b.qs| == 512 && |b.d| == 32
    && (forall x: nat :: x < 32 ==> b.d[x] == columns[x].d)
    && (forall z: nat, x: nat :: z < 16 && x < 32 ==> BCode(b.qs, columns, z, x))
  }

  // ---------- Reading activations ----------

  /** A signed byte as stored, and a stored byte as a signed one. */
  function Stored(x: Int8): (r: nat)
    ensures r < 256
  {
    if x < 0 then x + 256 else x
  }

  function Signed(b: nat): (r: Int8)
    requires b < 256
    ensures forall x: Int8 :: Stored(x) == b ==> r == x
  {
    if b < 128 then b else b - 256
  }

  /** A little-endian word. */
  function Word(bytes: seq<Int8>): nat {
    if bytes == [] then 0 else Stored(bytes[0]) + 256 * Word(bytes[1..])
  }

  /** `(word >> (8 * i)) & 0xff`. */
  function ByteOf(word: nat, i: nat): (r: nat)
    ensures r < 256
  {
    if i == 0 then word % 256 else ByteOf(word / 256, i - 1)
  }

  lemma {:induction false} WordByte(bytes: seq<Int8>, i: nat)
    requires i < |bytes|
    ensures Signed(ByteOf(Word(bytes), i)) == bytes[i]
  {
    var w, low, rest := Word(bytes), Stored(bytes[0]), Word(bytes[1..]);
    assert w == low + 256 * rest && w % 256 == low && w / 256 == rest;
    if i > 0 { WordByte(bytes[1..], i - 1); }
  }

  /** The code a multiply of step `z` reads: a byte, or a byte of a 64-bit word. */
  method ReadCode(a: ABlock, mr: Rows, z: nat, half: nat, row: nat, ghost rows: seq<Q8>) returns (code: Int8)
    requires AInterleaved(a, mr, rows) && z < 16 && half < 2 && row < mr
    ensures code == rows[row].qs[z + 16 * half]
  {
    assert ACode(a.qs, mr, rows, z, half, row);
    if mr == 8 {
      code := a.qs[z * 16 + 8 * half + row];
    } else {
      var at := 12 * half + row;
      var word, i := 3 * z + at / 8, at % 8;
      var bytes := a.qs[8 * word..8 * word + 8];
      WordByte(bytes, i);
      assert 8 * word + i == 24 * z + at;
      code := Signed(ByteOf(Word(bytes), i));
    }
  }

  // ---------- Sixteen-bit sums ----------

  /** `vwmul` and `vwmacc` on 16-bit lanes (section 11.14 of the RISC-V Vector
      Extension 1.0). */
  function Vwmul(v: seq<int>, scalar: int): (r: seq<int>)
    ensures |r| == |v|
  {
    seq(|v|, x requires 0 <= x < |v| => scalar * v[x])
  }

  function Vwmacc(acc: seq<int>, scalar: int, v: seq<int>): (r: seq<int>)
    requires |acc| == |v|
    ensures |r| == |acc|
  {
    seq(|acc|, x requires 0 <= x < |acc| => Wrap16(acc[x] + scalar * v[x]))
  }

  /** What a lane holds after `n` products: their exact sum, which fits. */
  ghost predicate LaneHolds(lane: int, sum: int, n: nat) {
    lane == sum && -1016 * n <= sum <= 1016 * n
  }

  lemma LaneStep(lane: int, sum: int, n: nat, a: int, w: int)
    requires LaneHolds(lane, sum, n) && n < 32 && -127 <= a <= 127 && -8 <= w <= 7
    ensures LaneHolds(Wrap16(lane + a * w), sum + a * w, n + 1)
  {
    CodeTimesWeight(a, w);
  }

  lemma CodeTimesWeight(a: int, w: int)
    requires -127 <= a <= 127 && -8 <= w <= 7
    ensures -1016 <= a * w <= 1016
  {
    var k := if w < 0 then -w else w;
    MulOrder(a, 127, k);
    MulOrder(-127, a, k);
    assert a * w == if w < 0 then -(a * k) else a * k;
  }

  /** Lane `x` of row `row` after byte step `z`, and `half` of the next. */
  function SumTo(w: Q4, a: Q8, z: nat, half: nat): int
    requires z <= 16 && (half == 0 || (half == 1 && z < 16))
  {
    PartialDot(w, a, z) + if half == 0 then 0 else LowNibble(w.qs[z]) * a.qs[z]
  }

  ghost predicate RowHolds(sums: seq<int>, row: Q8, columns: seq<Q4>, z: nat, half: nat)
    requires |columns| == 32 && z <= 16 && (half == 0 || (half == 1 && z < 16))
  {
    |sums| == 32 && forall x: nat :: x < 32 ==> LaneHolds(sums[x], SumTo(columns[x], row, z, half), 2 * z + half)
  }

  /** The unpacked nibbles of a weight register. */
  ghost predicate Unpacked(v: seq<int>, columns: seq<Q4>, z: nat, half: nat)
    requires |columns| == 32 && z < 16
  {
    |v| == 32 && forall x: nat :: x < 32 ==>
        v[x] == if half == 0 then LowNibble(columns[x].qs[z]) else HighNibble(columns[x].qs[z])
  }

  lemma RowStep(sums: seq<int>, row: Q8, columns: seq<Q4>, z: nat, half: nat, code: int, v: seq<int>)
    requires |columns| == 32 && z < 16 && half < 2 && InRange(row) && RowHolds(sums, row, columns, z, half)
    requires code == row.qs[z + 16 * half] && Unpacked(v, columns, z, half)
    ensures if half == 0 then RowHolds(Vwmacc(sums, code, v), row, columns, z, 1)
            else RowHolds(Vwmacc(sums, code, v), row, columns, z + 1, 0)
  {
    var next := Vwmacc(sums, code, v);
    forall x: nat | x < 32
      ensures if half == 0 then LaneHolds(next[x], SumTo(columns[x], row, z, 1), 2 * z + 1)
              else LaneHolds(next[x], SumTo(columns[x], row, z + 1, 0), 2 * z + 2)
    {
      ColumnStep(sums[x], columns[x], row, z, half, code, v[x]);
    }
  }

  lemma ColumnStep(lane: int, column: Q4, row: Q8, z: nat, half: nat, code: int, w: int)
    requires z < 16 && half < 2 && InRange(row) && code == row.qs[z + 16 * half]
    requires w == if half == 0 then LowNibble(column.qs[z]) else HighNibble(column.qs[z])
    requires LaneHolds(lane, SumTo(column, row, z, half), 2 * z + half)
    ensures if half == 0 then LaneHolds(Wrap16(lane + code * w), SumTo(column, row, z, 1), 2 * z + 1)
            else LaneHolds(Wrap16(lane + code * w), SumTo(column, row, z + 1, 0), 2 * z + 2)
  {
    var b: int := column.qs[z];
    LaneStep(lane, SumTo(column, row, z, half), 2 * z + half, code, w);
    if half == 0 { FirstHalf(column, row, z); } else { SecondHalf(column, row, z); }
  }

  lemma FirstHalf(column: Q4, row: Q8, z: nat)
    requires z < 16
    ensures SumTo(column, row, z, 1) == SumTo(column, row, z, 0) + row.qs[z] * LowNibble(column.qs[z])
  {}

  lemma SecondHalf(column: Q4, row: Q8, z: nat)
    requires z < 16
    ensures SumTo(column, row, z + 1, 0) == SumTo(column, row, z, 1) + row.qs[z + 16] * HighNibble(column.qs[z])
  {
    PartialDotNext(column, row, z);
  }

  lemma NoProducts(w: Q4, a: Q8)
    ensures SumTo(w, a, 0, 0) == 0
  {}

  /** The first product is a plain widening multiply. */
  lemma FirstStep(row: Q8, columns: seq<Q4>, code: int, v: seq<int>)
    requires |columns| == 32 && InRange(row) && code == row.qs[0] && Unpacked(v, columns, 0, 0)
    ensures RowHolds(Vwmul(v, code), row, columns, 0, 1)
  {
    var sums := Vwmul(v, code);
    forall x: nat | x < 32 ensures LaneHolds(sums[x], SumTo(columns[x], row, 0, 1), 1) {
      var b: int := columns[x].qs[0];
      CodeTimesWeight(code, v[x]);
      NoProducts(columns[x], row);
    }
  }

  /** All rows of a tile. */
  ghost predicate TileHolds(sums: seq<seq<int>>, rows: seq<Q8>, columns: seq<Q4>, z: nat, half: nat)
    requires |columns| == 32 && z <= 16 && (half == 0 || (half == 1 && z < 16))
  {
    |sums| == |rows| && forall r: nat :: r < |rows| ==> RowHolds(sums[r], rows[r], columns, z, half)
  }

  lemma RegisterUnpacked(b: BBlock, columns: seq<Q4>, z: nat)
    requires BInterleaved(b, columns) && z < 16
    ensures Unpacked(Low(b.qs[32 * z..32 * z + 32]), columns, z, 0)
            && Unpacked(High(b.qs[32 * z..32 * z + 32]), columns, z, 1)
  {
    forall x: nat | x < 32
      ensures b.qs[32 * z..32 * z + 32][x] == columns[x].qs[z]
    {
      assert BCode(b.qs, columns, z, x);
    }
  }

  /** The multiplies of one half of a byte step, row after row. */
  method AccumulateHalf(sums: seq<seq<int>>, a: ABlock, mr: Rows, v: seq<int>, z: nat, half: nat, ghost rows: seq<Q8>,
                        ghost columns: seq<Q4>) returns (next: seq<seq<int>>)
    requires AInterleaved(a, mr, rows) && |columns| == 32 && z < 16 && half < 2 && Unpacked(v, columns, z, half)
    requires (forall r: nat :: r < mr ==> InRange(rows[r]))
             && (z > 0 || half > 0 ==> TileHolds(sums, rows, columns, z, half))
    ensures if half == 0 then TileHolds(next, rows, columns, z, 1) else TileHolds(next, rows, columns, z + 1, 0)
  {
    next := [];
    ghost var y, h := if half == 0 then z else z + 1, 1 - half;
    for r := 0 to mr
      invariant |next| == r && forall i: nat :: i < r ==> RowHolds(next[i], rows[i], columns, y, h)
    {
      var code := ReadCode(a, mr, z, half, r, rows);
      var row: seq<int>;
      if z == 0 && half == 0 {
        row := Vwmul(v, code);
        FirstStep(rows[r], columns, code, v);
      } else {
        assert RowHolds(sums[r], rows[r], columns, z, half);
        row := Vwmacc(sums[r], code, v);
        RowStep(sums[r], rows[r], columns, z, half, code, v);
      }
      next := next + [row];
    }
  }

  /** Both halves of byte step `z` on the weights in `src`. */
  method AccumulateStep(sums: seq<seq<int>>, a: ABlock, mr: Rows, src: seq<Byte>, z: nat, ghost b: BBlock,
                        ghost rows: seq<Q8>, ghost columns: seq<Q4>) returns (next: seq<seq<int>>)
    requires AInterleaved(a, mr, rows) && BInterleaved(b, columns) && z < 16 && src == b.qs[32 * z..32 * z + 32]
    requires (forall r: nat :: r < mr ==> InRange(rows[r])) && (z > 0 ==> TileHolds(sums, rows, columns, z, 0))
    ensures TileHolds(next, rows, columns, z + 1, 0)
  {
    RegisterUnpacked(b, columns, z);
    next := AccumulateHalf(sums, a, mr, Low(src), z, 0, rows, columns);
    next := AccumulateHalf(next, a, mr, High(src), z, 1, rows, columns);
  }

  /** The prefetch pipeline of one block: the register used in step `z` was loaded
      in step `z - 1`, and no step loads past the block. */
  method BlockSums(a: ABlock, b: BBlock, mr: Rows, ghost rows: seq<Q8>, ghost columns: seq<Q4>)
    returns (sums: seq<seq<int>>)
    requires AInterleaved(a, mr, rows) && BInterleaved(b, columns) && forall r: nat :: r < mr ==> InRange(rows[r])
    ensures TileHolds(sums, rows, columns, 16, 0)
  {
    var src, prefetch := b.qs[0..32], b.qs[32..64];
    sums := AccumulateStep([], a, mr, src, 0, b, rows, columns);
    for z := 1 to 15
      invariant prefetch == b.qs[32 * z..32 * z + 32] && TileHolds(sums, rows, columns, z, 0)
    {
      src := prefetch;
      prefetch := b.qs[(z + 1) * 32..(z + 1) * 32 + 32];
      sums := AccumulateStep(sums, a, mr, src, z, b, rows, columns);
    }
    src := prefetch;
    sums := AccumulateStep(sums, a, mr, src, 15, b, rows, columns);
  }

  /** After all sixteen steps every lane is the reference integer sum, and it
      never left 16 bits. */
  lemma SumsAreBlockDots(sums: seq<seq<int>>, rows: seq<Q8>, columns: seq<Q4>, r: nat, x: nat)
    requires |columns| == 32 && TileHolds(sums, rows, columns, 16, 0) && r < |rows| && x < 32
    ensures |sums[r]| == 32 && sums[r][x] == BlockDot(columns[x], rows[r]) && -32512 <= sums[r][x] <= 32512
  {
    assert RowHolds(sums[r], rows[r], columns, 16, 0);
    assert LaneHolds(sums[r][x], SumTo(columns[x], rows[r], 16, 0), 32);
    BlockDotHalves(columns[x], rows[r]);
    assert rows[r].qs[..16][..16] == rows[r].qs[..16] && rows[r].qs[16..][..16] == rows[r].qs[16..];
    assert Low(columns[x].qs)[..16] == Low(columns[x].qs) && High(columns[x].qs)[..16] == High(columns[x].qs);
  }
}
