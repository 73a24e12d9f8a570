/** What the IME1 (A60) kernels share: the order in which four activation rows
    and groups of weight columns are packed, and the 4x4 block of integer sums
    that four `smt.vmadot` steps produce from them. */
module Ime1Dot {
  import opened BitArithmetic
  import opened Quantized
  import opened VectorUnit

  // ---------- Packed layouts ----------

  /** The eight K values of window `w`. */
  function Window(x: seq<int>, w: nat): (r: seq<int>)
    requires |x| == 32 && w < 4
    ensures |r| == 8
  {
    x[8 * w..8 * w + 8]
  }

  /** Register `w` of four packed activation rows: eight K values of each row. */
  ghost predicate ARegister(reg: seq<Int8>, rows: seq<Q8>, w: nat)
    requires |rows| == 4 && w < 4
  {
    |reg| == 32 && forall r: nat :: r < 4 ==> reg[8 * r..8 * r + 8] == Window(rows[r].qs, w)
  }

  /** Register `w` of four weight columns, unpacked. */
  ghost predicate BRegister(reg: seq<int>, columns: seq<Q4>, w: nat)
    requires |columns| == 4 && w < 4
  {
    |reg| == 32 && Nibbles(reg) && forall c: nat :: c < 4 ==> reg[8 * c..8 * c + 8] == Window(Weights(columns[c]), w)
  }

  /** The output of `quantize_a_4row_i8` for one block: 32-byte chunks by K
      window, eight values of each row in a chunk. */
  function QuantizeA4(rows: seq<Q8>): (qs: seq<Int8>)
    requires |rows| == 4
    ensures |qs| == 128
  {
    seq(128, x requires 0 <= x < 128 => rows[x % 32 / 8].qs[x / 32 * 8 + x % 8])
  }

  lemma QuantizeA4Register(rows: seq<Q8>, w: nat)
    requires |rows| == 4 && w < 4
    ensures ARegister(QuantizeA4(rows)[32 * w..32 * w + 32], rows, w)
  {
    forall r: nat | r < 4
      ensures QuantizeA4(rows)[32 * w..32 * w + 32][8 * r..8 * r + 8] == Window(rows[r].qs, w)
    {
      forall j | 0 <= j < 8 ensures QuantizeA4(rows)[32 * w..32 * w + 32][8 * r..8 * r + 8][j]
          == Window(rows[r].qs, w)[j] {
        QuantizeA4At(rows, w, r, j);
      }
    }
  }

  lemma QuantizeA4At(rows: seq<Q8>, w: nat, r: nat, j: nat)
    requires |rows| == 4 && w < 4 && r < 4 && j < 8
    ensures QuantizeA4(rows)[32 * w + 8 * r + j] == rows[r].qs[8 * w + j]
  {
    var x := 32 * w + 8 * r + j;
    assert x / 32 == w && x % 32 == 8 * r + j;
    assert (8 * r + j) / 8 == r && x % 8 == j;
  }

  /** Two nibbles in a byte: `x | (y << 4)`. */
  function TwoNibbles(x: int, y: int): (b: Byte)
    requires 0 <= x < 16 && 0 <= y < 16
    ensures b % 16 == x && b / 16 == y
  {
    x + 16 * y
  }

  /** Byte `j` of column `c` in plane 0 and in plane 1: the low, and the high,
      nibbles of source bytes `j` and `j + 8`. */
  function PackedByte(c: Q4, plane: nat, j: nat): (b: Byte)
    requires plane < 2 && j < 8
    ensures plane == 0 ==> LowNibble(b) == LowNibble(c.qs[j]) && HighNibble(b) == LowNibble(c.qs[j + 8])
    ensures plane == 1 ==> LowNibble(b) == HighNibble(c.qs[j]) && HighNibble(b) == HighNibble(c.qs[j + 8])
  {
    var x: int, y: int := c.qs[j], c.qs[j + 8];
    if plane == 0 then TwoNibbles(x % 16, y % 16) else TwoNibbles(x / 16, y / 16)
  }

  /** First byte of a plane of `count` columns. */
  function PlaneBase(count: nat, plane: nat): nat
    requires plane < 2
  {
    if plane == 0 then 0 else 8 * count
  }

  /** One K block of packed columns: plane by plane, eight bytes a column. */
  ghost predicate PackedColumns(qs: seq<Byte>, columns: seq<Q4>)
  {
    && |qs| == 16 * |columns|
    && forall plane: nat, n: nat, j: nat :: plane < 2 && n < |columns| && j < 8 ==> PackedAt(qs, columns, plane, n, j)
  }

  ghost predicate PackedAt(qs: seq<Byte>, columns: seq<Q4>, plane: nat, n: nat, j: nat)
    requires |qs| == 16 * |columns| && plane < 2 && n < |columns| && j < 8
  {
    qs[PlaneBase(|columns|, plane) + 8 * n + j] == PackedByte(columns[n], plane, j)
  }

  /** The packed bytes of column group `g` in one plane. */
  function GroupBytes(qs: seq<Byte>, count: nat, plane: nat, g: nat): (r: seq<Byte>)
    requires |qs| == 16 * count && plane < 2 && 4 * g + 4 <= count
    ensures |r| == 32
  {
    qs[PlaneBase(count, plane) + 32 * g..PlaneBase(count, plane) + 32 * g + 32]
  }

  lemma WeightAt(c: Q4, w: nat, j: nat)
    requires w < 4 && j < 8
    ensures Window(Weights(c), w)[j] ==
            if w == 0 then LowNibble(c.qs[j]) else if w == 1 then LowNibble(c.qs[j + 8])
            else if w == 2 then HighNibble(c.qs[j]) else HighNibble(c.qs[j + 8])
  {}

  /** Unpacking the low and the high nibbles of plane `plane` gives windows
      `2 * plane` and `2 * plane + 1`. */
  lemma GroupRegisters(qs: seq<Byte>, columns: seq<Q4>, plane: nat, g: nat)
    requires PackedColumns(qs, columns) && plane < 2 && 4 * g + 4 <= |columns|
    ensures BRegister(Low(GroupBytes(qs, |columns|, plane, g)), columns[4 * g..4 * g + 4], 2 * plane)
    ensures BRegister(High(GroupBytes(qs, |columns|, plane, g)), columns[4 * g..4 * g + 4], 2 * plane + 1)
  {
    var bytes, group := GroupBytes(qs, |columns|, plane, g), columns[4 * g..4 * g + 4];
    NibbleRange(bytes);
    forall c: nat | c < 4 ensures ColumnWindows(bytes, group[c], plane, c) {
      GroupColumn(qs, columns, plane, g, c);
    }
    assert forall c: nat :: c < 4 ==> ColumnWindows(bytes, group[c], plane, c);
  }

  /** Column `c` of a register's bytes holds two of its windows. */
  ghost predicate ColumnWindows(bytes: seq<Byte>, column: Q4, plane: nat, c: nat)
    requires |bytes| == 32 && plane < 2 && c < 4
  {
    && Low(bytes)[8 * c..8 * c + 8] == Window(Weights(column), 2 * plane)
    && High(bytes)[8 * c..8 * c + 8] == Window(Weights(column), 2 * plane + 1)
  }

  lemma GroupColumn(qs: seq<Byte>, columns: seq<Q4>, plane: nat, g: nat, c: nat)
    requires PackedColumns(qs, columns) && plane < 2 && 4 * g + 4 <= |columns| && c < 4
    ensures ColumnWindows(GroupBytes(qs, |columns|, plane, g), columns[4 * g + c], plane, c)
  {
    var bytes, column := GroupBytes(qs, |columns|, plane, g), columns[4 * g + c];
    forall j: nat | j < 8 ensures bytes[8 * c + j] == PackedByte(column, plane, j) {
      GroupByteIs(qs, columns, plane, g, c, j);
    }
    PackedWindows(bytes, column, plane, c);
  }

  lemma GroupByteIs(qs: seq<Byte>, columns: seq<Q4>, plane: nat, g: nat, c: nat, j: nat)
    requires PackedColumns(qs, columns) && plane < 2 && 4 * g + 4 <= |columns| && c < 4 && j < 8
    ensures GroupBytes(qs, |columns|, plane, g)[8 * c + j] == PackedByte(columns[4 * g + c], plane, j)
  {
    var n := 4 * g + c;
    assert PackedAt(qs, columns, plane, n, j);
    GroupByte(qs, PlaneBase(|columns|, plane), g, c, j);
  }

  lemma GroupByte(qs: seq<Byte>, base: int, g: nat, c: nat, j: nat)
    requires 0 <= base && base + 32 * g + 32 <= |qs| && c < 4 && j < 8
    ensures qs[base + 32 * g..base + 32 * g + 32][8 * c + j] == qs[base + 8 * (4 * g + c) + j]
  {}

  lemma PackedWindows(bytes: seq<Byte>, column: Q4, plane: nat, c: nat)
    requires |bytes| == 32 && plane < 2 && c < 4
    requires forall j: nat :: j < 8 ==> bytes[8 * c + j] == PackedByte(column, plane, j)
    ensures ColumnWindows(bytes, column, plane, c)
  {
    var low, high := Low(bytes)[8 * c..8 * c + 8], High(bytes)[8 * c..8 * c + 8];
    forall j: nat | j < 8 ensures NibblePair(low, high, column, plane, j) {
      assert low[j] == LowNibble(bytes[8 * c + j]) && high[j] == HighNibble(bytes[8 * c + j]);
      PairIs(bytes[8 * c + j], column, plane, j);
    }
    Extensional(low, high, column, plane);
  }

  lemma PairIs(b: Byte, column: Q4, plane: nat, j: nat)
    requires plane < 2 && j < 8 && b == PackedByte(column, plane, j)
    ensures LowNibble(b) == Window(Weights(column), 2 * plane)[j]
            && HighNibble(b) == Window(Weights(column), 2 * plane + 1)[j]
  {
    WeightAt(column, 2 * plane, j);
    WeightAt(column, 2 * plane + 1, j);
  }

  lemma Extensional(low: seq<int>, high: seq<int>, column: Q4, plane: nat)
    requires |low| == |high| == 8 && plane < 2
    requires forall j: nat :: j < 8 ==> NibblePair(low, high, column, plane, j)
    ensures low == Window(Weights(column), 2 * plane) && high == Window(Weights(column), 2 * plane + 1)
  {
    var x, y := Window(Weights(column), 2 * plane), Window(Weights(column), 2 * plane + 1);
    forall j: nat | j < 8 ensures low[j] == x[j] { assert NibblePair(low, high, column, plane, j); }
    forall j: nat | j < 8 ensures high[j] == y[j] { assert NibblePair(low, high, column, plane, j); }
  }

  ghost predicate NibblePair(low: seq<int>, high: seq<int>, column: Q4, plane: nat, j: nat)
    requires |low| == |high| == 8 && plane < 2 && j < 8
  {
    low[j] == Window(Weights(column), 2 * plane)[j] && high[j] == Window(Weights(column), 2 * plane + 1)[j]
  }

  // ---------- Four dots ----------

  /** Lane `4 * r + c` is the reference integer sum of row `r` and column `c`. */
  ghost predicate GroupDots(acc: seq<int>, rows: seq<Q8>, columns: seq<Q4>)
    requires |rows| == 4 && |columns| == 4
  {
    |acc| == 16 && forall r: nat, c: nat :: r < 4 && c < 4 ==> GroupDot(acc, rows, columns, r, c)
  }

  ghost predicate GroupDot(acc: seq<int>, rows: seq<Q8>, columns: seq<Q4>, r: nat, c: nat)
    requires |rows| == 4 && |columns| == 4 && |acc| == 16 && r < 4 && c < 4
  {
    acc[4 * r + c] == BlockDot(columns[c], rows[r])
  }

  /** The dot product of the first `n` windows. */
  ghost predicate PartialDots(acc: seq<int>, rows: seq<Q8>, columns: seq<Q4>, n: nat)
    requires |rows| == 4 && |columns| == 4 && n <= 4
  {
    |acc| == 16 && forall r: nat, c: nat :: r < 4 && c < 4 ==> PartialDot4(acc, rows, columns, n, r, c)
  }

  ghost predicate PartialDot4(acc: seq<int>, rows: seq<Q8>, columns: seq<Q4>, n: nat, r: nat, c: nat)
    requires |rows| == 4 && |columns| == 4 && n <= 4 && |acc| == 16 && r < 4 && c < 4
  {
    acc[4 * r + c] == Dot(rows[r].qs[..8 * n], Weights(columns[c])[..8 * n])
  }

  lemma WindowDot(x: seq<int>, y: seq<int>, n: nat)
    requires |x| == |y| == 32 && n < 4
    ensures Dot(x[..8 * n + 8], y[..8 * n + 8]) == Dot(x[..8 * n], y[..8 * n]) + Dot(Window(x, n), Window(y, n))
  {
    DotConcat(x[..8 * n], y[..8 * n], Window(x, n), Window(y, n));
    assert x[..8 * n] + Window(x, n) == x[..8 * n + 8] && y[..8 * n] + Window(y, n) == y[..8 * n + 8];
  }

  /** One more matrix-unit step covers one more K window. */
  lemma VmadotStep(acc: seq<int>, a: seq<Int8>, b: seq<int>, rows: seq<Q8>, columns: seq<Q4>, n: nat)
    requires |rows| == 4 && |columns| == 4 && n < 4 && PartialDots(acc, rows, columns, n)
    requires ARegister(a, rows, n) && BRegister(b, columns, n)
    ensures PartialDots(Vmadot1(acc, a, b), rows, columns, n + 1)
  {
    var next, done := Vmadot1(acc, a, b), n + 1;
    forall r: nat, c: nat | r < 4 && c < 4 ensures PartialDot4(next, rows, columns, done, r, c) {
      assert PartialDot4(acc, rows, columns, n, r, c);
      VmadotLane(acc, a, b, rows, columns, n, r, c);
    }
  }

  lemma VmadotLane(acc: seq<int>, a: seq<Int8>, b: seq<int>, rows: seq<Q8>, columns: seq<Q4>, n: nat, r: nat, c: nat)
    requires |rows| == 4 && |columns| == 4 && n < 4 && |acc| == 16 && r < 4 && c < 4
    requires ARegister(a, rows, n) && BRegister(b, columns, n)
    requires PartialDot4(acc, rows, columns, n, r, c)
    ensures PartialDot4(Vmadot1(acc, a, b), rows, columns, n + 1, r, c)
  {
    WeightRange(columns[c]);
    DotBound(rows[r].qs[..8 * n], Weights(columns[c])[..8 * n]);
    Vmadot1Lane(acc, a, b, r, c);
    WindowDot(rows[r].qs, Weights(columns[c]), n);
  }

  lemma WeightRange(c: Q4)
    ensures Nibbles(Weights(c))
  {
    NibbleRange(c.qs);
  }

  /** Two dots, over K windows `2 * inner` and `2 * inner + 1`. */
  lemma VmadotPair(acc: seq<int>, a0: seq<Int8>, b0: seq<int>, a1: seq<Int8>, b1: seq<int>, rows: seq<Q8>,
                   columns: seq<Q4>, inner: nat)
    requires |rows| == 4 && |columns| == 4 && inner < 2 && PartialDots(acc, rows, columns, 2 * inner)
    requires ARegister(a0, rows, 2 * inner) && BRegister(b0, columns, 2 * inner)
    requires ARegister(a1, rows, 2 * inner + 1) && BRegister(b1, columns, 2 * inner + 1)
    ensures PartialDots(Vmadot1(Vmadot1(acc, a0, b0), a1, b1), rows, columns, 2 * inner + 2)
  {
    VmadotStep(acc, a0, b0, rows, columns, 2 * inner);
    VmadotStep(Vmadot1(acc, a0, b0), a1, b1, rows, columns, 2 * inner + 1);
  }

  lemma NoDots(rows: seq<Q8>, columns: seq<Q4>)
    requires |rows| == 4 && |columns| == 4
    ensures PartialDots(Zeros(16), rows, columns, 0)
  {}

  lemma AllDots(acc: seq<int>, rows: seq<Q8>, columns: seq<Q4>)
    requires |rows| == 4 && |columns| == 4 && PartialDots(acc, rows, columns, 4)
    ensures GroupDots(acc, rows, columns)
  {
    forall r: nat, c: nat | r < 4 && c < 4 ensures GroupDot(acc, rows, columns, r, c) {
      assert PartialDot4(acc, rows, columns, 4, r, c);
      assert rows[r].qs[..32] == rows[r].qs && Weights(columns[c])[..32] == Weights(columns[c]);
    }
  }
}
