/** The IME2 (A100) m8b tile kernel: sixteen rows by thirty-two columns, eight
    8x8 accumulators, a scatter of each accumulator into a row-major component
    tile, and a reduction of eight component tiles at a time. */
module Ime2Kernel {
  import opened BitArithmetic
  import opened Floats
  import opened Quantized
  import opened Reduction
  import opened VectorUnit

  const TILE: nat := 512   // kMr * kNr = 16 * 32, also the bytes of one A or B block
  const BATCH: nat := 8    // kRedBatchSize

  // ---------- The integer part of one K block ----------

  /** Sixteen consecutive activations of row `m` in K window `window`. */
  function ARow(a: seq<Int8>, m: nat, window: nat): (r: seq<Int8>)
    requires |a| == 512 && m < 16 && window < 2
    ensures |r| == 16
  {
    a[(m / 8 * 2 + window) * 128 + m % 8 * 16..(m / 8 * 2 + window) * 128 + m % 8 * 16 + 16]
  }

  /** The sixteen packed bytes of column `n`. */
  function BColumn(w: seq<Byte>, n: nat): (r: seq<Byte>)
    requires |w| == 512 && n < 32
    ensures |r| == 16
  {
    w[n / 8 * 128 + n % 8 * 16..n / 8 * 128 + n % 8 * 16 + 16]
  }

  function Component(a: seq<Int8>, w: seq<Byte>, m: nat, n: nat): int
    requires |a| == 512 && |w| == 512 && m < 16 && n < 32
  {
    Dot(ARow(a, m, 0), Low(BColumn(w, n))) + Dot(ARow(a, m, 1), High(BColumn(w, n)))
  }

  function Register(v: seq<int>, i: nat): (r: seq<int>)
    requires |v| == 512 && i < 4
    ensures |r| == 128
  {
    v[i * 128..i * 128 + 128]
  }

  /** Accumulator `4 * r + g` after both dots of the block. */
  function Accumulator(a: seq<Int8>, w: seq<Byte>, index: nat): (acc: seq<int>)
    requires |a| == 512 && |w| == 512 && index < 8
    ensures |acc| == 64
  {
    var r, g := index / 4, index % 4;
    Vmadot2(Vmadot2(Zeros(64), Register(a, 2 * r), Low(w[g * 128..g * 128 + 128])),
            Register(a, 2 * r + 1), High(w[g * 128..g * 128 + 128]))
  }

  lemma LowHighSlice(w: seq<Byte>, from: nat, to: nat)
    requires from <= to <= |w|
    ensures Low(w)[from..to] == Low(w[from..to]) && High(w)[from..to] == High(w[from..to])
  {}

  lemma SliceOfSlice<T>(s: seq<T>, a: nat, b: nat, c: nat, d: nat)
    requires a <= b <= |s| && c <= d <= b - a
    ensures s[a..b][c..d] == s[a + c..a + d]
  {
    var t := s[a..b];
    forall i | 0 <= i < d - c ensures t[c..d][i] == s[a + c..a + d][i] {
      assert t[c..d][i] == t[c + i] && t[c + i] == s[a + (c + i)];
    }
  }

  /** Two dots on the same operands' rows and columns. */
  lemma TwoDots(a0: seq<Int8>, a1: seq<Int8>, b: seq<Byte>, row: nat, column: nat)
    requires |a0| == 128 && |a1| == 128 && |b| == 128 && row < 8 && column < 8
    ensures Vmadot2(Vmadot2(Zeros(64), a0, Low(b)), a1, High(b))[8 * row + column] ==
            Dot(a0[16 * row..16 * row + 16], Low(b[16 * column..16 * column + 16]))
            + Dot(a1[16 * row..16 * row + 16], High(b[16 * column..16 * column + 16]))
  {
    NibbleRange(b);
    LowHighSlice(b, 16 * column, 16 * column + 16);
    Vmadot2Lane(Zeros(64), a0, Low(b), row, column);
    DotBound(a0[16 * row..16 * row + 16], Low(b)[16 * column..16 * column + 16]);
    Vmadot2Lane(Vmadot2(Zeros(64), a0, Low(b)), a1, High(b), row, column);
  }

  lemma ARowIs(a: seq<Int8>, r: nat, row: nat, window: nat)
    requires |a| == 512 && r < 2 && row < 8 && window < 2
    ensures ARow(a, 8 * r + row, window) == Register(a, 2 * r + window)[16 * row..16 * row + 16]
  {
    assert (8 * r + row) / 8 == r && (8 * r + row) % 8 == row;
    SliceOfSlice(a, (2 * r + window) * 128, (2 * r + window) * 128 + 128, 16 * row, 16 * row + 16);
  }

  lemma BColumnIs(w: seq<Byte>, g: nat, column: nat)
    requires |w| == 512 && g < 4 && column < 8
    ensures BColumn(w, 8 * g + column) == w[g * 128..g * 128 + 128][16 * column..16 * column + 16]
  {
    assert (8 * g + column) / 8 == g && (8 * g + column) % 8 == column;
    SliceOfSlice(w, g * 128, g * 128 + 128, 16 * column, 16 * column + 16);
  }

  lemma ComponentParts(a: seq<Int8>, w: seq<Byte>, r: nat, g: nat, row: nat, column: nat)
    requires |a| == 512 && |w| == 512 && r < 2 && g < 4 && row < 8 && column < 8
    ensures Component(a, w, 8 * r + row, 8 * g + column) ==
            Dot(Register(a, 2 * r)[16 * row..16 * row + 16],
                Low(w[g * 128..g * 128 + 128][16 * column..16 * column + 16]))
            + Dot(Register(a, 2 * r + 1)[16 * row..16 * row + 16],
                  High(w[g * 128..g * 128 + 128][16 * column..16 * column + 16]))
  {
    ARowIs(a, r, row, 0);
    ARowIs(a, r, row, 1);
    BColumnIs(w, g, column);
  }

  lemma AccumulatorIs(a: seq<Int8>, w: seq<Byte>, r: nat, g: nat)
    requires |a| == 512 && |w| == 512 && r < 2 && g < 4
    ensures Accumulator(a, w, 4 * r + g) ==
            Vmadot2(Vmadot2(Zeros(64), Register(a, 2 * r), Low(w[g * 128..g * 128 + 128])), Register(a, 2 * r + 1),
                    High(w[g * 128..g * 128 + 128]))
  {
    assert (4 * r + g) / 4 == r && (4 * r + g) % 4 == g;
  }

  /** Lane `8 * row + column` of accumulator `4 * r + g` is the component of row
      `8 * r + row` and column `8 * g + column`. */
  lemma AccumulatorLane(a: seq<Int8>, w: seq<Byte>, r: nat, g: nat, row: nat, column: nat)
    requires |a| == 512 && |w| == 512 && r < 2 && g < 4 && row < 8 && column < 8
    ensures Accumulator(a, w, 4 * r + g)[8 * row + column] == Component(a, w, 8 * r + row, 8 * g + column)
  {
    hide Vmadot2, Component, Low, High, Dot, Accumulator;
    AccumulatorIs(a, w, r, g);
    ComponentParts(a, w, r, g, row, column);
    TwoDots(Register(a, 2 * r), Register(a, 2 * r + 1), w[g * 128..g * 128 + 128], row, column);
  }

  /** Lane `8 * row + column` of accumulator `4 * r + g` is its component. */
  ghost predicate Lane(accumulators: seq<seq<int>>, a: seq<Int8>, w: seq<Byte>, r: nat, g: nat, row: nat, column: nat)
    requires |accumulators| == 8 && (forall i :: 0 <= i < 8 ==> |accumulators[i]| == 64)
    requires |a| == 512 && |w| == 512 && r < 2 && g < 4 && row < 8 && column < 8
  {
    accumulators[4 * r + g][8 * row + column] == Component(a, w, 8 * r + row, 8 * g + column)
  }

  /** All eight accumulators hold their components. */
  ghost predicate AllLanes(accumulators: seq<seq<int>>, a: seq<Int8>, w: seq<Byte>)
    requires |a| == 512 && |w| == 512
  {
    && |accumulators| == 8
    && (forall i :: 0 <= i < 8 ==> |accumulators[i]| == 64)
    && (forall r, g, row, column :: 0 <= r < 2 && 0 <= g < 4 && 0 <= row < 8 && 0 <= column < 8 ==>
          Lane(accumulators, a, w, r, g, row, column))
  }

  lemma AccumulatorLanes(a: seq<Int8>, w: seq<Byte>, accumulators: seq<seq<int>>)
    requires |a| == 512 && |w| == 512 && |accumulators| == 8
    requires forall i :: 0 <= i < 8 ==> IsAccumulator(accumulators[i], a, w, i)
    ensures AllLanes(accumulators, a, w)
  {
    forall r, g, row, column | 0 <= r < 2 && 0 <= g < 4 && 0 <= row < 8 && 0 <= column < 8
      ensures Lane(accumulators, a, w, r, g, row, column)
    {
      assert IsAccumulator(accumulators[4 * r + g], a, w, 4 * r + g);
      AccumulatorLane(a, w, r, g, row, column);
    }
  }

  method DotTile(a: seq<Int8>, w: seq<Byte>) returns (accumulators: seq<seq<int>>)
    requires |a| == 512 && |w| == 512
    ensures AllLanes(accumulators, a, w)
  {
    accumulators := [];
    while |accumulators| < 8
      invariant |accumulators| <= 8
      invariant forall i :: 0 <= i < |accumulators| ==> IsAccumulator(accumulators[i], a, w, i)
    {
      var acc := DotAccumulator(a, w, |accumulators|);
      accumulators := accumulators + [acc];
    }
    AccumulatorLanes(a, w, accumulators);
  }

  ghost predicate IsAccumulator(acc: seq<int>, a: seq<Int8>, w: seq<Byte>, index: nat)
    requires |a| == 512 && |w| == 512 && index < 8
  {
    |acc| == 64 && acc == Accumulator(a, w, index)
  }

  /** The two dots of one accumulator. */
  method DotAccumulator(a: seq<Int8>, w: seq<Byte>, index: nat) returns (acc: seq<int>)
    requires |a| == 512 && |w| == 512 && index < 8
    ensures IsAccumulator(acc, a, w, index)
  {
    var r, g := index / 4, index % 4;
    var packed := w[g * 128..g * 128 + 128];
    acc := Zeros(64);
    acc := Vmadot2(acc, a[2 * r * 128..2 * r * 128 + 128], Low(packed));
    acc := Vmadot2(acc, a[(2 * r + 1) * 128..(2 * r + 1) * 128 + 128], High(packed));
  }

  // ---------- The scatter ----------

  function TileBase(index: nat): nat { index / 4 * 8 * 32 + index % 4 * 8 }

  /** Tile position written by lane `8 * chunk + lane` of one half. */
  function Target(index: nat, half: nat, chunk: nat, lane: nat): nat {
    TileBase(index) + half * 128 + chunk * 24 + (8 * chunk + lane)
  }

  predicate StoreLane(index: nat, half: nat, chunk: nat, lane: nat) {
    index < 8 && half < 2 && chunk < 4 && lane < 8
  }

  /** The stores of one block write every tile position once: no two lanes meet,
      and every position is some lane's. */
  lemma TargetInjective(i: nat, h: nat, c: nat, l: nat, i': nat, h': nat, c': nat, l': nat)
    requires StoreLane(i, h, c, l) && StoreLane(i', h', c', l')
    ensures Target(i, h, c, l) < TILE
    ensures Target(i, h, c, l) == Target(i', h', c', l') ==> (i, h, c, l) == (i', h', c', l')
  {
    var r, g := Digits(i, 4);
    var r', g' := Digits(i', 4);
    TargetIs(r, g, h, c, l);
    TargetIs(r', g', h', c', l');
    if Target(i, h, c, l) == Target(i', h', c', l') { DigitsEqual(r, g, h, c, l, r', g', h', c', l'); }
  }

  lemma DigitsEqual(r: nat, g: nat, h: nat, c: nat, l: nat, r': nat, g': nat, h': nat, c': nat, l': nat)
    requires g < 4 && h < 2 && c < 4 && l < 8 && g' < 4 && h' < 2 && c' < 4 && l' < 8
    requires 256 * r + 128 * h + 32 * c + 8 * g + l == 256 * r' + 128 * h' + 32 * c' + 8 * g' + l'
    ensures (r, g, h, c, l) == (r', g', h', c', l')
  {
    DigitEqual(8, 32 * r + 16 * h + 4 * c + g, l, 32 * r' + 16 * h' + 4 * c' + g', l');
    DigitEqual(4, 8 * r + 4 * h + c, g, 8 * r' + 4 * h' + c', g');
    DigitEqual(4, 2 * r + h, c, 2 * r' + h', c');
    DigitEqual(2, r, h, r', h');
  }

  lemma TileBaseIs(r: nat, g: nat)
    requires g < 4
    ensures TileBase(4 * r + g) == 256 * r + 8 * g
  {
    assert (4 * r + g) / 4 == r && (4 * r + g) % 4 == g;
  }

  lemma TargetIs(r: nat, g: nat, h: nat, c: nat, l: nat)
    requires r < 2 && g < 4 && h < 2 && c < 4 && l < 8
    ensures Target(4 * r + g, h, c, l) == 256 * r + 128 * h + 32 * c + 8 * g + l < TILE
  {
    TileBaseIs(r, g);
  }

  lemma TargetSurjective(e: nat) returns (i: nat, h: nat, c: nat, l: nat)
    requires e < TILE
    ensures StoreLane(i, h, c, l) && Target(i, h, c, l) == e
  {
    var r, g := e / 256, e / 8 - 4 * (e / 32);
    i, h, c, l := 4 * r + g, e / 128 - 2 * r, e / 32 - 4 * (e / 128), e - 8 * (e / 8);
    TileBaseIs(r, g);
  }

  /** Chunk `chunk` of both halves of accumulator `index` is in place. */
  ghost predicate Placed(mem: seq<int>, base: nat, accumulators: seq<seq<int>>, chunk: nat, index: nat)
    requires base + TILE <= |mem| && |accumulators| == 8 && chunk < 4 && index < 8
    requires forall i :: 0 <= i < 8 ==> |accumulators[i]| == 64
  {
    var p := base + TileBase(index) + 32 * chunk;
    && mem[p..p + 8] == accumulators[index][8 * chunk..8 * chunk + 8]
    && mem[p + 128..p + 136] == accumulators[index][32 + 8 * chunk..32 + 8 * chunk + 8]
  }

  /** The component tile at `base` holds the components of one K block. */
  ghost predicate Components(mem: seq<int>, base: nat, a: seq<Int8>, w: seq<Byte>)
    requires base + TILE <= |mem| && |a| == 512 && |w| == 512
  {
    forall m, n {:trigger Component(a, w, m, n)} :: 0 <= m < 16 && 0 <= n < 32 ==>
        mem[base + (32 * m + n)] == Component(a, w, m, n)
  }

  method StoreChunk(mem: array<int>, base: nat, accumulators: seq<seq<int>>, chunk: nat, index: nat)
    requires base + TILE <= mem.Length && |accumulators| == 8 && chunk < 4 && index < 8
    requires forall i :: 0 <= i < 8 ==> |accumulators[i]| == 64
    modifies mem
    ensures Placed(mem[..], base, accumulators, chunk, index)
    ensures forall k :: 0 <= k < mem.Length
                        && !(base + TileBase(index) + 32 * chunk <= k < base + TileBase(index) + 32 * chunk + 8)
                        && !(base + TileBase(index) + 32 * chunk + 128 <= k < base + TileBase(index) + 32 * chunk
                             + 136) ==>
              mem[k] == old(mem[k])
  {
    var low, high := accumulators[index][..32], accumulators[index][32..];
    var at := base + TileBase(index) + chunk * 24;
    ghost var p, a := base + TileBase(index) + 32 * chunk, accumulators[index];
    StoreMasked(mem, at, low, 8 * chunk, 8 * chunk + 8);
    assert mem[p..p + 8] == low[8 * chunk..8 * chunk + 8] == a[8 * chunk..8 * chunk + 8];
    ghost var first := mem[..];
    StoreMasked(mem, at + 128, high, 8 * chunk, 8 * chunk + 8);
    assert mem[..p + 128] == first[..p + 128];
    assert mem[p..p + 8] == mem[..p + 128][p..p + 8] == first[p..p + 8];
    assert mem[p + 128..p + 136] == high[8 * chunk..8 * chunk + 8] == a[32 + 8 * chunk..32 + 8 * chunk + 8];
  }

  method Scatter(mem: array<int>, base: nat, accumulators: seq<seq<int>>)
    requires base + TILE <= mem.Length && |accumulators| == 8
    requires forall i :: 0 <= i < 8 ==> |accumulators[i]| == 64
    modifies mem
    ensures forall c, i :: 0 <= c < 4 && 0 <= i < 8 ==> Placed(mem[..], base, accumulators, c, i)
    ensures forall k :: 0 <= k < mem.Length && !(base <= k < base + TILE) ==> mem[k] == old(mem[k])
  {
    var chunk := 0;
    while chunk < 4
      invariant 0 <= chunk <= 4
      invariant forall c, i :: 0 <= c < chunk && 0 <= i < 8 ==> Placed(mem[..], base, accumulators, c, i)
      invariant forall k :: 0 <= k < mem.Length && !(base <= k < base + TILE) ==> mem[k] == old(mem[k])
    {
      var index := 0;
      while index < 8
        invariant 0 <= index <= 8
        invariant forall c, i :: 0 <= c < chunk && 0 <= i < 8 ==> Placed(mem[..], base, accumulators, c, i)
        invariant forall i :: 0 <= i < index ==> Placed(mem[..], base, accumulators, chunk, i)
        invariant forall k :: 0 <= k < mem.Length && !(base <= k < base + TILE) ==> mem[k] == old(mem[k])
      {
        ghost var before := mem[..];
        StoreChunk(mem, base, accumulators, chunk, index);
        forall c, i | 0 <= c < 4 && 0 <= i < 8 && (c, i) != (chunk, index) && Placed(before, base, accumulators, c, i)
          ensures Placed(mem[..], base, accumulators, c, i)
        {
          PlacedStays(before, mem[..], base, accumulators, c, i, chunk, index);
        }
        index := index + 1;
      }
      chunk := chunk + 1;
    }
  }

  /** A later store never touches an earlier one's elements. */
  lemma PlacedStays(before: seq<int>, after: seq<int>, base: nat, accumulators: seq<seq<int>>, c: nat, i: nat,
                    chunk: nat, index: nat)
    requires base + TILE <= |before| && |after| == |before| && |accumulators| == 8 && c < 4 && i < 8 && chunk < 4
             && index < 8
    requires forall i :: 0 <= i < 8 ==> |accumulators[i]| == 64
    requires (c, i) != (chunk, index) && Placed(before, base, accumulators, c, i)
    requires forall k :: 0 <= k < |before|
                         && !(base + TileBase(index) + 32 * chunk <= k < base + TileBase(index) + 32 * chunk + 8)
                         && !(base + TileBase(index) + 32 * chunk + 128 <= k < base + TileBase(index) + 32 * chunk
                              + 136) ==>
               after[k] == before[k]
    ensures Placed(after, base, accumulators, c, i)
  {
    var p := base + TileBase(i) + 32 * c;
    forall k | p <= k < p + 8 || p + 128 <= k < p + 136 ensures after[k] == before[k] {
      SegmentsApart(i, c, index, chunk);
    }
    assert after[p..p + 8] == before[p..p + 8];
    assert after[p + 128..p + 136] == before[p + 128..p + 136];
  }

  /** Distinct (accumulator, chunk) pairs start at least eight elements apart, in
      either half. */
  lemma SegmentsApart(i: nat, c: nat, j: nat, d: nat)
    requires i < 8 && j < 8 && c < 4 && d < 4 && (c, i) != (d, j)
    ensures var p, q := TileBase(i) + 32 * c, TileBase(j) + 32 * d;
            (p + 8 <= q || q + 8 <= p) && (p + 8 <= q + 128 || q + 136 <= p) && (p + 136 <= q || q + 8 <= p + 128)
  {
    var r, g := Digits(i, 4);
    var r', g' := Digits(j, 4);
    TileBaseIs(r, g);
    TileBaseIs(r', g');
    RowsApart(8 * r + c, g, 8 * r' + d, g');
    RowsApart(8 * r + c, g, 8 * r' + d + 4, g');
    RowsApart(8 * r + c + 4, g, 8 * r' + d, g');
  }

  lemma RowsApart(x: nat, g: nat, y: nat, g': nat)
    requires g < 4 && g' < 4 && (x, g) != (y, g')
    ensures 32 * x + 8 * g + 8 <= 32 * y + 8 * g' || 32 * y + 8 * g' + 8 <= 32 * x + 8 * g
  {}

  lemma ScatterHolds(mem: seq<int>, base: nat, a: seq<Int8>, w: seq<Byte>, accumulators: seq<seq<int>>)
    requires base + TILE <= |mem| && |a| == 512 && |w| == 512 && AllLanes(accumulators, a, w)
    requires forall c, i :: 0 <= c < 4 && 0 <= i < 8 ==> Placed(mem, base, accumulators, c, i)
    ensures Components(mem, base, a, w)
  {
    forall m, n | 0 <= m < 16 && 0 <= n < 32 ensures mem[base + (32 * m + n)] == Component(a, w, m, n) {
      var r, row := Digits(m, 8);
      var g, column := Digits(n, 8);
      assert Lane(accumulators, a, w, r, g, row, column);
      ScatterElement(mem, base, accumulators, r, g, row, column);
    }
  }

  lemma ScatterElement(mem: seq<int>, base: nat, accumulators: seq<seq<int>>, r: nat, g: nat, row: nat, column: nat)
    requires base + TILE <= |mem| && |accumulators| == 8
    requires forall i :: 0 <= i < 8 ==> |accumulators[i]| == 64
    requires r < 2 && g < 4 && row < 8 && column < 8
    requires forall c, i :: 0 <= c < 4 && 0 <= i < 8 ==> Placed(mem, base, accumulators, c, i)
    ensures mem[base + (32 * (8 * r + row) + (8 * g + column))] == accumulators[4 * r + g][8 * row + column]
  {
    TileBaseIs(r, g);
    var chunk := if row < 4 then row else row - 4;
    assert Placed(mem, base, accumulators, chunk, 4 * r + g);
    PlacedElement(mem, base, accumulators, chunk, 4 * r + g, column);
  }

  lemma PlacedElement(mem: seq<int>, base: nat, accumulators: seq<seq<int>>, chunk: nat, index: nat, lane: nat)
    requires base + TILE <= |mem| && |accumulators| == 8 && chunk < 4 && index < 8 && lane < 8
    requires forall i :: 0 <= i < 8 ==> |accumulators[i]| == 64
    requires Placed(mem, base, accumulators, chunk, index)
    ensures mem[base + TileBase(index) + 32 * chunk + lane] == accumulators[index][8 * chunk + lane]
    ensures mem[base + TileBase(index) + 32 * chunk + 128 + lane] == accumulators[index][32 + 8 * chunk + lane]
  {
    var p := base + TileBase(index) + 32 * chunk;
    assert mem[p..p + 8][lane] == accumulators[index][8 * chunk..8 * chunk + 8][lane];
    assert mem[p + 128..p + 136][lane] == accumulators[index][32 + 8 * chunk..32 + 8 * chunk + 8][lane];
  }

  // ---------- The tile kernel ----------

  /** The four operand pointers: `blocks` K blocks of one activation tile and of
      the matching weight tile. */
  datatype Operands = Operands(aQs: seq<Int8>, aScales: seq<real>, wQs: seq<Byte>, wScales: seq<real>)

  predicate Sized(o: Operands, blocks: nat) {
    |o.aQs| == 512 * blocks && |o.aScales| == 16 * blocks && |o.wQs| == 512 * blocks && |o.wScales| == 32 * blocks
  }

  function ABlock(o: Operands, blocks: nat, b: nat): (r: seq<Int8>)
    requires Sized(o, blocks) && b < blocks
    ensures |r| == 512
  {
    o.aQs[512 * b..512 * b + 512]
  }

  function WBlock(o: Operands, blocks: nat, b: nat): (r: seq<Byte>)
    requires Sized(o, blocks) && b < blocks
    ensures |r| == 512
  {
    o.wQs[512 * b..512 * b + 512]
  }

  function TileTerm(o: Operands, blocks: nat, b: nat, m: nat, n: nat): Term
    requires Sized(o, blocks) && b < blocks && m < 16 && n < 32
  {
    Term(Component(ABlock(o, blocks, b), WBlock(o, blocks, b), m, n), o.wScales[32 * b + n], o.aScales[16 * b + m])
  }

  /** The table lists, for tile element `32 * m + n`, its terms in K order. */
  ghost predicate Describes(table: seq<seq<Term>>, o: Operands, blocks: nat)
    requires Sized(o, blocks)
  {
    && Shaped(table, TILE, blocks)
    && forall b, m, n :: 0 <= b < blocks && 0 <= m < 16 && 0 <= n < 32 ==> Entry(table, o, blocks, b, m, n)
  }

  ghost predicate Entry(table: seq<seq<Term>>, o: Operands, blocks: nat, b: nat, m: nat, n: nat)
    requires Sized(o, blocks) && Shaped(table, TILE, blocks) && b < blocks && m < 16 && n < 32
  {
    table[32 * m + n][b] == TileTerm(o, blocks, b, m, n)
  }

  /** A buffered component tile with the block's scales gives the table's terms. */
  lemma SlotEntries(mem: seq<int>, at: nat, o: Operands, blocks: nat, b: nat, table: seq<seq<Term>>)
    requires at + TILE <= |mem| && Sized(o, blocks) && b < blocks && Describes(table, o, blocks)
    requires Holds(mem, at, table, TILE, blocks, b)
    ensures Entries(table, blocks, b, mem[at..at + TILE], o.wScales[32 * b..32 * b + 32],
                    o.aScales[16 * b..16 * b + 16])
  {
    var component, ws, as_ := mem[at..at + TILE], o.wScales[32 * b..32 * b + 32], o.aScales[16 * b..16 * b + 16];
    forall m: nat, n: nat | m < 16 && n < 32 ensures EntryAt(table, blocks, b, component, ws, as_, m, n) {
      assert Entry(table, o, blocks, b, m, n);
      assert component[32 * m + n] == table[32 * m + n][b].component;
    }
  }

  /** Loads the tile, reduces the buffered components in K order, stores it. */
  method FlushBatch(acc: array<Flt>, mem: array<int>, o: Operands, blocks: nat, start: nat, count: nat,
                    ghost table: seq<seq<Term>>)
    requires acc.Length == TILE && mem.Length == BATCH * TILE && Sized(o, blocks) && count <= BATCH
             && start + count <= blocks
    requires Describes(table, o, blocks) && Buffered(mem[..], table, TILE, blocks, start, count)
    modifies acc
    ensures Folded(old(acc[..]), acc[..], table, blocks, start, start + count)
  {
    var regs := acc[..];
    ghost var before := acc[..];
    FoldedNone(before, table, blocks, start);
    for i := 0 to count
      invariant |regs| == TILE && Folded(before, regs, table, blocks, start, start + i)
    {
      regs := FlushSlot(regs, mem, i, o, blocks, start, count, before, table);
    }
    StoreMasked(acc, 0, regs, 0, TILE);
    assert acc[..] == acc[0..TILE];
  }

  method FlushSlot(regs: seq<Flt>, mem: array<int>, i: nat, o: Operands, blocks: nat, start: nat, ghost count: nat,
                   ghost before: seq<Flt>, ghost table: seq<seq<Term>>) returns (reduced: seq<Flt>)
    requires |regs| == |before| == TILE && mem.Length == BATCH * TILE && Sized(o, blocks) && i < count <= BATCH
             && start + count <= blocks
    requires Describes(table, o, blocks) && Buffered(mem[..], table, TILE, blocks, start, count)
    requires Folded(before, regs, table, blocks, start, start + i)
    ensures |reduced| == TILE && Folded(before, reduced, table, blocks, start, start + i + 1)
  {
    var b, at := start + i, TILE * i;
    assert Slot(mem[..], table, TILE, blocks, start, i);
    SlotEntries(mem[..], at, o, blocks, b, table);
    assert mem[at..at + TILE] == mem[..][at..at + TILE];
    reduced := ReduceTile(regs, mem[at..at + TILE], o.wScales[32 * b..32 * b + 32], o.aScales[16 * b..16 * b + 16]);
    TileReducedSteps(regs, reduced, table, blocks, b, mem[at..at + TILE], o.wScales[32 * b..32 * b + 32],
                     o.aScales[16 * b..16 * b + 16]);
    FoldedStep(before, regs, reduced, table, blocks, start, b);
  }

  /** The tile kernel over `blocks` K blocks: every element of the caller's tile
      is folded with all its terms, in K order. */
  method TileKernel(o: Operands, acc: array<Flt>, blocks: nat, mem: array<int>, ghost table: seq<seq<Term>>)
    requires Sized(o, blocks) && acc.Length == TILE && mem.Length == BATCH * TILE && Describes(table, o, blocks)
    modifies acc, mem
    ensures Folded(old(acc[..]), acc[..], table, blocks, 0, blocks)
  {
    ghost var before := acc[..];
    var reductionCount: nat := 0;
    var bk: nat := 0;
    ProgressStart(before, mem[..], table, blocks);
    while bk < blocks
      invariant reductionCount < BATCH && Progress(before, acc[..], mem[..], table, blocks, bk, reductionCount)
    {
      reductionCount := ProcessBlock(o, acc, blocks, mem, bk, reductionCount, before, table);
      bk := bk + 1;
    }
  }

  /** One turn of the K loop: dots, scatter, and a flush when the buffer is full
      or the last block is in. */
  method ProcessBlock(o: Operands, acc: array<Flt>, blocks: nat, mem: array<int>, bk: nat, pending: nat,
                      ghost before: seq<Flt>, ghost table: seq<seq<Term>>) returns (reductionCount: nat)
    requires Sized(o, blocks) && acc.Length == TILE && mem.Length == BATCH * TILE && |before| == TILE && bk < blocks
    requires Describes(table, o, blocks) && pending < BATCH
             && Progress(before, acc[..], mem[..], table, blocks, bk, pending)
    modifies acc, mem
    ensures reductionCount < BATCH && Progress(before, acc[..], mem[..], table, blocks, bk + 1, reductionCount)
  {
    hide Folded;
    BufferBlock(o, blocks, bk, mem, pending, table);
    reductionCount := pending + 1;
    if reductionCount == BATCH || bk + 1 == blocks {
      ghost var middle := acc[..];
      FlushBatch(acc, mem, o, blocks, bk + 1 - reductionCount, reductionCount, table);
      FoldedTrans(before, middle, acc[..], table, blocks, 0, bk + 1 - reductionCount, bk + 1);
      reductionCount := 0;
    }
  }

  /** Computes one K block's components into buffer tile `slot`. */
  method BufferBlock(o: Operands, blocks: nat, bk: nat, mem: array<int>, slot: nat, ghost table: seq<seq<Term>>)
    requires Sized(o, blocks) && mem.Length == BATCH * TILE && slot <= bk < blocks && slot < BATCH
    requires Describes(table, o, blocks) && Buffered(mem[..], table, TILE, blocks, bk - slot, slot)
    modifies mem
    ensures Buffered(mem[..], table, TILE, blocks, bk - slot, slot + 1)
  {
    ghost var before := mem[..];
    var a, w := ABlock(o, blocks, bk), WBlock(o, blocks, bk);
    var accumulators := DotTile(a, w);
    Scatter(mem, TILE * slot, accumulators);
    ScatterHolds(mem[..], TILE * slot, a, w, accumulators);
    ComponentsHold(mem[..], TILE * slot, o, blocks, bk, table);
    assert mem[..][..TILE * slot] == before[..TILE * slot];
    BufferedMore(before, mem[..], table, TILE, blocks, bk - slot, slot);
  }

  lemma ComponentsHold(mem: seq<int>, base: nat, o: Operands, blocks: nat, b: nat, table: seq<seq<Term>>)
    requires Sized(o, blocks) && b < blocks && Describes(table, o, blocks) && base + TILE <= |mem|
    requires Components(mem, base, ABlock(o, blocks, b), WBlock(o, blocks, b))
    ensures Holds(mem, base, table, TILE, blocks, b)
  {
    forall e | 0 <= e < TILE ensures mem[base..base + TILE][e] == table[e][b].component {
      var m, n := Digits(e, 32);
      assert Entry(table, o, blocks, b, m, n);
      assert mem[base + (32 * m + n)] == Component(ABlock(o, blocks, b), WBlock(o, blocks, b), m, n);
    }
  }
}
