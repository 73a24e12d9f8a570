/** The IME1 (A60) m8b tile kernel: eight rows by sixteen columns, eight 4x4
    accumulators, two stores per accumulator half into a row-major component
    tile, and a reduction of eight component tiles at a time. */
module Ime1Kernel {
  import opened BitArithmetic
  import opened Floats
  import opened Quantized
  import opened Reduction
  import opened VectorUnit
  import opened Ime1Dot

  const TILE: nat := 128   // kOutputM * kOutputN = 8 * 16
  const BATCH: nat := 8    // kRedBatchSize

  /** One K block of eight activation rows, and of sixteen weight columns. */
  datatype ABlock = ABlock(qs: seq<Int8>, d: seq<real>)
  datatype BBlock = BBlock(qs: seq<Byte>, d: seq<real>)

  /** Packed position of the chunk of row half `h` and K window `w`. */
  function Chunk(h: nat, w: nat): nat { w / 2 * 4 + 2 * h + w % 2 }

  function Half(rows: seq<Q8>, h: nat): (r: seq<Q8>)
    requires |rows| == 8 && h < 2
    ensures |r| == 4
  {
    rows[4 * h..4 * h + 4]
  }

  function Group(columns: seq<Q4>, g: nat): (r: seq<Q4>)
    requires |columns| == 16 && g < 4
    ensures |r| == 4
  {
    columns[4 * g..4 * g + 4]
  }

  ghost predicate APacked(a: ABlock, rows: seq<Q8>) {
    && |rows| == 8 && |a.qs| == 256 && |a.d| == 8
    && (forall m: nat :: m < 8 ==> a.d[m] == rows[m].d)
    && (forall h: nat, w: nat :: h < 2 && w < 4 ==> ChunkPacked(a.qs, rows, h, w))
  }

  ghost predicate ChunkPacked(qs: seq<Int8>, rows: seq<Q8>, h: nat, w: nat)
    requires |rows| == 8 && h < 2 && w < 4
  {
    32 * Chunk(h, w) + 32 <= |qs| && ARegister(qs[32 * Chunk(h, w)..32 * Chunk(h, w) + 32], Half(rows, h), w)
  }

  ghost predicate BPacked(b: BBlock, columns: seq<Q4>) {
    && |columns| == 16 && |b.d| == 16
    && PackedColumns(b.qs, columns)
    && forall n: nat :: n < 16 ==> b.d[n] == columns[n].d
  }

  // ---------- The integer part of one K block ----------

  /** The four activation registers of one inner step hold both halves' windows. */
  ghost predicate AInner(a: seq<seq<Int8>>, rows: seq<Q8>, inner: nat)
    requires |rows| == 8 && inner < 2
  {
    && |a| == 4
    && (forall h: nat :: h < 2 ==> ARegister(a[2 * h], Half(rows, h), 2 * inner))
    && (forall h: nat :: h < 2 ==> ARegister(a[2 * h + 1], Half(rows, h), 2 * inner + 1))
  }

  /** The eight unpacked weight registers of one inner step. */
  ghost predicate BInner(lo: seq<seq<int>>, hi: seq<seq<int>>, columns: seq<Q4>, inner: nat)
    requires |columns| == 16 && inner < 2
  {
    |lo| == |hi| == 4 && forall g: nat :: g < 4 ==>
        BRegister(lo[g], Group(columns, g), 2 * inner) && BRegister(hi[g], Group(columns, g), 2 * inner + 1)
  }

  /** Accumulator `i` covers row half `i / 4` and column group `i % 4`. */
  ghost predicate AccPartial(acc: seq<int>, rows: seq<Q8>, columns: seq<Q4>, n: nat, i: nat)
    requires |rows| == 8 && |columns| == 16 && n <= 4 && i < 8
  {
    PartialDots(acc, Half(rows, i / 4), Group(columns, i % 4), n)
  }

  ghost predicate BlockPartial(accs: seq<seq<int>>, rows: seq<Q8>, columns: seq<Q4>, n: nat)
    requires |rows| == 8 && |columns| == 16 && n <= 4
  {
    |accs| == 8 && forall i: nat :: i < 8 ==> AccPartial(accs[i], rows, columns, n, i)
  }

  /** Loads the registers of one inner step. */
  function ARegisters(qs: seq<Int8>, inner: nat): (r: seq<seq<Int8>>)
    requires |qs| == 256 && inner < 2
    ensures |r| == 4
  {
    [qs[128 * inner..128 * inner + 32], qs[128 * inner + 32..128 * inner + 64],
     qs[128 * inner + 64..128 * inner + 96], qs[128 * inner + 96..128 * inner + 128]]
  }

  function BPackedRegister(qs: seq<Byte>, inner: nat, g: nat): (r: seq<Byte>)
    requires |qs| == 256 && inner < 2 && g < 4
    ensures |r| == 32
  {
    qs[128 * inner + 32 * g..128 * inner + 32 * g + 32]
  }

  function LowRegisters(qs: seq<Byte>, inner: nat): (r: seq<seq<int>>)
    requires |qs| == 256 && inner < 2
  {
    [Low(BPackedRegister(qs, inner, 0)), Low(BPackedRegister(qs, inner, 1)), Low(BPackedRegister(qs, inner, 2)),
     Low(BPackedRegister(qs, inner, 3))]
  }

  function HighRegisters(qs: seq<Byte>, inner: nat): (r: seq<seq<int>>)
    requires |qs| == 256 && inner < 2
  {
    [High(BPackedRegister(qs, inner, 0)), High(BPackedRegister(qs, inner, 1)), High(BPackedRegister(qs, inner, 2)),
     High(BPackedRegister(qs, inner, 3))]
  }

  lemma RegisterIs(qs: seq<Int8>, h: nat, inner: nat)
    requires |qs| == 256 && h < 2 && inner < 2
    ensures ARegisters(qs, inner)[2 * h] == qs[32 * Chunk(h, 2 * inner)..32 * Chunk(h, 2 * inner) + 32]
    ensures ARegisters(qs, inner)[2 * h + 1] == qs[32 * Chunk(h, 2 * inner + 1)..32 * Chunk(h, 2 * inner + 1) + 32]
  {
    ChunkRegister(qs, h, inner, 0);
    ChunkRegister(qs, h, inner, 1);
  }

  lemma ChunkRegister(qs: seq<Int8>, h: nat, inner: nat, bit: nat)
    requires |qs| == 256 && h < 2 && inner < 2 && bit < 2 && 32 * Chunk(h, 2 * inner + bit) + 32 <= 256
    ensures ARegisters(qs, inner)[2 * h + bit]
            == qs[32 * Chunk(h, 2 * inner + bit)..32 * Chunk(h, 2 * inner + bit) + 32]
  {
    ChunkIs(h, inner, bit);
    RegisterAt(qs, inner, 2 * h + bit, 4 * inner + (2 * h + bit));
  }

  lemma RegisterAt(qs: seq<Int8>, inner: nat, x: nat, chunk: nat)
    requires |qs| == 256 && inner < 2 && x < 4 && chunk == 4 * inner + x
    ensures ARegisters(qs, inner)[x] == qs[32 * chunk..32 * chunk + 32]
  {}

  lemma ChunkIs(h: nat, inner: nat, bit: nat)
    requires bit < 2
    ensures Chunk(h, 2 * inner + bit) == 4 * inner + 2 * h + bit
  {
    ModUnique(2 * inner + bit, 2, inner, bit);
  }

  lemma ALoaded(a: ABlock, rows: seq<Q8>, inner: nat)
    requires APacked(a, rows) && inner < 2
    ensures AInner(ARegisters(a.qs, inner), rows, inner)
  {
    var regs, w, v := ARegisters(a.qs, inner), 2 * inner, 2 * inner + 1;
    forall h: nat | h < 2 ensures ARegister(regs[2 * h], Half(rows, h), w)
        && ARegister(regs[2 * h + 1], Half(rows, h), v) {
      RegisterIs(a.qs, h, inner);
      assert ChunkPacked(a.qs, rows, h, w) && ChunkPacked(a.qs, rows, h, v);
    }
  }

  lemma BLoaded(b: BBlock, columns: seq<Q4>, inner: nat)
    requires BPacked(b, columns) && inner < 2
    ensures BInner(LowRegisters(b.qs, inner), HighRegisters(b.qs, inner), columns, inner)
  {
    forall g: nat | g < 4
      ensures BRegister(LowRegisters(b.qs, inner)[g], Group(columns, g), 2 * inner)
              && BRegister(HighRegisters(b.qs, inner)[g], Group(columns, g), 2 * inner + 1)
    {
      GroupRegisters(b.qs, columns, inner, g);
      assert GroupBytes(b.qs, 16, inner, g) == BPackedRegister(b.qs, inner, g);
    }
  }

  /** Both dots of one accumulator. */
  method DotAccumulator(acc: seq<int>, a: seq<seq<Int8>>, lo: seq<seq<int>>, hi: seq<seq<int>>, inner: nat, i: nat,
                        ghost rows: seq<Q8>, ghost columns: seq<Q4>) returns (next: seq<int>)
    requires |rows| == 8 && |columns| == 16 && inner < 2 && i < 8 && AccPartial(acc, rows, columns, 2 * inner, i)
    requires AInner(a, rows, inner) && BInner(lo, hi, columns, inner)
    ensures AccPartial(next, rows, columns, 2 * inner + 2, i)
  {
    var h, g := i / 4, i % 4;
    VmadotPair(acc, a[2 * h], lo[g], a[2 * h + 1], hi[g], Half(rows, h), Group(columns, g), inner);
    next := Vmadot1(acc, a[2 * h], lo[g]);
    next := Vmadot1(next, a[2 * h + 1], hi[g]);
  }

  /** The accumulators done so far have covered `n` K windows. */
  ghost predicate SomePartial(accs: seq<seq<int>>, rows: seq<Q8>, columns: seq<Q4>, n: nat)
    requires |rows| == 8 && |columns| == 16 && n <= 4
  {
    |accs| <= 8 && forall i: nat :: i < |accs| ==> AccPartial(accs[i], rows, columns, n, i)
  }

  lemma SomeMore(accs: seq<seq<int>>, acc: seq<int>, rows: seq<Q8>, columns: seq<Q4>, n: nat)
    requires |rows| == 8 && |columns| == 16 && n <= 4 && |accs| < 8 && SomePartial(accs, rows, columns, n)
    requires AccPartial(acc, rows, columns, n, |accs|)
    ensures SomePartial(accs + [acc], rows, columns, n)
  {
    forall i: nat | i < |accs| + 1 ensures AccPartial((accs + [acc])[i], rows, columns, n, i) {
      if i < |accs| { assert AccPartial(accs[i], rows, columns, n, i); }
    }
  }

  /** The sixteen dots of one inner step. */
  method InnerStep(accs: seq<seq<int>>, a: seq<seq<Int8>>, lo: seq<seq<int>>, hi: seq<seq<int>>, inner: nat,
                   ghost rows: seq<Q8>, ghost columns: seq<Q4>) returns (next: seq<seq<int>>)
    requires |rows| == 8 && |columns| == 16 && inner < 2 && BlockPartial(accs, rows, columns, 2 * inner)
    requires AInner(a, rows, inner) && BInner(lo, hi, columns, inner)
    ensures BlockPartial(next, rows, columns, 2 * inner + 2)
  {
    next := [];
    for i := 0 to 8
      invariant |next| == i && SomePartial(next, rows, columns, 2 * inner + 2)
    {
      next := InnerAccumulator(accs, next, a, lo, hi, inner, rows, columns);
    }
  }

  method InnerAccumulator(accs: seq<seq<int>>, next: seq<seq<int>>, a: seq<seq<Int8>>, lo: seq<seq<int>>,
                          hi: seq<seq<int>>, inner: nat, ghost rows: seq<Q8>, ghost columns: seq<Q4>)
    returns (more: seq<seq<int>>)
    requires |rows| == 8 && |columns| == 16 && inner < 2 && BlockPartial(accs, rows, columns, 2 * inner) && |next| < 8
    requires AInner(a, rows, inner) && BInner(lo, hi, columns, inner) && SomePartial(next, rows, columns, 2 * inner + 2)
    ensures |more| == |next| + 1 && SomePartial(more, rows, columns, 2 * inner + 2)
  {
    hide AccPartial, AInner, BInner;
    var i := |next|;
    assert AccPartial(accs[i], rows, columns, 2 * inner, i);
    var acc := DotAccumulator(accs[i], a, lo, hi, inner, i, rows, columns);
    SomeMore(next, acc, rows, columns, 2 * inner + 2);
    more := next + [acc];
  }

  lemma NothingYet(accs: seq<seq<int>>, rows: seq<Q8>, columns: seq<Q4>)
    requires |rows| == 8 && |columns| == 16 && accs == seq(8, _ => Zeros(16))
    ensures BlockPartial(accs, rows, columns, 0)
  {
    forall i: nat | i < 8
      ensures AccPartial(accs[i], rows, columns, 0, i)
    {
      NoDots(Half(rows, i / 4), Group(columns, i % 4));
    }
  }

  method DotBlock(a: ABlock, b: BBlock, ghost rows: seq<Q8>, ghost columns: seq<Q4>) returns (accs: seq<seq<int>>)
    requires APacked(a, rows) && BPacked(b, columns)
    ensures BlockPartial(accs, rows, columns, 4)
  {
    accs := seq(8, _ => Zeros(16));
    NothingYet(accs, rows, columns);
    for inner := 0 to 2
      invariant BlockPartial(accs, rows, columns, 2 * inner)
    {
      accs := DotInner(accs, a, b, inner, rows, columns);
    }
  }

  method DotInner(accs: seq<seq<int>>, a: ABlock, b: BBlock, inner: nat, ghost rows: seq<Q8>, ghost columns: seq<Q4>)
    returns (next: seq<seq<int>>)
    requires APacked(a, rows) && BPacked(b, columns) && inner < 2 && BlockPartial(accs, rows, columns, 2 * inner)
    ensures BlockPartial(next, rows, columns, 2 * inner + 2)
  {
    ALoaded(a, rows, inner);
    BLoaded(b, columns, inner);
    next := InnerStep(accs, ARegisters(a.qs, inner), LowRegisters(b.qs, inner), HighRegisters(b.qs, inner), inner,
                      rows, columns);
  }

  // ---------- The scatter ----------

  /** Four-element segment of the component tile that row `r` of accumulator `i` fills. */
  function Quad(i: nat, r: nat): nat { 16 * (i / 4) + 4 * r + i % 4 }

  ghost predicate Stored(mem: seq<int>, base: nat, accs: seq<seq<int>>, i: nat, r: nat)
    requires |accs| == 8 && i < 8 && r < 4
  {
    && |accs[i]| == 16 && base + 4 * Quad(i, r) + 4 <= |mem|
    && mem[base + 4 * Quad(i, r)..base + 4 * Quad(i, r) + 4] == accs[i][4 * r..4 * r + 4]
  }

  lemma QuadIs(h: nat, g: nat, r: nat)
    requires g < 4
    ensures Quad(4 * h + g, r) == 4 * (4 * h + r) + g
  {
    ModUnique(4 * h + g, 4, h, g);
  }

  /** Distinct rows of accumulators go to distinct segments of the tile. */
  lemma QuadInjective(i: nat, r: nat, j: nat, s: nat)
    requires i < 8 && j < 8 && r < 4 && s < 4
    ensures 4 * Quad(i, r) + 4 <= TILE
    ensures Quad(i, r) == Quad(j, s) ==> (i, r) == (j, s)
  {
    var h, g := QuadParts(i, r);
    var k, f := QuadParts(j, s);
    QuadBound(i, r, h, g, Quad(i, r));
    if Quad(i, r) == Quad(j, s) { QuadDigits(i, h, r, g, j, k, s, f, Quad(i, r)); }
  }

  lemma QuadBound(i: nat, r: nat, h: nat, g: nat, quad: nat)
    requires i < 8 && r < 4 && i == 4 * h + g && g < 4 && quad == 4 * (4 * h + r) + g
    ensures 4 * quad + 4 <= TILE
  {}

  lemma QuadParts(i: nat, r: nat) returns (h: nat, g: nat)
    ensures i == 4 * h + g && g < 4 && Quad(i, r) == 4 * (4 * h + r) + g
  {
    h, g := Digits(i, 4);
    QuadIs(h, g, r);
  }

  lemma QuadDigits(i: nat, h: nat, r: nat, g: nat, j: nat, k: nat, s: nat, f: nat, quad: nat)
    requires r < 4 && g < 4 && s < 4 && f < 4 && i == 4 * h + g && j == 4 * k + f
    requires quad == 4 * (4 * h + r) + g == 4 * (4 * k + s) + f
    ensures i == j && r == s
  {
    DigitEqual(4, 4 * h + r, g, 4 * k + s, f);
    DigitEqual(4, h, r, k, s);
  }

  /** Every segment is some accumulator row's. */
  lemma QuadSurjective(q: nat) returns (i: nat, r: nat)
    requires q < 32
    ensures i < 8 && r < 4 && Quad(i, r) == q
  {
    var x, g := Digits(q, 4);
    var h: nat;
    h, r := Digits(x, 4);
    i := 4 * h + g;
    QuadIs(h, g, r);
  }

  /** One store: four lanes of a register to one segment. */
  method StoreQuad(mem: array<int>, base: nat, accs: seq<seq<int>>, i: nat, r: nat)
    requires |accs| == 8 && i < 8 && r < 4 && |accs[i]| == 16 && base + TILE <= mem.Length
    modifies mem
    ensures QuadStored(old(mem[..]), mem[..], base, accs, i, r)
  {
    QuadPosition(accs[i], base, i, r);
    var tile := base + i / 4 * 4 * 16 + i % 4 * 4;
    var register, at := if r < 2 then accs[i][..8] else accs[i][8..], if r < 2 then tile else tile + 32;
    var first, shift := if r % 2 == 0 then 0 else 4, if r % 2 == 0 then 0 else 12;
    StoreMasked(mem, at + shift, register, first, first + 4);
  }

  lemma QuadPosition(acc: seq<int>, base: nat, i: nat, r: nat)
    requires |acc| == 16 && i < 8 && r < 4
    ensures base + i / 4 * 4 * 16 + i % 4 * 4 + (if r < 2 then 0 else 32) + (if r % 2 == 0 then 0 else 16)
            == base + 4 * Quad(i, r)
    ensures base + 4 * Quad(i, r) + 4 <= base + TILE
    ensures (if r < 2 then acc[..8] else acc[8..])[if r % 2 == 0 then 0 else 4..if r % 2 == 0 then 4 else 8]
            == acc[4 * r..4 * r + 4]
  {
    var h, g := Digits(i, 4);
    QuadIs(h, g, r);
  }

  /** Only segment `(i, r)` has changed, and it holds its row. */
  ghost predicate QuadStored(before: seq<int>, after: seq<int>, base: nat, accs: seq<seq<int>>, i: nat, r: nat)
    requires |accs| == 8 && i < 8 && r < 4 && |accs[i]| == 16
  {
    var q := base + 4 * Quad(i, r);
    && |before| == |after| && q + 4 <= |before|
    && after[..q] == before[..q] && after[q + 4..] == before[q + 4..]
    && after[q..q + 4] == accs[i][4 * r..4 * r + 4]
  }

  lemma StoredKept(before: seq<int>, after: seq<int>, base: nat, accs: seq<seq<int>>, i: nat, r: nat, j: nat, s: nat)
    requires |accs| == 8 && i < 8 && r < 4 && j < 8 && s < 4 && |accs[i]| == 16
    requires QuadStored(before, after, base, accs, i, r) && ((j, s) == (i, r) || Stored(before, base, accs, j, s))
    ensures Stored(after, base, accs, j, s)
  {
    if (j, s) != (i, r) {
      QuadInjective(i, r, j, s);
      SegmentKept(before, after, base + 4 * Quad(i, r), base + 4 * Quad(j, s));
    }
  }

  lemma PrefixKept(before: seq<int>, after: seq<int>, base: nat, accs: seq<seq<int>>, i: nat, r: nat)
    requires |accs| == 8 && i < 8 && r < 4 && |accs[i]| == 16 && QuadStored(before, after, base, accs, i, r)
    ensures after[..base] == before[..base]
  {
    var q := base + 4 * Quad(i, r);
    assert after[..base] == after[..q][..base] && before[..base] == before[..q][..base];
  }

  lemma SegmentKept(before: seq<int>, after: seq<int>, q: nat, p: nat)
    requires |before| == |after| && q + 4 <= |before| && p + 4 <= |before| && (p + 4 <= q || q + 4 <= p)
    requires after[..q] == before[..q] && after[q + 4..] == before[q + 4..]
    ensures after[p..p + 4] == before[p..p + 4]
  {
    if p + 4 <= q {
      assert after[p..p + 4] == after[..q][p..p + 4] && before[p..p + 4] == before[..q][p..p + 4];
    } else {
      assert after[p..p + 4] == after[q + 4..][p - q - 4..p - q]
          && before[p..p + 4] == before[q + 4..][p - q - 4..p - q];
    }
  }

  /** Row `half` of both half-registers of accumulator `i` is stored. */
  ghost predicate PairStored(mem: seq<int>, base: nat, accs: seq<seq<int>>, half: nat, i: nat)
    requires |accs| == 8 && i < 8 && half < 2
  {
    Stored(mem, base, accs, i, half) && Stored(mem, base, accs, i, half + 2)
  }

  method StorePair(mem: array<int>, base: nat, accs: seq<seq<int>>, half: nat, i: nat)
    requires |accs| == 8 && i < 8 && half < 2 && |accs[i]| == 16 && base + TILE <= mem.Length
    modifies mem
    ensures forall h: nat, j: nat ::
            h < 2 && j < 8 && ((h, j) == (half, i) || old(PairStored(mem[..], base, accs, h, j))) ==>
                PairStored(mem[..], base, accs, h, j)
    ensures mem[..base] == old(mem[..base])
  {
    ghost var before := mem[..];
    StoreQuad(mem, base, accs, i, half);
    ghost var middle := mem[..];
    StoreQuad(mem, base, accs, i, half + 2);
    PairKept(before, middle, mem[..], base, accs, half, i);
  }

  lemma PairKept(before: seq<int>, middle: seq<int>, after: seq<int>, base: nat, accs: seq<seq<int>>, half: nat, i: nat)
    requires |accs| == 8 && i < 8 && half < 2 && |accs[i]| == 16
    requires QuadStored(before, middle, base, accs, i, half) && QuadStored(middle, after, base, accs, i, half + 2)
    ensures forall h: nat, j: nat ::
            h < 2 && j < 8 && ((h, j) == (half, i) || PairStored(before, base, accs, h, j)) ==>
                PairStored(after, base, accs, h, j)
    ensures after[..base] == before[..base]
  {
    PrefixKept(before, middle, base, accs, i, half);
    PrefixKept(middle, after, base, accs, i, half + 2);
    forall h: nat, j: nat | h < 2 && j < 8 && ((h, j) == (half, i) || PairStored(before, base, accs, h, j))
      ensures PairStored(after, base, accs, h, j)
    {
      StoredKept(before, middle, base, accs, i, half, j, h);
      StoredKept(middle, after, base, accs, i, half + 2, j, h);
      if (h, j) != (half, i) { StoredKept(before, middle, base, accs, i, half, j, h + 2); }
      StoredKept(middle, after, base, accs, i, half + 2, j, h + 2);
    }
  }

  /** All low stores, then all masked high stores. */
  method Scatter(mem: array<int>, base: nat, accs: seq<seq<int>>)
    requires |accs| == 8 && (forall j :: 0 <= j < 8 ==> |accs[j]| == 16) && base + TILE <= mem.Length
    modifies mem
    ensures forall h: nat, j: nat :: h < 2 && j < 8 ==> PairStored(mem[..], base, accs, h, j)
    ensures mem[..base] == old(mem[..base])
  {
    for half := 0 to 2
      invariant forall h: nat, j: nat :: h < half && j < 8 ==> PairStored(mem[..], base, accs, h, j)
      invariant mem[..base] == old(mem[..base])
    {
      for i := 0 to 8
        invariant forall h: nat, j: nat :: j < 8 && (h < half || (h == half && j < i)) ==>
                    PairStored(mem[..], base, accs, h, j)
        invariant mem[..base] == old(mem[..base])
      {
        StorePair(mem, base, accs, half, i);
      }
    }
  }

  /** The component tile holds the reference integer sums of the block. */
  ghost predicate Components(tile: seq<int>, rows: seq<Q8>, columns: seq<Q4>)
    requires |rows| == 8 && |columns| == 16
  {
    |tile| == TILE && forall m: nat, n: nat :: m < 8 && n < 16 ==> ComponentAt(tile, rows, columns, m, n)
  }

  ghost predicate ComponentAt(tile: seq<int>, rows: seq<Q8>, columns: seq<Q4>, m: nat, n: nat)
    requires |rows| == 8 && |columns| == 16 && |tile| == TILE && m < 8 && n < 16
  {
    tile[16 * m + n] == BlockDot(columns[n], rows[m])
  }

  lemma ScatterHolds(mem: seq<int>, base: nat, accs: seq<seq<int>>, rows: seq<Q8>, columns: seq<Q4>)
    requires |rows| == 8 && |columns| == 16 && base + TILE <= |mem| && BlockPartial(accs, rows, columns, 4)
    requires forall h: nat, j: nat :: h < 2 && j < 8 ==> PairStored(mem, base, accs, h, j)
    ensures Components(mem[base..base + TILE], rows, columns)
  {
    var tile := mem[base..base + TILE];
    forall m: nat, n: nat | m < 8 && n < 16 ensures ComponentAt(tile, rows, columns, m, n) {
      var h, r := Digits(m, 4);
      var g, c := Digits(n, 4);
      ScatterAt(mem, base, accs, rows, columns, h, r, g, c);
    }
  }

  lemma AccumulatorLane(accs: seq<seq<int>>, rows: seq<Q8>, columns: seq<Q4>, h: nat, g: nat, r: nat, c: nat)
    requires |rows| == 8 && |columns| == 16 && BlockPartial(accs, rows, columns, 4) && h < 2 && g < 4 && r < 4 && c < 4
    ensures |accs[4 * h + g]| == 16 && accs[4 * h + g][4 * r + c] == BlockDot(columns[4 * g + c], rows[4 * h + r])
  {
    var i := 4 * h + g;
    ModUnique(i, 4, h, g);
    assert AccPartial(accs[i], rows, columns, 4, i);
    AllDots(accs[i], Half(rows, h), Group(columns, g));
    assert GroupDot(accs[i], Half(rows, h), Group(columns, g), r, c);
  }

  lemma ScatterAt(mem: seq<int>, base: nat, accs: seq<seq<int>>, rows: seq<Q8>, columns: seq<Q4>, h: nat, r: nat,
                  g: nat, c: nat)
    requires |rows| == 8 && |columns| == 16 && base + TILE <= |mem| && BlockPartial(accs, rows, columns, 4)
    requires h < 2 && r < 4 && g < 4 && c < 4
    requires forall h: nat, j: nat :: h < 2 && j < 8 ==> PairStored(mem, base, accs, h, j)
    ensures mem[base + 16 * (4 * h + r) + (4 * g + c)] == BlockDot(columns[4 * g + c], rows[4 * h + r])
  {
    var i := 4 * h + g;
    AccumulatorLane(accs, rows, columns, h, g, r, c);
    QuadIs(h, g, r);
    var half: nat := if r < 2 then r else r - 2;
    assert PairStored(mem, base, accs, half, i);
    QuadElement(mem, base + 4 * Quad(i, r), accs[i], r, c);
  }

  lemma QuadElement(mem: seq<int>, q: nat, acc: seq<int>, r: nat, c: nat)
    requires r < 4 && c < 4 && |acc| == 16 && q + 4 <= |mem| && mem[q..q + 4] == acc[4 * r..4 * r + 4]
    ensures mem[q + c] == acc[4 * r + c]
  {
    assert mem[q..q + 4][c] == acc[4 * r..4 * r + 4][c];
  }
}
