/** The register-resident (RR) kernel: the weights of one K block stay in
    registers while activation tiles stream through, and the scale of every
    product comes from a matrix-unit outer product. Values are over the reals. */
module RrKernel {
  import opened BitArithmetic
  import opened Quantized
  import opened VectorUnit
  import opened Ime2Kernel

  const PACKED_C: nat := 256   // kImeRrPackedCElements

  // ---------- The scale outer product ----------

  function RealDot(x: seq<real>, y: seq<real>): real
    requires |x| == |y|
  {
    if x == [] then 0.0 else x[0] * y[0] + RealDot(x[1..], y[1..])
  }

  /** A(8x8) * B(8x8), both K-contiguous, added to an 8x8 accumulator. */
  function Vfwmadot(acc: seq<real>, a: seq<real>, b: seq<real>): (r: seq<real>)
    requires |acc| == |a| == |b| == 64
    ensures |r| == 64
  {
    seq(64, l requires 0 <= l < 64 => acc[l] + RealDot(a[l / 8 * 8..l / 8 * 8 + 8], b[l % 8 * 8..l % 8 * 8 + 8]))
  }

  /** A load under the mask `(lane & 7) == 0`: the other lanes keep zero, whatever
      memory holds there (mask-undisturbed, section 5.3 of the RISC-V Vector
      Extension 1.0). */
  function LoadScales(mem: seq<real>): (r: seq<real>)
    requires |mem| == 64
    ensures |r| == 64
  {
    seq(64, l requires 0 <= l < 64 => if l % 8 == 0 then mem[l] else 0.0)
  }

  /** `vslidedown` by one: lanes past the end read as zero (section 16.3.2). */
  function SlideDown(v: seq<real>): (r: seq<real>)
    requires |v| > 0
    ensures |r| == |v|
  {
    v[1..] + [0.0]
  }

  lemma {:induction false} DotWithUnit(x: seq<real>, y: seq<real>)
    requires |x| == |y| && forall i :: 0 <= i < |y| ==> y[i] == 0.0
    ensures RealDot(x, y) == 0.0
  {
    if x != [] { DotWithUnit(x[1..], y[1..]); }
  }

  /** The masked scales annihilate every column of the activation scales but the
      first: lane `8 * row + column` is one product. */
  lemma OuterProduct(a: seq<real>, mem: seq<real>, row: nat, column: nat)
    requires |a| == |mem| == 64 && row < 8 && column < 8
    ensures Vfwmadot(seq(64, _ => 0.0), a, LoadScales(mem))[8 * row + column] == a[8 * row] * mem[8 * column]
  {
    var x, y := a[8 * row..8 * row + 8], LoadScales(mem)[8 * column..8 * column + 8];
    ModUnique(8 * row + column, 8, row, column);
    MaskedColumn(mem, column);
    UnitDot(x, y);
  }

  lemma MaskedColumn(mem: seq<real>, column: nat)
    requires |mem| == 64 && column < 8
    ensures LoadScales(mem)[8 * column..8 * column + 8][0] == mem[8 * column]
    ensures var y := LoadScales(mem)[8 * column..8 * column + 8]; forall i :: 1 <= i < 8 ==> y[i] == 0.0
  {
    ModUnique(8 * column, 8, column, 0);
    var y := LoadScales(mem)[8 * column..8 * column + 8];
    forall i | 1 <= i < 8 ensures y[i] == 0.0 { ModUnique(8 * column + i, 8, column, i); }
  }

  lemma UnitDot(x: seq<real>, y: seq<real>)
    requires |x| == |y| == 8 && forall i :: 1 <= i < 8 ==> y[i] == 0.0
    ensures RealDot(x, y) == x[0] * y[0]
  {
    DotWithUnit(x[1..], y[1..]);
  }

  /** `t` slides bring column `t` of the scale group to column zero. */
  ghost predicate Slid(register: seq<real>, group: seq<real>, t: nat) {
    |register| == |group| == 64 && forall i: nat :: i < 64 && i + t < 64 ==> SlidLane(register, group, t, i)
  }

  ghost predicate SlidLane(register: seq<real>, group: seq<real>, t: nat, i: nat)
    requires |register| == |group| == 64 && i < 64 && i + t < 64
  {
    register[i] == group[i + t]
  }

  lemma SlideStep(register: seq<real>, group: seq<real>, t: nat)
    requires Slid(register, group, t)
    ensures Slid(SlideDown(register), group, t + 1)
  {
    var next, u := SlideDown(register), t + 1;
    forall i: nat | i < 64 && i + u < 64 ensures SlidLane(next, group, u, i) {
      var j := i + 1;
      assert SlidLane(register, group, t, j);
    }
  }

  // ---------- One tile ----------

  /** Place of element `(row, 8 * g + column)` in a native-order C tile. */
  function CPlace(g: nat, row: nat, column: nat): nat { 64 * g + (8 * row + column) }

  /** The integer sums of column group `g`. */
  function Quant(a: seq<Int8>, w: seq<Byte>, g: nat): (q: seq<int>)
    requires |a| == 256 && |w| == 512 && g < 4
    ensures |q| == 64
  {
    Vmadot2(Vmadot2(Zeros(64), a[..128], Low(w[g * 128..g * 128 + 128])), a[128..], High(w[g * 128..g * 128 + 128]))
  }

  function Product(q: int, scale: real): real { q as real * scale }

  function Scaled(q: int, aScale: real, wScale: real): real { Product(q, aScale * wScale) }

  /** What one tile's K block adds to element `(row, 8 * g + column)`. */
  function Added(a: seq<Int8>, aScale: real, w: seq<Byte>, wScale: real, g: nat, row: nat, column: nat): real
    requires |a| == 256 && |w| == 512 && g < 4 && row < 8 && column < 8
  {
    Scaled(Quant(a, w, g)[8 * row + column], aScale, wScale)
  }

  /** Every lane of C tile `t` has been brought from `before` to `after`. */
  ghost predicate TileAdded(before: seq<real>, after: seq<real>, t: nat, a: seq<Int8>, scales: seq<real>, s: nat,
                            w: seq<Byte>, wScales: seq<real>)
    requires |a| == 256 && |w| == 512 && |scales| == 64 && |wScales| == 256 && s < 8
  {
    && |before| == |after| && PACKED_C * t + PACKED_C <= |before|
    && forall g: nat, row: nat, column: nat :: g < 4 && row < 8 && column < 8 ==>
       LaneAdded(before, after, t, a, scales, s, w, wScales, g, row, column)
  }

  ghost predicate LaneAdded(before: seq<real>, after: seq<real>, t: nat, a: seq<Int8>, scales: seq<real>, s: nat,
                            w: seq<Byte>, wScales: seq<real>, g: nat, row: nat, column: nat)
    requires |a| == 256 && |w| == 512 && |scales| == 64 && |wScales| == 256 && s < 8 && g < 4 && row < 8 && column < 8
    requires |before| == |after| && PACKED_C * t + PACKED_C <= |before|
  {
    var at := PACKED_C * t + CPlace(g, row, column);
    after[at] == before[at] + Added(a, scales[8 * row + s], w, wScales[64 * g + 8 * column], g, row, column)
  }

  ghost predicate ReducedLane(before: seq<real>, after: seq<real>, at: nat, quant: seq<int>, scale: seq<real>, l: nat)
    requires |before| == |after| && at + 64 <= |before| && |quant| == |scale| == 64 && l < 64
  {
    after[at + l] == before[at + l] + Product(quant[l], scale[l])
  }

  /** `REDUCE_GROUP`: load, fused multiply-add, store. */
  method ReduceGroup(c: array<real>, at: nat, quant: seq<int>, scale: seq<real>)
    requires |quant| == |scale| == 64 && at + 64 <= c.Length
    modifies c
    ensures forall l: nat :: l < 64 ==> ReducedLane(old(c[..]), c[..], at, quant, scale, l)
    ensures forall k :: 0 <= k < c.Length && !(at <= k < at + 64) ==> c[k] == old(c[k])
  {
    for l := 0 to 64
      invariant forall i: nat :: i < l ==> ReducedLane(old(c[..]), c[..], at, quant, scale, i)
      invariant forall k :: 0 <= k < c.Length && !(at <= k < at + l) ==> c[k] == old(c[k])
    {
      ghost var before := c[..];
      c[at + l] := c[at + l] + Product(quant[l], scale[l]);
      forall i: nat | i < l
        ensures ReducedLane(old(c[..]), c[..], at, quant, scale, i)
      {
        assert ReducedLane(old(c[..]), before, at, quant, scale, i);
      }
    }
  }

  /** Column group `g` of the tile is done, and the groups after it are untouched. */
  ghost predicate GroupAdded(before: seq<real>, after: seq<real>, t: nat, a: seq<Int8>, scales: seq<real>, s: nat,
                             w: seq<Byte>, wScales: seq<real>, g: nat)
    requires |a| == 256 && |w| == 512 && |scales| == 64 && |wScales| == 256 && s < 8 && g < 4
    requires |before| == |after| && PACKED_C * t + PACKED_C <= |before|
  {
    forall row: nat, column: nat :: row < 8 && column < 8 ==>
        LaneAdded(before, after, t, a, scales, s, w, wScales, g, row, column)
  }

  lemma ScaleLane(register: seq<real>, scales: seq<real>, s: nat, mem: seq<real>, row: nat, column: nat)
    requires |scales| == |mem| == 64 && s < 8 && row < 8 && column < 8 && Slid(register, scales, s)
    ensures Vfwmadot(seq(64, _ => 0.0), register, LoadScales(mem))[8 * row + column]
            == scales[8 * row + s] * mem[8 * column]
  {
    var i := 8 * row;
    assert SlidLane(register, scales, s, i);
    OuterProduct(register, mem, row, column);
  }

  /** Lane `8 * row + column` is row `row`'s scale for tile `s` times column
      `column`'s weight scale. */
  ghost predicate Scales(scale: seq<real>, scales: seq<real>, s: nat, mem: seq<real>)
    requires |scales| == |mem| == 64 && s < 8
  {
    |scale| == 64 && forall row: nat, column: nat :: row < 8 && column < 8 ==>
        ScaleAt(scale, scales, s, mem, row, column)
  }

  ghost predicate ScaleAt(scale: seq<real>, scales: seq<real>, s: nat, mem: seq<real>, row: nat, column: nat)
    requires |scale| == |scales| == |mem| == 64 && s < 8 && row < 8 && column < 8
  {
    scale[8 * row + column] == scales[8 * row + s] * mem[8 * column]
  }

  method ScaleMatrix(register: seq<real>, ghost scales: seq<real>, ghost s: nat, mem: seq<real>)
    returns (scale: seq<real>)
    requires |scales| == |mem| == 64 && s < 8 && Slid(register, scales, s)
    ensures Scales(scale, scales, s, mem)
  {
    scale := Vfwmadot(seq(64, _ => 0.0), register, LoadScales(mem));
    forall row: nat, column: nat | row < 8 && column < 8 ensures ScaleAt(scale, scales, s, mem, row, column) {
      ScaleLane(register, scales, s, mem, row, column);
    }
  }

  lemma GroupReduced(before: seq<real>, after: seq<real>, t: nat, a: seq<Int8>, scales: seq<real>, s: nat, w: seq<Byte>,
                     wScales: seq<real>, g: nat, quant: seq<int>, scale: seq<real>, mem: seq<real>, base: nat)
    requires |a| == 256 && |w| == 512 && |scales| == 64 && |wScales| == 256 && s < 8 && g < 4 && |before| == |after|
             && PACKED_C * t + PACKED_C <= |before|
    requires quant == Quant(a, w, g) && mem == wScales[64 * g..64 * g + 64] && Scales(scale, scales, s, mem)
             && base == PACKED_C * t + 64 * g
    requires forall l: nat :: l < 64 ==> ReducedLane(before, after, base, quant, scale, l)
    ensures GroupAdded(before, after, t, a, scales, s, w, wScales, g)
  {
    forall row: nat, column: nat | row < 8 && column < 8
      ensures LaneAdded(before, after, t, a, scales, s, w, wScales, g, row, column)
    {
      var l := 8 * row + column;
      assert ReducedLane(before, after, base, quant, scale, l) && ScaleAt(scale, scales, s, mem, row, column);
      LaneReduced(before, after, t, a, scales, s, w, wScales, g, row, column, quant, scale, mem, base);
    }
  }

  lemma SliceAt(wScales: seq<real>, g: nat, column: nat)
    requires |wScales| == 256 && g < 4 && column < 8
    ensures wScales[64 * g..64 * g + 64][8 * column] == wScales[64 * g + 8 * column]
  {}

  lemma LaneReduced(before: seq<real>, after: seq<real>, t: nat, a: seq<Int8>, scales: seq<real>, s: nat, w: seq<Byte>,
                    wScales: seq<real>, g: nat, row: nat, column: nat, quant: seq<int>, scale: seq<real>,
                    mem: seq<real>, base: nat)
    requires |a| == 256 && |w| == 512 && |scales| == |mem| == |quant| == |scale| == 64 && |wScales| == 256 && s < 8
             && g < 4 && row < 8 && column < 8
    requires |before| == |after| && PACKED_C * t + PACKED_C <= |before| && base == PACKED_C * t + 64 * g
    requires quant == Quant(a, w, g) && mem == wScales[64 * g..64 * g + 64]
    requires ReducedLane(before, after, base, quant, scale, 8 * row + column)
             && ScaleAt(scale, scales, s, mem, row, column)
    ensures LaneAdded(before, after, t, a, scales, s, w, wScales, g, row, column)
  {
    SliceAt(wScales, g, column);
    assert base + (8 * row + column) == PACKED_C * t + CPlace(g, row, column);
    assert scale[8 * row + column] == scales[8 * row + s] * wScales[64 * g + 8 * column];
  }

  /** One column group of the tile: the outer product of its scales and the
      fused multiply-add of its integer sums. */
  method ProcessGroup(c: array<real>, t: nat, a: seq<Int8>, register: seq<real>, ghost scales: seq<real>, ghost s: nat,
                      w: seq<Byte>, wScales: seq<real>, g: nat)
    requires |a| == 256 && |w| == 512 && |scales| == 64 && |wScales| == 256 && s < 8 && g < 4
             && Slid(register, scales, s)
    requires PACKED_C * t + PACKED_C <= c.Length
    modifies c
    ensures GroupAdded(old(c[..]), c[..], t, a, scales, s, w, wScales, g)
    ensures forall k :: 0 <= k < c.Length && !(PACKED_C * t + 64 * g <= k < PACKED_C * t + 64 * g + 64) ==>
              c[k] == old(c[k])
  {
    ghost var before := c[..];
    var mem := wScales[64 * g..64 * g + 64];
    var scale := ScaleMatrix(register, scales, s, mem);
    var quant := Quant(a, w, g);
    ReduceGroup(c, PACKED_C * t + 64 * g, quant, scale);
    GroupReduced(before, c[..], t, a, scales, s, w, wScales, g, quant, scale, mem, PACKED_C * t + 64 * g);
  }

  /** The four column groups of one activation tile. */
  method ProcessTile(c: array<real>, t: nat, a: seq<Int8>, register: seq<real>, ghost scales: seq<real>, ghost s: nat,
                     w: seq<Byte>, wScales: seq<real>)
    requires |a| == 256 && |w| == 512 && |scales| == 64 && |wScales| == 256 && s < 8 && Slid(register, scales, s)
    requires PACKED_C * t + PACKED_C <= c.Length
    modifies c
    ensures TileAdded(old(c[..]), c[..], t, a, scales, s, w, wScales)
    ensures forall k :: 0 <= k < c.Length && !(PACKED_C * t <= k < PACKED_C * t + PACKED_C) ==> c[k] == old(c[k])
  {
    ghost var before := c[..];
    for g := 0 to 4
      invariant forall h: nat :: h < g ==> GroupAdded(before, c[..], t, a, scales, s, w, wScales, h)
      invariant forall k :: 0 <= k < c.Length && !(PACKED_C * t <= k < PACKED_C * t + 64 * g) ==> c[k] == before[k]
    {
      ghost var middle := c[..];
      ProcessGroup(c, t, a, register, scales, s, w, wScales, g);
      GroupsStep(before, middle, c[..], t, a, scales, s, w, wScales, g);
    }
    forall g: nat, row: nat, column: nat | g < 4 && row < 8 && column < 8
      ensures LaneAdded(before, c[..], t, a, scales, s, w, wScales, g, row, column)
    {
      assert GroupAdded(before, c[..], t, a, scales, s, w, wScales, g);
    }
  }

  lemma GroupsStep(before: seq<real>, middle: seq<real>, after: seq<real>, t: nat, a: seq<Int8>, scales: seq<real>,
                   s: nat, w: seq<Byte>, wScales: seq<real>, g: nat)
    requires |a| == 256 && |w| == 512 && |scales| == 64 && |wScales| == 256 && s < 8 && g < 4
    requires |before| == |middle| == |after| && PACKED_C * t + PACKED_C <= |before|
    requires forall h: nat :: h < g ==> GroupAdded(before, middle, t, a, scales, s, w, wScales, h)
    requires GroupAdded(middle, after, t, a, scales, s, w, wScales, g)
    requires forall k :: 0 <= k < |before| && !(PACKED_C * t <= k < PACKED_C * t + 64 * g) ==> middle[k] == before[k]
    requires forall k :: 0 <= k < |before| && !(PACKED_C * t + 64 * g <= k < PACKED_C * t + 64 * g + 64) ==>
               after[k] == middle[k]
    ensures forall h: nat :: h < g + 1 ==> GroupAdded(before, after, t, a, scales, s, w, wScales, h)
  {
    forall h: nat | h < g + 1 ensures GroupAdded(before, after, t, a, scales, s, w, wScales, h) {
      forall row: nat, column: nat | row < 8 && column < 8
        ensures LaneAdded(before, after, t, a, scales, s, w, wScales, h, row, column)
      {
        var at := PACKED_C * t + CPlace(h, row, column);
        if h < g {
          assert GroupAdded(before, middle, t, a, scales, s, w, wScales, h);
          assert LaneAdded(before, middle, t, a, scales, s, w, wScales, h, row, column);
        } else {
          assert LaneAdded(middle, after, t, a, scales, s, w, wScales, g, row, column);
        }
      }
    }
  }

  // ---------- The streaming kernel ----------

  /** Column `t % 8` of scale group `t / 8` is tile `t`'s. */
  ghost predicate Streamed(before: seq<real>, after: seq<real>, aQs: seq<seq<Int8>>, aScales: seq<seq<real>>,
                           w: seq<Byte>, wScales: seq<real>, t: nat)
    requires |w| == 512 && |wScales| == 256 && t < |aQs| && t / 8 < |aScales|
    requires |aQs[t]| == 256 && |aScales[t / 8]| == 64
  {
    TileAdded(before, after, t, aQs[t], aScales[t / 8], t % 8, w, wScales)
  }

  ghost predicate Streamable(aQs: seq<seq<Int8>>, aScales: seq<seq<real>>, count: nat) {
    && |aQs| == count && (forall t :: 0 <= t < count ==> |aQs[t]| == 256)
    && |aScales| == (count + 7) / 8 && (forall x :: 0 <= x < |aScales| ==> |aScales[x]| == 64)
  }

  lemma TileOfGroup(x: nat, s: nat)
    requires s < 8
    ensures (8 * x + s) / 8 == x && (8 * x + s) % 8 == s
  {}

  /** `q4_0_q8_0_ime_rr_w_stationary`: for any number of tiles, a partial last
      group of eight included, every tile is reduced with its own scales. */
  method WStationary(aQs: seq<seq<Int8>>, aScales: seq<seq<real>>, w: seq<Byte>, wScales: seq<real>, c: array<real>,
                     count: nat)
    requires Streamable(aQs, aScales, count) && |w| == 512 && |wScales| == 256 && PACKED_C * count <= c.Length
    modifies c
    ensures forall t: nat :: t < count ==> t / 8 < |aScales| && Streamed(old(c[..]), c[..], aQs, aScales, w, wScales, t)
  {
    ghost var before := c[..];
    var tileM: nat := 0;
    var scaleGroup: nat := 0;
    while tileM < count
      invariant tileM <= count && (tileM == 8 * scaleGroup || tileM == count)
      invariant forall t: nat :: t < tileM ==> t / 8 < |aScales| && Streamed(before, c[..], aQs, aScales, w, wScales, t)
      invariant forall k :: PACKED_C * tileM <= k < c.Length ==> c[k] == before[k]
    {
      var groupTiles := if count - tileM < 8 then count - tileM else 8;
      StreamGroup(aQs, aScales, w, wScales, c, count, scaleGroup, groupTiles, before);
      tileM := tileM + groupTiles;
      scaleGroup := scaleGroup + 1;
    }
  }

  lemma StreamStep(before: seq<real>, middle: seq<real>, after: seq<real>, aQs: seq<seq<Int8>>, aScales: seq<seq<real>>,
                   w: seq<Byte>, wScales: seq<real>, count: nat, x: nat, s: nat)
    requires Streamable(aQs, aScales, count) && |w| == 512 && |wScales| == 256 && |before| == |middle| == |after|
    requires x < |aScales| && s < 8 && 8 * x + s < count
    requires forall t: nat :: t < 8 * x + s ==>
               t / 8 < |aScales| && Streamed(before, middle, aQs, aScales, w, wScales, t)
    requires forall k :: PACKED_C * (8 * x + s) <= k < |before| ==> middle[k] == before[k]
    requires TileAdded(middle, after, 8 * x + s, aQs[8 * x + s], aScales[x], s, w, wScales)
    requires forall k :: 0 <= k < |after| && !(PACKED_C * (8 * x + s) <= k < PACKED_C * (8 * x + s) + PACKED_C) ==>
               after[k] == middle[k]
    ensures forall t: nat :: t < 8 * x + s + 1 ==>
              t / 8 < |aScales| && Streamed(before, after, aQs, aScales, w, wScales, t)
  {
    var tileM := 8 * x + s;
    TileOfGroup(x, s);
    forall t: nat | t < tileM + 1 ensures t / 8 < |aScales| && Streamed(before, after, aQs, aScales, w, wScales, t) {
      if t < tileM {
        assert Streamed(before, middle, aQs, aScales, w, wScales, t);
        TileKept(before, middle, after, t, aQs[t], aScales[t / 8], t % 8, w, wScales);
      } else {
        TileFirst(before, middle, after, t, aQs[t], aScales[x], s, w, wScales);
      }
    }
  }

  /** The tiles of one scale group, the register sliding by one lane a tile. */
  method StreamGroup(aQs: seq<seq<Int8>>, aScales: seq<seq<real>>, w: seq<Byte>, wScales: seq<real>, c: array<real>,
                     count: nat, x: nat, groupTiles: nat, ghost before: seq<real>)
    requires Streamable(aQs, aScales, count) && |w| == 512 && |wScales| == 256
             && PACKED_C * count <= c.Length == |before|
    requires x < |aScales| && groupTiles <= 8 && 8 * x + groupTiles <= count
    requires forall t: nat :: t < 8 * x ==> t / 8 < |aScales| && Streamed(before, c[..], aQs, aScales, w, wScales, t)
    requires forall k :: PACKED_C * (8 * x) <= k < c.Length ==> c[k] == before[k]
    modifies c
    ensures forall t: nat :: t < 8 * x + groupTiles ==>
              t / 8 < |aScales| && Streamed(before, c[..], aQs, aScales, w, wScales, t)
    ensures forall k :: PACKED_C * (8 * x + groupTiles) <= k < c.Length ==> c[k] == before[k]
  {
    var scales := aScales[x];
    for s := 0 to groupTiles
      invariant Slid(scales, aScales[x], s)
      invariant forall t: nat :: t < 8 * x + s ==>
                  t / 8 < |aScales| && Streamed(before, c[..], aQs, aScales, w, wScales, t)
      invariant forall k :: PACKED_C * (8 * x + s) <= k < c.Length ==> c[k] == before[k]
    {
      var tileM := 8 * x + s;
      ghost var middle := c[..];
      TileOfGroup(x, s);
      ProcessTile(c, tileM, aQs[tileM], scales, aScales[x], s, w, wScales);
      StreamStep(before, middle, c[..], aQs, aScales, w, wScales, count, x, s);
      SlideStep(scales, aScales[x], s);
      scales := SlideDown(scales);
    }
  }

  lemma TileKept(before: seq<real>, middle: seq<real>, after: seq<real>, t: nat, a: seq<Int8>, scales: seq<real>,
                 s: nat, w: seq<Byte>, wScales: seq<real>)
    requires |a| == 256 && |w| == 512 && |scales| == 64 && |wScales| == 256 && s < 8 && |middle| == |after|
    requires TileAdded(before, middle, t, a, scales, s, w, wScales)
    requires forall k :: PACKED_C * t <= k < PACKED_C * t + PACKED_C ==> after[k] == middle[k]
    ensures TileAdded(before, after, t, a, scales, s, w, wScales)
  {
    forall g: nat, row: nat, column: nat | g < 4 && row < 8 && column < 8
      ensures LaneAdded(before, after, t, a, scales, s, w, wScales, g, row, column)
    {
      assert LaneAdded(before, middle, t, a, scales, s, w, wScales, g, row, column);
    }
  }

  lemma TileFirst(before: seq<real>, middle: seq<real>, after: seq<real>, t: nat, a: seq<Int8>, scales: seq<real>,
                  s: nat, w: seq<Byte>, wScales: seq<real>)
    requires |a| == 256 && |w| == 512 && |scales| == 64 && |wScales| == 256 && s < 8 && |before| == |middle|
    requires TileAdded(middle, after, t, a, scales, s, w, wScales)
    requires forall k :: PACKED_C * t <= k < PACKED_C * t + PACKED_C ==> middle[k] == before[k]
    ensures TileAdded(before, after, t, a, scales, s, w, wScales)
  {
    forall g: nat, row: nat, column: nat | g < 4 && row < 8 && column < 8
      ensures LaneAdded(before, after, t, a, scales, s, w, wScales, g, row, column)
    {
      assert LaneAdded(middle, after, t, a, scales, s, w, wScales, g, row, column);
    }
  }
}
