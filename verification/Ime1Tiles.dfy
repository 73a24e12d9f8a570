/** Output tiles of the IME1 m8b kernels over a range of K blocks: which source
    blocks they read, and what folding the range adds to each element. */
module Ime1Tiles {
  import opened BitArithmetic
  import opened Floats
  import opened Quantized
  import opened Reduction
  import opened Gemm
  import opened Ime1Kernel
  import opened Ime1Batch

  /** The shapes `validate_shape<8, 16, 32>` admits, in tiles and K blocks. */
  ghost predicate Accepted(p: Problem, tilesM: nat, tilesN: nat) {
    Valid(p) && p.m == tilesM * 8 && p.n == tilesN * 16 && p.k > 0
  }

  function TileRows(p: Problem, tm: nat, b: nat): (r: seq<Q8>)
    requires |p.act| == p.m * p.k && 8 * tm + 8 <= p.m && b < p.k
    ensures |r| == 8
  {
    seq(8, r requires 0 <= r < 8 => CellBound(p.m, p.k, 8 * tm + r, b); p.act[(8 * tm + r) * p.k + b])
  }

  function TileColumns(p: Problem, tn: nat, b: nat): (r: seq<Q4>)
    requires |p.wt| == p.n * p.k && 16 * tn + 16 <= p.n && b < p.k
    ensures |r| == 16
  {
    seq(16, c requires 0 <= c < 16 => CellBound(p.n, p.k, 16 * tn + c, b); p.wt[(16 * tn + c) * p.k + b])
  }

  /** The blocks `from .. to` of tile `(tm, tn)`. */
  function PanelSource(p: Problem, tm: nat, tn: nat, from: nat, to: nat): (s: Source)
    requires |p.act| == p.m * p.k && |p.wt| == p.n * p.k && 8 * tm + 8 <= p.m && 16 * tn + 16 <= p.n
             && from <= to <= p.k
    ensures |s.rows| == |s.columns| == to - from
    ensures forall i :: 0 <= i < to - from ==>
              s.rows[i] == TileRows(p, tm, from + i) && s.columns[i] == TileColumns(p, tn, from + i)
  {
    Source(seq(to - from, i requires 0 <= i < to - from => TileRows(p, tm, from + i)),
           seq(to - from, i requires 0 <= i < to - from => TileColumns(p, tn, from + i)))
  }

  /** Their terms, element by element. */
  function PanelTable(p: Problem, tm: nat, tn: nat, from: nat, to: nat): (r: seq<seq<Term>>)
    requires |p.act| == p.m * p.k && |p.wt| == p.n * p.k && 8 * tm + 8 <= p.m && 16 * tn + 16 <= p.n
             && from <= to <= p.k
    ensures Shaped(r, TILE, to - from)
  {
    seq(128, e requires 0 <= e < 128 => Terms(p, 8 * tm + e / 16, 16 * tn + e % 16)[from..to])
  }

  lemma PanelTableAt(p: Problem, tm: nat, tn: nat, from: nat, to: nat, m: nat, n: nat)
    requires Valid(p) && 8 * tm + 8 <= p.m && 16 * tn + 16 <= p.n && from <= to <= p.k && m < 8 && n < 16
    ensures PanelTable(p, tm, tn, from, to)[16 * m + n] == Terms(p, 8 * tm + m, 16 * tn + n)[from..to]
  {
    assert (16 * m + n) / 16 == m && (16 * m + n) % 16 == n;
  }

  lemma PanelEntry(p: Problem, tm: nat, tn: nat, from: nat, to: nat, b: nat, m: nat, n: nat)
    requires Valid(p) && 8 * tm + 8 <= p.m && 16 * tn + 16 <= p.n && from <= to <= p.k && b < to - from && m < 8
             && n < 16
    ensures PanelTable(p, tm, tn, from, to)[16 * m + n][b]
            == BlockTerm(TileColumns(p, tn, from + b)[n], TileRows(p, tm, from + b)[m])
  {
    PanelTableAt(p, tm, tn, from, to, m, n);
    BlockAt(p, tm, tn, from + b, m, n);
    PartAt(Terms(p, 8 * tm + m, 16 * tn + n), from, to, b);
  }

  lemma BlockAt(p: Problem, tm: nat, tn: nat, b: nat, m: nat, n: nat)
    requires Valid(p) && 8 * tm + 8 <= p.m && 16 * tn + 16 <= p.n && b < p.k && m < 8 && n < 16
    ensures Terms(p, 8 * tm + m, 16 * tn + n)[b] == BlockTerm(TileColumns(p, tn, b)[n], TileRows(p, tm, b)[m])
  {
    TermAt(p, 8 * tm + m, 16 * tn + n, b);
  }

  lemma PanelDescribed(p: Problem, tm: nat, tn: nat, from: nat, to: nat)
    requires Valid(p) && 8 * tm + 8 <= p.m && 16 * tn + 16 <= p.n && from <= to <= p.k
    ensures Sized(PanelSource(p, tm, tn, from, to), to - from)
    ensures Describes(PanelTable(p, tm, tn, from, to), PanelSource(p, tm, tn, from, to), to - from)
  {
    var s, table, count := PanelSource(p, tm, tn, from, to), PanelTable(p, tm, tn, from, to), to - from;
    forall b: nat, m: nat, n: nat | b < count && m < 8 && n < 16 ensures Entry(table, s, count, b, m, n) {
      PanelEntry(p, tm, tn, from, to, b, m, n);
    }
  }

  // ---------- Partial sums ----------

  /** Every element of the tile has been folded from zero with its first `upto` terms. */
  ghost predicate TileSum(p: Problem, tile: seq<Flt>, tm: nat, tn: nat, upto: nat)
    requires Valid(p)
  {
    && |tile| == TILE && 8 * tm + 8 <= p.m && 16 * tn + 16 <= p.n && upto <= p.k
    && forall m: nat, n: nat :: m < 8 && n < 16 ==> ElementSum(p, tile, tm, tn, upto, m, n)
  }

  ghost predicate ElementSum(p: Problem, tile: seq<Flt>, tm: nat, tn: nat, upto: nat, m: nat, n: nat)
    requires Valid(p) && |tile| == TILE && 8 * tm + 8 <= p.m && 16 * tn + 16 <= p.n && upto <= p.k && m < 8 && n < 16
  {
    tile[16 * m + n] == Fold(ZERO, Terms(p, 8 * tm + m, 16 * tn + n)[..upto])
  }

  lemma ZeroTile(p: Problem, tile: seq<Flt>, tm: nat, tn: nat)
    requires Valid(p) && 8 * tm + 8 <= p.m && 16 * tn + 16 <= p.n
    requires |tile| == TILE && forall e :: 0 <= e < TILE ==> tile[e] == ZERO
    ensures TileSum(p, tile, tm, tn, 0)
  {
    forall m: nat, n: nat | m < 8 && n < 16 ensures ElementSum(p, tile, tm, tn, 0, m, n) {}
  }

  /** Folding blocks `from .. to` extends the sums. */
  lemma TileSumStep(p: Problem, before: seq<Flt>, after: seq<Flt>, tm: nat, tn: nat, from: nat, to: nat)
    requires Valid(p) && from <= to <= p.k && TileSum(p, before, tm, tn, from)
    requires Folded(before, after, PanelTable(p, tm, tn, from, to), to - from, 0, to - from)
    ensures TileSum(p, after, tm, tn, to)
  {
    var table := PanelTable(p, tm, tn, from, to);
    forall m: nat, n: nat | m < 8 && n < 16 ensures ElementSum(p, after, tm, tn, to, m, n) {
      assert ElementSum(p, before, tm, tn, from, m, n);
      PanelTableAt(p, tm, tn, from, to, m, n);
      var terms := Terms(p, 8 * tm + m, 16 * tn + n);
      assert table[16 * m + n][0..to - from] == terms[from..to];
      FoldPieces(ZERO, terms, 0, from, to);
    }
  }

  lemma CompleteTile(p: Problem, tile: seq<Flt>, tm: nat, tn: nat)
    requires Valid(p) && TileSum(p, tile, tm, tn, p.k)
    ensures IsTile(p, tile, 8, 16, tm, tn)
  {
    forall r: nat, c: nat | r < 8 && c < 16 ensures TileEntry(p, tile, 8, 16, tm, tn, r, c) {
      assert ElementSum(p, tile, tm, tn, p.k, r, c);
      FullTerms(p, 8 * tm + r, 16 * tn + c);
    }
  }

  lemma FullTerms(p: Problem, i: nat, j: nat)
    requires Valid(p) && i < p.m && j < p.n
    ensures Terms(p, i, j)[..p.k] == Terms(p, i, j)
  {}
}
