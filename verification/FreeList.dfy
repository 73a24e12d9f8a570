/** Free lists of byte ranges: what it means for one to be canonical, the two
    edits the allocator makes, and the fact that the bytes a canonical list
    covers determine the list. */
module FreeList {

  datatype Block = Block(offset: nat, size: nat) {
    function End(): nat { offset + size }
    predicate Has(x: int) { offset <= x < End() }
  }

  ghost predicate Covers(blocks: seq<Block>, x: int) {
    exists i :: 0 <= i < |blocks| && blocks[i].Has(x)
  }

  /** Sorted, pairwise non-adjacent, non-empty and inside `[0, bytes)`. */
  ghost predicate Canonical(free: seq<Block>, bytes: nat) {
    && (forall i :: 0 <= i < |free| ==> free[i].size > 0 && free[i].End() <= bytes)
    && (forall i, j :: 0 <= i < j < |free| ==> free[i].End() < free[j].offset)
  }

  function NonEmpty(b: Block): (r: seq<Block>) {
    if b.size == 0 then [] else [b]
  }

  /** What is left of `free` after `[at, at + size)` is taken out of block `i`. */
  function Carve(free: seq<Block>, i: nat, at: nat, size: nat): seq<Block>
    requires i < |free| && free[i].offset <= at && at + size <= free[i].End()
  {
    free[..i]
    + NonEmpty(Block(free[i].offset, at - free[i].offset))
    + NonEmpty(Block(at + size, free[i].End() - (at + size)))
    + free[i + 1..]
  }

  /** Position of the first block that does not start below `offset`. */
  function Slot(free: seq<Block>, offset: nat): (i: nat)
    ensures i <= |free|
    ensures forall j :: 0 <= j < i ==> free[j].offset < offset
    ensures i < |free| ==> free[i].offset >= offset
  {
    if free == [] || free[0].offset >= offset then 0 else 1 + Slot(free[1..], offset)
  }

  predicate JoinsLeft(before: seq<Block>, b: Block) {
    before != [] && before[|before| - 1].End() == b.offset
  }

  predicate JoinsRight(b: Block, after: seq<Block>) {
    after != [] && b.End() == after[0].offset
  }

  /** `b` between two runs of blocks, merged with the neighbours it touches. */
  function Join(before: seq<Block>, b: Block, after: seq<Block>): seq<Block> {
    var left, right := JoinsLeft(before, b), JoinsRight(b, after);
    var n := |before|;
    (if left then before[..n - 1] else before)
    + [Block(if left then before[n - 1].offset else b.offset,
             (if left then before[n - 1].size else 0) + b.size + (if right then after[0].size else 0))]
    + (if right then after[1..] else after)
  }

  /** `free` with block `b` given back at its place. */
  function GiveBack(free: seq<Block>, b: Block): seq<Block> {
    var i := Slot(free, b.offset);
    Join(free[..i], b, free[i..])
  }

  lemma CoversConcat(a: seq<Block>, b: seq<Block>, x: int)
    ensures Covers(a + b, x) <==> Covers(a, x) || Covers(b, x)
  {
    if Covers(a, x) {
      var i :| 0 <= i < |a| && a[i].Has(x);
      assert (a + b)[i].Has(x);
    }
    if Covers(b, x) {
      var i :| 0 <= i < |b| && b[i].Has(x);
      assert (a + b)[|a| + i].Has(x);
    }
  }

  lemma CoversOne(b: Block, x: int)
    ensures Covers([b], x) <==> b.Has(x)
    ensures Covers(NonEmpty(b), x) <==> b.Has(x)
  {
    if b.Has(x) { assert [b][0].Has(x); }
  }

  lemma CoversParts(a: seq<Block>, b: seq<Block>, c: seq<Block>, x: int)
    ensures Covers(a + b + c, x) <==> Covers(a, x) || Covers(b, x) || Covers(c, x)
  {
    CoversConcat(a, b, x);
    CoversConcat(a + b, c, x);
  }

  /** A canonical list split around position `i`. */
  lemma CoversSplit(free: seq<Block>, i: nat, j: nat, x: int)
    requires i <= j <= |free|
    ensures Covers(free, x) <==> Covers(free[..i], x) || Covers(free[i..j], x) || Covers(free[j..], x)
  {
    CoversParts(free[..i], free[i..j], free[j..], x);
    assert free == free[..i] + free[i..j] + free[j..];
  }

  /** Two canonical runs with a gap between them. */
  lemma CanonicalConcat(a: seq<Block>, b: seq<Block>, bytes: nat)
    requires Canonical(a, bytes) && Canonical(b, bytes)
    requires a != [] && b != [] ==> a[|a| - 1].End() < b[0].offset
    ensures Canonical(a + b, bytes)
  {
    forall i, j | 0 <= i < j < |a + b| ensures (a + b)[i].End() < (a + b)[j].offset {
      if i < |a| <= j {
        var l := j - |a|;
        assert a[i].End() <= a[|a| - 1].End() && b[0].offset <= b[l].offset;
      }
    }
  }

  /** The blocks before and after a position, and the gaps next to it. */
  lemma CanonicalParts(free: seq<Block>, bytes: nat, i: nat, j: nat)
    requires Canonical(free, bytes) && i <= j <= |free|
    ensures Canonical(free[..i], bytes) && Canonical(free[j..], bytes)
    ensures i < |free| && free[..i] != [] ==> free[..i][|free[..i]| - 1].End() < free[i].offset
    ensures j > 0 && free[j..] != [] ==> free[j - 1].End() < free[j..][0].offset
  {}

  /** A run, one or two blocks, and a run, with gaps between them. */
  lemma CanonicalAround(a: seq<Block>, p: Block, c: seq<Block>, bytes: nat)
    requires Canonical(a, bytes) && Canonical(c, bytes) && p.size > 0 && p.End() <= bytes
    requires (a != [] ==> a[|a| - 1].End() < p.offset) && (c != [] ==> p.End() < c[0].offset)
    ensures Canonical(a + [p] + c, bytes)
  {
    CanonicalConcat(a, [p], bytes);
    CanonicalConcat(a + [p], c, bytes);
  }

  lemma CanonicalAroundTwo(a: seq<Block>, p: Block, q: Block, c: seq<Block>, bytes: nat)
    requires Canonical(a, bytes) && Canonical(c, bytes) && p.size > 0 && q.size > 0 && p.End() < q.offset
             && q.End() <= bytes
    requires (a != [] ==> a[|a| - 1].End() < p.offset) && (c != [] ==> q.End() < c[0].offset)
    ensures Canonical(a + [p] + [q] + c, bytes)
  {
    CanonicalConcat(a, [p], bytes);
    CanonicalAround(a + [p], q, c, bytes);
  }

  lemma Parts(a: seq<Block>, p: Block, q: Block, c: seq<Block>)
    ensures p.size == 0 && q.size == 0 ==> a + NonEmpty(p) + NonEmpty(q) + c == a + c
    ensures p.size > 0 && q.size == 0 ==> a + NonEmpty(p) + NonEmpty(q) + c == a + [p] + c
    ensures p.size == 0 && q.size > 0 ==> a + NonEmpty(p) + NonEmpty(q) + c == a + [q] + c
    ensures p.size > 0 && q.size > 0 ==> a + NonEmpty(p) + NonEmpty(q) + c == a + [p] + [q] + c
  {}

  lemma CarvedParts(a: seq<Block>, p: Block, q: Block, c: seq<Block>, bytes: nat)
    requires Canonical(a, bytes) && Canonical(c, bytes) && p.End() < q.offset && q.End() <= bytes
    requires (a != [] ==> a[|a| - 1].End() < p.offset) && (c != [] ==> q.End() < c[0].offset)
    ensures Canonical(a + NonEmpty(p) + NonEmpty(q) + c, bytes)
  {
    Parts(a, p, q, c);
    if p.size > 0 && q.size > 0 { CanonicalAroundTwo(a, p, q, c, bytes); }
    else if p.size > 0 { CanonicalAround(a, p, c, bytes); }
    else if q.size > 0 { CanonicalAround(a, q, c, bytes); }
    else { CanonicalConcat(a, c, bytes); }
  }

  lemma CarveCanonical(free: seq<Block>, bytes: nat, i: nat, at: nat, size: nat)
    requires Canonical(free, bytes)
    requires i < |free| && free[i].offset <= at && at + size <= free[i].End() && size > 0
    ensures Canonical(Carve(free, i, at, size), bytes)
  {
    var prefix, suffix := Block(free[i].offset, at - free[i].offset), Block(at + size, free[i].End() - (at + size));
    CanonicalParts(free, bytes, i, i + 1);
    CarvedParts(free[..i], prefix, suffix, free[i + 1..], bytes);
  }

  lemma CarveCovers(free: seq<Block>, bytes: nat, i: nat, at: nat, size: nat, x: int)
    requires Canonical(free, bytes)
    requires i < |free| && free[i].offset <= at && at + size <= free[i].End() && size > 0
    ensures Covers(Carve(free, i, at, size), x) <==> Covers(free, x) && !(at <= x < at + size)
  {
    var prefix, suffix := Block(free[i].offset, at - free[i].offset), Block(at + size, free[i].End() - (at + size));
    CoversParts(free[..i], NonEmpty(prefix) + NonEmpty(suffix), free[i + 1..], x);
    assert Carve(free, i, at, size) == free[..i] + (NonEmpty(prefix) + NonEmpty(suffix)) + free[i + 1..];
    CoversConcat(NonEmpty(prefix), NonEmpty(suffix), x);
    CoversOne(prefix, x);
    CoversOne(suffix, x);
    CoversSplit(free, i, i + 1, x);
    assert free[i..i + 1] == [free[i]];
    CoversOne(free[i], x);
    CoversApart(free, bytes, i, x);
  }

  /** Carving keeps the list canonical and removes exactly the carved bytes. */
  lemma CarveKeepsCanonical(free: seq<Block>, bytes: nat, i: nat, at: nat, size: nat)
    requires Canonical(free, bytes)
    requires i < |free| && free[i].offset <= at && at + size <= free[i].End() && size > 0
    ensures Canonical(Carve(free, i, at, size), bytes)
    ensures |Carve(free, i, at, size)| <= |free| + 1
    ensures forall x :: Covers(Carve(free, i, at, size), x) <==> Covers(free, x) && !(at <= x < at + size)
  {
    CarveCanonical(free, bytes, i, at, size);
    forall x ensures Covers(Carve(free, i, at, size), x) <==> Covers(free, x) && !(at <= x < at + size) {
      CarveCovers(free, bytes, i, at, size, x);
    }
  }

  lemma CoversApart(free: seq<Block>, bytes: nat, i: nat, x: int)
    requires Canonical(free, bytes) && i < |free|
    ensures Covers(free[..i], x) ==> x < free[i].offset
    ensures Covers(free[i + 1..], x) ==> x > free[i].End()
  {
    if Covers(free[i + 1..], x) {
      var j :| 0 <= j < |free[i + 1..]| && free[i + 1..][j].Has(x);
      assert free[i + 1 + j].Has(x);
    }
  }

  /** Replacing `free[lo..hi]` by one block strictly between its neighbours
      keeps the list canonical. */
  lemma SpliceCanonical(free: seq<Block>, bytes: nat, lo: nat, hi: nat, b: Block)
    requires Canonical(free, bytes) && lo <= hi <= |free|
    requires b.size > 0 && b.End() <= bytes
    requires lo > 0 ==> free[lo - 1].End() < b.offset
    requires hi < |free| ==> b.End() < free[hi].offset
    ensures Canonical(free[..lo] + [b] + free[hi..], bytes)
  {
    CanonicalParts(free, bytes, lo, hi);
    CanonicalAround(free[..lo], b, free[hi..], bytes);
  }

  /** Giving back, as a splice of the merged block over the neighbours it touches. */
  lemma GiveBackSplices(free: seq<Block>, b: Block) returns (lo: nat, hi: nat, merged: Block)
    ensures var i := Slot(free, b.offset);
            && lo == (if JoinsLeft(free[..i], b) then i - 1 else i)
               && hi == (if JoinsRight(b, free[i..]) then i + 1 else i) && hi <= |free|
            && merged.offset == (if lo < i then free[lo].offset else b.offset)
            && merged.End() == (if i < hi then free[i].End() else b.End())
    ensures GiveBack(free, b) == free[..lo] + [merged] + free[hi..]
  {
    var i := Slot(free, b.offset);
    var left, right := JoinsLeft(free[..i], b), JoinsRight(b, free[i..]);
    lo, hi := if left then i - 1 else i, if right then i + 1 else i;
    merged := Block(if left then free[i - 1].offset
                    else b.offset, (if left then free[i - 1].size else 0) + b.size
                         + (if right then free[i].size else 0));
    assert right ==> free[i..][1..] == free[hi..];
    assert left ==> free[..i][..i - 1] == free[..lo];
  }

  /** Giving back bytes that are not free keeps the list canonical and adds
      exactly those bytes. */
  lemma GiveBackKeepsCanonical(free: seq<Block>, bytes: nat, b: Block)
    requires Canonical(free, bytes)
    requires b.size > 0 && b.End() <= bytes
    requires forall x :: b.Has(x) ==> !Covers(free, x)
    ensures Canonical(GiveBack(free, b), bytes)
    ensures forall x :: Covers(GiveBack(free, b), x) <==> Covers(free, x) || b.Has(x)
  {
    var i := Slot(free, b.offset);
    SlotSeparates(free, bytes, b);
    var lo, hi, merged := GiveBackSplices(free, b);
    SpliceCanonical(free, bytes, lo, hi, merged);
    forall x ensures Covers(GiveBack(free, b), x) <==> Covers(free, x) || b.Has(x) {
      MergedCovers(free, b, lo, i, hi, merged, x);
    }
  }

  lemma MergedCovers(free: seq<Block>, b: Block, lo: nat, i: nat, hi: nat, merged: Block, x: int)
    requires i <= |free| && i - 1 <= lo <= i <= hi <= i + 1 && hi <= |free|
    requires merged.offset == (if lo < i then free[lo].offset else b.offset)
             && merged.End() == (if i < hi then free[i].End() else b.End())
    requires (lo < i ==> free[lo].End() == b.offset) && (i < hi ==> free[i].offset == b.End())
    ensures Covers(free[..lo] + [merged] + free[hi..], x) <==> Covers(free, x) || b.Has(x)
  {
    CoversParts(free[..lo], [merged], free[hi..], x);
    CoversOne(merged, x);
    CoversSplit(free, lo, hi, x);
    CoversMiddle(free, lo, i, hi, x);
  }

  lemma CoversMiddle(free: seq<Block>, lo: nat, i: nat, hi: nat, x: int)
    requires i <= |free| && i - 1 <= lo <= i <= hi <= i + 1 && hi <= |free|
    ensures Covers(free[lo..hi], x) <==> (lo < i && free[lo].Has(x)) || (i < hi && free[i].Has(x))
  {
    if lo < i {
      assert free[lo..hi][0] == free[lo];
    }
    if i < hi {
      assert free[lo..hi][i - lo] == free[i];
    }
  }

  lemma SlotSeparates(free: seq<Block>, bytes: nat, b: Block)
    requires Canonical(free, bytes) && b.size > 0
    requires forall x :: b.Has(x) ==> !Covers(free, x)
    ensures var i := Slot(free, b.offset);
            && (i > 0 ==> free[i - 1].End() <= b.offset)
            && (i < |free| ==> b.End() <= free[i].offset)
  {
    var i := Slot(free, b.offset);
    if i > 0 && free[i - 1].End() > b.offset {
      assert b.Has(b.offset) && free[i - 1].Has(b.offset);
    }
    if i < |free| && b.End() > free[i].offset {
      assert b.Has(free[i].offset) && free[i].Has(free[i].offset);
    }
  }

  /** Canonical lists covering the same bytes are equal. */
  lemma {:induction false} CanonicalUnique(f: seq<Block>, g: seq<Block>, bytes: nat)
    requires Canonical(f, bytes) && Canonical(g, bytes)
    requires forall x :: Covers(f, x) <==> Covers(g, x)
    ensures f == g
    decreases |f|
  {
    if f == [] || g == [] {
      if f != [] { FirstCovered(f, bytes); } else if g != [] { FirstCovered(g, bytes); }
    } else {
      FirstReaches(f, g, bytes);
      FirstReaches(g, f, bytes);
      assert f[0].offset == g[0].offset && f[0].End() == g[0].End();
      forall x ensures Covers(f[1..], x) <==> Covers(g[1..], x) { TailsAgree(f, g, bytes, x); }
      TailCanonical(f, bytes);
      TailCanonical(g, bytes);
      CanonicalUnique(f[1..], g[1..], bytes);
      assert f == [f[0]] + f[1..] && g == [g[0]] + g[1..];
    }
  }

  lemma TailCanonical(f: seq<Block>, bytes: nat)
    requires Canonical(f, bytes) && f != []
    ensures Canonical(f[1..], bytes)
  {
    forall i, j | 0 <= i < j < |f[1..]| ensures f[1..][i].End() < f[1..][j].offset {
      assert f[i + 1].End() < f[j + 1].offset;
    }
  }

  /** Lists with the same bytes and the same first block have tails with the same bytes. */
  lemma TailsAgree(f: seq<Block>, g: seq<Block>, bytes: nat, x: int)
    requires Canonical(f, bytes) && Canonical(g, bytes) && f != [] && g != [] && f[0] == g[0]
    requires Covers(f, x) <==> Covers(g, x)
    ensures Covers(f[1..], x) <==> Covers(g[1..], x)
  {
    TailCovers(f, bytes, x);
    TailCovers(g, bytes, x);
  }

  lemma TailCovers(f: seq<Block>, bytes: nat, x: int)
    requires Canonical(f, bytes) && f != []
    ensures Covers(f[1..], x) <==> Covers(f, x) && !f[0].Has(x)
  {
    CoversSplit(f, 0, 1, x);
    assert f[0..1] == [f[0]];
    CoversOne(f[0], x);
    CoversApart(f, bytes, 0, x);
  }

  lemma FirstCovered(f: seq<Block>, bytes: nat)
    requires Canonical(f, bytes) && f != []
    ensures Covers(f, f[0].offset) && !Covers(f, f[0].End())
    ensures forall x :: Covers(f, x) ==> x >= f[0].offset
    ensures forall x :: f[0].Has(x) ==> Covers(f, x)
  {
    assert f[0].Has(f[0].offset);
  }

  lemma FirstReaches(f: seq<Block>, g: seq<Block>, bytes: nat)
    requires Canonical(f, bytes) && Canonical(g, bytes) && f != [] && g != []
    requires forall x :: Covers(f, x) <==> Covers(g, x)
    ensures g[0].offset <= f[0].offset
    ensures g[0].offset == f[0].offset ==> g[0].End() <= f[0].End()
  {
    FirstCovered(f, bytes);
    FirstCovered(g, bytes);
    assert Covers(g, f[0].offset) && !Covers(g, f[0].End());
  }
}
