/** The value of one TCM arena and its two transitions, as functions, together
    with what every run of them keeps. The class in TcmArena.dfy performs these
    transitions in place. */
module ArenaModel {
  import opened BitArithmetic
  import opened FreeList

  const MAX_ALLOCATIONS := 256
  const MAX_FREE_BLOCKS := MAX_ALLOCATIONS + 2

  /** `size_t` and `uintptr_t`. */
  type Word = x: nat | x < WORD

  datatype Allocation = Allocation(pointer: nat, block: Block)

  /** `base` is zero for a null base pointer. */
  datatype Arena = Arena(base: Word, bytes: nat, free: seq<Block>, live: seq<Allocation>)

  function Blocks(live: seq<Allocation>): (r: seq<Block>)
    ensures |r| == |live| && forall i :: 0 <= i < |live| ==> r[i] == live[i].block
  {
    seq(|live|, i requires 0 <= i < |live| => live[i].block)
  }

  function Reset(base: Word, bytes: nat): Arena {
    Arena(base, bytes, if base == 0 then [] else [Block(0, bytes)], [])
  }

  /** Offset of the first aligned address at or above a block, in wrapping words. */
  function AlignedOffset(base: Word, offset: nat, alignment: Word): Word
    requires alignment > 0
  {
    WrapSub(AlignUp(WrapAdd(base, offset % WORD), alignment), base)
  }

  /** The three guards of the first-fit search. */
  predicate Fits(base: Word, free: Block, bytes: nat, alignment: Word)
    requires alignment > 0
  {
    var at := AlignedOffset(base, free.offset, alignment);
    !(at < free.offset || at - free.offset > free.size || bytes > free.size - (at - free.offset))
  }

  function FirstFit(base: Word, free: seq<Block>, bytes: nat, alignment: Word): (i: nat)
    requires alignment > 0
    ensures i <= |free|
    ensures forall j :: 0 <= j < i ==> !Fits(base, free[j], bytes, alignment)
    ensures i < |free| ==> Fits(base, free[i], bytes, alignment)
  {
    if free == [] || Fits(base, free[0], bytes, alignment) then 0
    else 1 + FirstFit(base, free[1..], bytes, alignment)
  }

  /** `allocate_from`: the new arena and the returned pointer, zero for null. */
  function AllocateFrom(a: Arena, bytes: nat, alignment: Word): (Arena, nat)
    requires alignment > 0
  {
    if a.base == 0 || |a.live| == MAX_ALLOCATIONS then (a, 0)
    else
      var i := FirstFit(a.base, a.free, bytes, alignment);
      if i == |a.free| then (a, 0)
      else
        var at := AlignedOffset(a.base, a.free[i].offset, alignment);
        if at != a.free[i].offset && at + bytes != a.free[i].End() && |a.free| == MAX_FREE_BLOCKS then (a, 0)
        else
          (a.(free := Carve(a.free, i, at, bytes), live := a.live + [Allocation(a.base + at, Block(at, bytes))]),
           a.base + at)
  }

  /** Position of the allocation with this pointer, or the length of the table. */
  function Find(live: seq<Allocation>, pointer: nat): (i: nat)
    ensures i <= |live|
    ensures forall j :: 0 <= j < i ==> live[j].pointer != pointer
    ensures i < |live| ==> live[i].pointer == pointer
  {
    if live == [] || live[0].pointer == pointer then 0 else 1 + Find(live[1..], pointer)
  }

  /** Entry `i` replaced by the last one, and the table shortened. */
  function SwapRemove(live: seq<Allocation>, i: nat): seq<Allocation>
    requires i < |live|
  {
    live[i := live[|live| - 1]][..|live| - 1]
  }

  /** The part of `deallocate` done on the arena that owns the address. */
  function DeallocateIn(a: Arena, pointer: nat): Arena {
    var i := Find(a.live, pointer);
    if i == |a.live| then a
    else a.(live := SwapRemove(a.live, i),
            free := if |a.free| < MAX_FREE_BLOCKS then GiveBack(a.free, a.live[i].block) else a.free)
  }

  // ---------- The invariant ----------

  ghost predicate LiveWellFormed(a: Arena) {
    && (forall i :: 0 <= i < |a.live| ==>
          a.live[i].block.size > 0 && a.live[i].block.End() <= a.bytes
          && a.live[i].pointer == a.base + a.live[i].block.offset)
    && (forall i, j :: 0 <= i < |a.live| && 0 <= j < |a.live| && i != j ==>
          a.live[i].block.End() <= a.live[j].block.offset || a.live[j].block.End() <= a.live[i].block.offset)
  }

  /** Free list and live blocks partition `[0, bytes)`. */
  ghost predicate Partition(a: Arena) {
    forall x :: 0 <= x < a.bytes ==> (Covers(a.free, x) <==> !Covers(Blocks(a.live), x))
  }

  ghost predicate Inv(a: Arena) {
    && |a.live| <= MAX_ALLOCATIONS
    && (a.base == 0 ==> a.free == [] && a.live == [])
    && (a.base != 0 ==>
          && 0 < a.bytes && a.base + a.bytes <= WORD
          && Canonical(a.free, a.bytes)
          && LiveWellFormed(a)
          && Partition(a))
  }

  lemma ResetInv(base: Word, bytes: nat)
    requires base != 0 ==> 0 < bytes && base + bytes <= WORD
    ensures Inv(Reset(base, bytes))
  {
    if base != 0 {
      forall x | 0 <= x < bytes ensures Covers([Block(0, bytes)], x) { CoversOne(Block(0, bytes), x); }
    }
  }

  // ---------- Capacity ----------

  lemma {:induction false} GapOwners(a: Arena, n: nat) returns (owners: set<nat>)
    requires Inv(a) && n < |a.free|
    ensures |owners| == n
    ensures forall j :: j in owners ==> j < |a.live| && a.live[j].block.offset < a.free[n].offset
  {
    if n == 0 {
      owners := {};
    } else {
      var before := GapOwners(a, n - 1);
      var j := GapOwner(a, n - 1);
      owners := before + {j};
    }
  }

  /** A live block starts where free block `n` ends. */
  lemma GapOwner(a: Arena, n: nat) returns (j: nat)
    requires Inv(a) && n + 1 < |a.free|
    ensures j < |a.live| && a.live[j].block.offset == a.free[n].End() < a.free[n + 1].offset
  {
    var x := a.free[n].End();
    EndIsNotFree(a, n);
    j :| 0 <= j < |Blocks(a.live)| && Blocks(a.live)[j].Has(x);
    LiveIsNotFree(a, j);
    assert a.free[n].Has(x - 1);
    assert Covers(a.free, x - 1);
  }

  lemma EndIsNotFree(a: Arena, n: nat)
    requires Inv(a) && n + 1 < |a.free|
    ensures a.free[n].End() < a.bytes
    ensures Covers(Blocks(a.live), a.free[n].End())
  {
    var x := a.free[n].End();
    assert x < a.free[n + 1].offset;
    forall i | 0 <= i < |a.free| ensures !a.free[i].Has(x) {
      assert i < n ==> a.free[i].End() < a.free[n].offset;
      assert i > n ==> x < a.free[i].offset;
    }
    assert !Covers(a.free, x);
  }

  lemma LiveIsNotFree(a: Arena, j: nat)
    requires Inv(a) && j < |a.live|
    ensures forall x :: a.live[j].block.Has(x) ==> !Covers(a.free, x)
  {
    forall x | a.live[j].block.Has(x) ensures !Covers(a.free, x) {
      assert Blocks(a.live)[j].Has(x);
    }
  }

  lemma {:induction false} BoundedSetSize(s: set<nat>, n: nat)
    requires forall j :: j in s ==> j < n
    ensures |s| <= n
  {
    if n > 0 { BoundedSetSize(s - {n - 1}, n - 1); }
    else { assert s == {}; }
  }

  /** Between any two free blocks lies a live one: the free list never holds
      more than one block more than the allocation table. */
  lemma FreeCountBound(a: Arena)
    requires Inv(a)
    ensures |a.free| <= |a.live| + 1
    ensures |a.free| + 1 <= 258 == MAX_FREE_BLOCKS
  {
    if |a.free| > 0 {
      var owners := GapOwners(a, |a.free| - 1);
      BoundedSetSize(owners, |a.live|);
    }
  }

  // ---------- The free list is determined by the live bytes ----------

  lemma FreeDetermined(a: Arena, b: Arena)
    requires Inv(a) && Inv(b) && a.base == b.base && a.bytes == b.bytes
    requires forall x :: Covers(Blocks(a.live), x) <==> Covers(Blocks(b.live), x)
    ensures a.free == b.free
  {
    if a.base != 0 {
      forall x ensures Covers(a.free, x) <==> Covers(b.free, x) {
        if !(0 <= x < a.bytes) {
          assert !Covers(a.free, x) && !Covers(b.free, x);
        }
      }
      CanonicalUnique(a.free, b.free, a.bytes);
    }
  }

  /** With nothing live the whole arena is one free block. */
  lemma NothingLive(a: Arena)
    requires Inv(a) && a.live == [] && a.base != 0
    ensures a == Reset(a.base, a.bytes)
  {
    ResetInv(a.base, a.bytes);
    FreeDetermined(a, Reset(a.base, a.bytes));
  }

  // ---------- Allocation ----------

  /** Some placement of `bytes` bytes at an aligned address lies in this block. */
  ghost predicate Room(base: Word, free: Block, at: nat, bytes: nat, alignment: Word)
    requires alignment > 0
  {
    free.offset <= at && at + bytes <= free.End() && (base + at) % alignment == 0
  }

  /** The guards accept a block exactly when it has room for the aligned request,
      and the offset they use is then the lowest possible; an address that wraps
      past 2^64 is always rejected. */
  lemma FitsMeaning(base: Word, free: Block, bytes: nat, k: nat, m: nat)
    requires base > 0 && bytes > 0 && free.size > 0 && base + free.End() <= WORD && k < 64 && m == Pow2(k) < WORD
    ensures var at := AlignedOffset(base, free.offset, m);
            if Fits(base, free, bytes, m)
            then Room(base, free, at, bytes, m) && forall x: nat :: Room(base, free, x, bytes, m) ==> at <= x
            else forall x: nat :: !Room(base, free, x, bytes, m)
  {
    if base + free.offset <= WORD - m {
      FitsInRange(base, free, bytes, k, m);
    } else {
      FitsWraps(base, free, bytes, k, m);
    }
  }

  lemma OffsetIsWord(base: Word, offset: nat, m: Word)
    requires base + offset < WORD && m > 0
    ensures AlignedOffset(base, offset, m) == WrapSub(AlignUp(base + offset, m), base)
  {
    assert offset % WORD == offset;
  }

  lemma FitsInRange(base: Word, free: Block, bytes: nat, k: nat, m: nat)
    requires base > 0 && bytes > 0 && free.size > 0 && base + free.End() <= WORD && k < 64 && m == Pow2(k) < WORD
    requires base + free.offset <= WORD - m
    ensures var at := AlignedOffset(base, free.offset, m);
            && (Fits(base, free, bytes, m) <==> Room(base, free, at, bytes, m))
            && forall x: nat :: Room(base, free, x, bytes, m) ==> at <= x && Fits(base, free, bytes, m)
  {
    var value := base + free.offset;
    AlignUpInRange(value, k, m);
    OffsetIsWord(base, free.offset, m);
    forall x: nat | Room(base, free, x, bytes, m) ensures AlignUp(value, m) <= base + x {}
  }

  lemma FitsWraps(base: Word, free: Block, bytes: nat, k: nat, m: nat)
    requires base > 0 && bytes > 0 && free.size > 0 && base + free.End() <= WORD && k < 64 && m == Pow2(k) < WORD
    requires base + free.offset > WORD - m
    ensures !Fits(base, free, bytes, m)
    ensures forall x: nat :: !Room(base, free, x, bytes, m)
  {
    var value := base + free.offset;
    AlignUpWraps(value, k, m);
    OffsetIsWord(base, free.offset, m);
    assert WrapSub(0, base) == WORD - base;
    forall x: nat ensures !Room(base, free, x, bytes, m) {
      assert Room(base, free, x, bytes, m) ==> WORD <= base + x;
    }
  }

  /** Some free block has room at `at`. */
  ghost predicate RoomAt(a: Arena, at: nat, bytes: nat, alignment: Word)
    requires alignment > 0
  {
    exists i :: 0 <= i < |a.free| && Room(a.base, a.free[i], at, bytes, alignment)
  }

  lemma FirstFitMeaning(a: Arena, bytes: nat, k: nat, m: nat)
    requires Inv(a) && a.base != 0 && bytes > 0 && k < 64 && m == Pow2(k) < WORD
    ensures var i := FirstFit(a.base, a.free, bytes, m);
            if i < |a.free|
            then var at := AlignedOffset(a.base, a.free[i].offset, m);
                 && Room(a.base, a.free[i], at, bytes, m)
                 && RoomAt(a, at, bytes, m)
                 && forall x: nat :: RoomAt(a, x, bytes, m) ==> at <= x
            else forall x: nat :: !RoomAt(a, x, bytes, m)
  {
    var i := FirstFit(a.base, a.free, bytes, m);
    if i < |a.free| { FitsMeaning(a.base, a.free[i], bytes, k, m); }
    forall x: nat | RoomAt(a, x, bytes, m)
      ensures i < |a.free| && AlignedOffset(a.base, a.free[i].offset, m) <= x
    {
      var j :| 0 <= j < |a.free| && Room(a.base, a.free[j], x, bytes, m);
      FitsMeaning(a.base, a.free[j], bytes, k, m);
      if i < j { assert a.free[i].End() < a.free[j].offset; }
    }
  }

  /** No live block reaches into the `bytes` bytes at `at`. */
  ghost predicate Unused(a: Arena, at: nat, bytes: nat) {
    forall j :: 0 <= j < |a.live| ==> at + bytes <= a.live[j].block.offset || a.live[j].block.End() <= at
  }

  /** There is room in a free block exactly where the aligned bytes lie in the
      arena and no live block reaches into them. */
  lemma RoomIsUnused(a: Arena, at: nat, bytes: nat, alignment: Word)
    requires Inv(a) && a.base != 0 && bytes > 0 && alignment > 0
    ensures RoomAt(a, at, bytes, alignment) <==>
            (a.base + at) % alignment == 0 && at + bytes <= a.bytes && Unused(a, at, bytes)
  {
    if RoomAt(a, at, bytes, alignment) {
      var i :| 0 <= i < |a.free| && Room(a.base, a.free[i], at, bytes, alignment);
      forall j | 0 <= j < |a.live| ensures at + bytes <= a.live[j].block.offset || a.live[j].block.End() <= at {
        LiveIsNotFree(a, j);
        var b := a.live[j].block;
        var x := if b.offset <= at then at else b.offset;
        assert a.free[i].Has(x) ==> Covers(a.free, x);
        assert b.Has(x) ==> !Covers(a.free, x);
      }
    } else if (a.base + at) % alignment == 0 && at + bytes <= a.bytes && Unused(a, at, bytes) {
      var i := UnusedIsFree(a, at, bytes);
      assert Room(a.base, a.free[i], at, bytes, alignment);
    }
  }

  lemma UnusedIsFree(a: Arena, at: nat, bytes: nat) returns (i: nat)
    requires Inv(a) && a.base != 0 && bytes > 0 && at + bytes <= a.bytes && Unused(a, at, bytes)
    ensures i < |a.free| && a.free[i].offset <= at && at + bytes <= a.free[i].End()
  {
    UnusedByte(a, at, bytes, at);
    i :| 0 <= i < |a.free| && a.free[i].Has(at);
    EndNotCovered(a, i);
    if a.free[i].End() < at + bytes { UnusedByte(a, at, bytes, a.free[i].End()); }
  }

  lemma EndNotCovered(a: Arena, i: nat)
    requires Inv(a) && i < |a.free|
    ensures !Covers(a.free, a.free[i].End())
  {
    var x := a.free[i].End();
    forall j | 0 <= j < |a.free| ensures !a.free[j].Has(x) {
      assert j < i ==> a.free[j].End() < a.free[i].offset;
      assert j > i ==> x < a.free[j].offset;
    }
  }

  lemma UnusedByte(a: Arena, at: nat, bytes: nat, x: nat)
    requires Inv(a) && a.base != 0 && at + bytes <= a.bytes && Unused(a, at, bytes) && at <= x < at + bytes
    ensures Covers(a.free, x)
  {
    forall j | 0 <= j < |Blocks(a.live)| ensures !Blocks(a.live)[j].Has(x) {
      assert Blocks(a.live)[j] == a.live[j].block;
    }
  }

  /** The outcome of an allocation in terms of the first fitting block. */
  lemma AllocateOutcome(a: Arena, bytes: nat, k: nat, m: nat, i: nat)
    requires Inv(a) && bytes > 0 && k < 64 && m == Pow2(k) < WORD
    requires i == FirstFit(a.base, a.free, bytes, m)
    ensures var (b, p) := AllocateFrom(a, bytes, m);
            if a.base == 0 || |a.live| == MAX_ALLOCATIONS || i == |a.free| then b == a && p == 0
            else
              var at := AlignedOffset(a.base, a.free[i].offset, m);
              && a.free[i].offset <= at && at + bytes <= a.free[i].End()
              && p == a.base + at > 0
              && b == a.(free := Carve(a.free, i, at, bytes), live := a.live + [Allocation(p, Block(at, bytes))])
  {
    FreeCountBound(a);
    if a.base != 0 && |a.live| < MAX_ALLOCATIONS && i < |a.free| {
      FirstFitMeaning(a, bytes, k, m);
    }
  }

  /** What an allocation does in every reachable arena. It succeeds exactly when
      the table has an entry left and some free block can hold the request; it
      takes the lowest aligned offset that can; the split never overflows. */
  lemma AllocateMeaning(a: Arena, bytes: nat, k: nat, m: nat)
    requires Inv(a) && bytes > 0 && k < 64 && m == Pow2(k) < WORD
    ensures var (b, p) := AllocateFrom(a, bytes, m);
            && (p != 0 <==> a.base != 0 && |a.live| < MAX_ALLOCATIONS && exists at: nat :: RoomAt(a, at, bytes, m))
            && (p == 0 ==> b == a)
            && (p != 0 ==>
                  && p % m == 0
                  && a.base <= p && RoomAt(a, p - a.base, bytes, m)
                  && (forall at: nat :: RoomAt(a, at, bytes, m) ==> p - a.base <= at)
                  && b.base == a.base && b.bytes == a.bytes
                  && b.live == a.live + [Allocation(p, Block(p - a.base, bytes))])
  {
    AllocateOutcome(a, bytes, k, m, FirstFit(a.base, a.free, bytes, m));
    if a.base != 0 { FirstFitMeaning(a, bytes, k, m); }
  }

  lemma AllocateKeepsInv(a: Arena, bytes: nat, k: nat, m: nat)
    requires Inv(a) && bytes > 0 && k < 64 && m == Pow2(k) < WORD
    ensures Inv(AllocateFrom(a, bytes, m).0)
  {
    var i := FirstFit(a.base, a.free, bytes, m);
    AllocateOutcome(a, bytes, k, m, i);
    if a.base != 0 && |a.live| != MAX_ALLOCATIONS && i != |a.free| {
      TakeKeepsInv(a, i, AlignedOffset(a.base, a.free[i].offset, m), bytes);
    }
  }

  /** Moving a piece of a free block to the allocation table keeps the invariant. */
  lemma TakeKeepsInv(a: Arena, i: nat, at: nat, bytes: nat)
    requires Inv(a) && a.base != 0 && |a.live| < MAX_ALLOCATIONS && i < |a.free| && bytes > 0
    requires a.free[i].offset <= at && at + bytes <= a.free[i].End()
    ensures Inv(a.(free := Carve(a.free, i, at, bytes), live := a.live + [Allocation(a.base + at, Block(at, bytes))]))
  {
    var b := a.(free := Carve(a.free, i, at, bytes), live := a.live + [Allocation(a.base + at, Block(at, bytes))]);
    CarveKeepsCanonical(a.free, a.bytes, i, at, bytes);
    TakenWasFree(a, i, at, bytes);
    assert Blocks(b.live) == Blocks(a.live) + [Block(at, bytes)];
    forall x | 0 <= x < b.bytes ensures Covers(b.free, x) <==> !Covers(Blocks(b.live), x) {
      CoversConcat(Blocks(a.live), [Block(at, bytes)], x);
      CoversOne(Block(at, bytes), x);
      assert Block(at, bytes).Has(x) ==> a.free[i].Has(x);
      assert a.free[i].Has(x) ==> Covers(a.free, x);
    }
  }

  lemma TakenWasFree(a: Arena, i: nat, at: nat, bytes: nat)
    requires Inv(a) && a.base != 0 && i < |a.free| && bytes > 0
    requires a.free[i].offset <= at && at + bytes <= a.free[i].End()
    ensures forall j :: 0 <= j < |a.live| ==>
              a.live[j].block.End() <= at || at + bytes <= a.live[j].block.offset
  {
    forall j | 0 <= j < |a.live|
      ensures a.live[j].block.End() <= at || at + bytes <= a.live[j].block.offset
    {
      var b := a.live[j].block;
      var x := if b.offset < at then at else b.offset;
      LiveIsNotFree(a, j);
      assert at <= x < at + bytes ==> a.free[i].Has(x);
      assert a.free[i].Has(x) ==> Covers(a.free, x);
    }
  }

  // ---------- Deallocation ----------

  lemma SwapRemoveAt(live: seq<Allocation>, i: nat, j: nat)
    requires i < |live| && j < |live| - 1
    ensures SwapRemove(live, i)[j] == if j == i then live[|live| - 1] else live[j]
  {}

  /** Removing one of pairwise disjoint blocks uncovers exactly its bytes. */
  lemma SwapRemoveCovers(a: Arena, i: nat, x: int)
    requires LiveWellFormed(a) && i < |a.live|
    ensures Covers(Blocks(SwapRemove(a.live, i)), x) <==> Covers(Blocks(a.live), x) && !a.live[i].block.Has(x)
  {
    var rest := SwapRemove(a.live, i);
    if Covers(Blocks(rest), x) {
      var j :| 0 <= j < |rest| && Blocks(rest)[j].Has(x);
      var k := if j == i then |a.live| - 1 else j;
      assert Blocks(a.live)[k].Has(x);
    }
    if Covers(Blocks(a.live), x) && !a.live[i].block.Has(x) {
      var j :| 0 <= j < |a.live| && Blocks(a.live)[j].Has(x);
      var k := if j == |a.live| - 1 then i else j;
      assert Blocks(rest)[k].Has(x);
    }
  }

  ghost predicate IsLive(a: Arena, pointer: nat) {
    exists i :: 0 <= i < |a.live| && a.live[i].pointer == pointer
  }

  /** Removing an entry removes its pointer and no other. */
  lemma SwapRemoveLive(a: Arena, i: nat, p: nat)
    requires Inv(a) && i < |a.live|
    ensures IsLive(a.(live := SwapRemove(a.live, i)), p) <==> IsLive(a, p) && p != a.live[i].pointer
  {
    var b := a.(live := SwapRemove(a.live, i));
    if IsLive(b, p) {
      var j :| 0 <= j < |b.live| && b.live[j].pointer == p;
      SwapRemoveAt(a.live, i, j);
      var k := if j == i then |a.live| - 1 else j;
      assert a.live[k].pointer == p;
      if p == a.live[i].pointer { LivePointersDistinct(a, i, k); }
    }
    if IsLive(a, p) && p != a.live[i].pointer {
      var j :| 0 <= j < |a.live| && a.live[j].pointer == p;
      SwapRemoveAt(a.live, i, if j == |a.live| - 1 then i else j);
      assert b.live[if j == |a.live| - 1 then i else j].pointer == p;
    }
  }

  /** Unknown and already freed pointers change nothing; a live pointer leaves
      the table, all others stay, and the bytes are never dropped. */
  lemma DeallocateMeaning(a: Arena, pointer: nat)
    requires Inv(a)
    ensures var b := DeallocateIn(a, pointer);
            && (!IsLive(a, pointer) ==> b == a)
            && (IsLive(a, pointer) ==> |b.live| == |a.live| - 1
                                       && b.free == GiveBack(a.free, a.live[Find(a.live, pointer)].block))
            && b.base == a.base && b.bytes == a.bytes
            && !IsLive(b, pointer)
            && forall p: nat :: p != pointer ==> (IsLive(b, p) <==> IsLive(a, p))
  {
    FreeCountBound(a);
    var i := Find(a.live, pointer);
    if i < |a.live| {
      var b := DeallocateIn(a, pointer);
      forall p: nat ensures IsLive(b, p) <==> IsLive(a, p) && p != pointer {
        SwapRemoveLive(a, i, p);
        assert b.live == a.(live := SwapRemove(a.live, i)).live;
      }
    }
  }

  lemma {:induction false} DeallocateKeepsInv(a: Arena, pointer: nat)
    requires Inv(a)
    ensures Inv(DeallocateIn(a, pointer))
  {
    FreeCountBound(a);
    var i := Find(a.live, pointer);
    if i < |a.live| {
      var b := DeallocateIn(a, pointer);
      var block := a.live[i].block;
      LiveIsNotFree(a, i);
      GiveBackKeepsCanonical(a.free, a.bytes, block);
      forall x | 0 <= x < b.bytes ensures Covers(b.free, x) <==> !Covers(Blocks(b.live), x) {
        SwapRemoveCovers(a, i, x);
        if block.Has(x) { assert Blocks(a.live)[i].Has(x); }
      }
    }
  }

  /** Freeing what was just allocated restores the arena exactly. */
  lemma AllocateThenDeallocate(a: Arena, bytes: nat, k: nat, m: nat)
    requires Inv(a) && bytes > 0 && k < 64 && m == Pow2(k) < WORD
    ensures var (b, p) := AllocateFrom(a, bytes, m);
            p != 0 ==> DeallocateIn(b, p) == a
  {
    AllocateMeaning(a, bytes, k, m);
    AllocateKeepsInv(a, bytes, k, m);
    var (b, p) := AllocateFrom(a, bytes, m);
    if p != 0 {
      DeallocateKeepsInv(b, p);
      DeallocateMeaning(b, p);
      var c := DeallocateIn(b, p);
      assert b.live[|a.live|].pointer == p;
      LivePointersDistinct(b, Find(b.live, p), |a.live|);
      assert c.live == a.live;
      FreeDetermined(c, a);
    }
  }

  lemma LivePointersDistinct(a: Arena, i: nat, j: nat)
    requires Inv(a) && i < |a.live| && j < |a.live| && a.live[i].pointer == a.live[j].pointer
    ensures i == j
  {}

  // ---------- Runs ----------

  datatype Call = Allocate(bytes: Word, alignment: Word) | Deallocate(pointer: Word)

  /** One call on the arena that serves it, with the guards of `allocate`. */
  function Step(a: Arena, c: Call): Arena {
    match c
    case Allocate(bytes, alignment) =>
      if bytes == 0 || !IsPowerOfTwo(alignment) || bytes > a.bytes then a else AllocateFrom(a, bytes, alignment).0
    case Deallocate(pointer) => DeallocateIn(a, pointer)
  }

  function Run(a: Arena, calls: seq<Call>): Arena
    decreases |calls|
  {
    if calls == [] then a else Run(Step(a, calls[0]), calls[1..])
  }

  lemma StepKeepsInv(a: Arena, c: Call)
    requires Inv(a)
    ensures Inv(Step(a, c)) && Step(a, c).base == a.base && Step(a, c).bytes == a.bytes
  {
    match c
    case Allocate(bytes, alignment) =>
      if bytes != 0 && IsPowerOfTwo(alignment) {
        IsPowerOfTwoMeaning(alignment);
        var k: nat :| k < 64 && alignment == Pow2(k);
        AllocateKeepsInv(a, bytes, k, alignment);
      }
    case Deallocate(pointer) => DeallocateKeepsInv(a, pointer);
  }

  /** Every state reachable by any calls satisfies the invariant. */
  lemma {:induction false} RunKeepsInv(a: Arena, calls: seq<Call>)
    requires Inv(a)
    ensures Inv(Run(a, calls)) && Run(a, calls).base == a.base && Run(a, calls).bytes == a.bytes
    decreases |calls|
  {
    if calls != [] {
      StepKeepsInv(a, calls[0]);
      RunKeepsInv(Step(a, calls[0]), calls[1..]);
    }
  }

  /** Two runs that leave the same bytes allocated leave the same free list,
      whatever the calls and their order were. */
  lemma RunsAgree(base: Word, bytes: nat, calls1: seq<Call>, calls2: seq<Call>)
    requires base != 0 ==> 0 < bytes && base + bytes <= WORD
    requires var a, b := Run(Reset(base, bytes), calls1), Run(Reset(base, bytes), calls2);
             forall x :: Covers(Blocks(a.live), x) <==> Covers(Blocks(b.live), x)
    ensures Run(Reset(base, bytes), calls1).free == Run(Reset(base, bytes), calls2).free
  {
    ResetInv(base, bytes);
    RunKeepsInv(Reset(base, bytes), calls1);
    RunKeepsInv(Reset(base, bytes), calls2);
    FreeDetermined(Run(Reset(base, bytes), calls1), Run(Reset(base, bytes), calls2));
  }

  /** Freeing every live pointer, in any order and with any further pointers in
      between, returns the arena to the single block `{0, bytes}`. */
  lemma {:induction false} DrainRestores(a: Arena, calls: seq<Call>)
    requires Inv(a) && a.base != 0
    requires forall i :: 0 <= i < |calls| ==> calls[i].Deallocate?
    requires forall p: Word :: IsLive(a, p) ==> Deallocate(p) in calls
    ensures Run(a, calls) == Reset(a.base, a.bytes)
    decreases |calls|
  {
    if calls == [] {
      FirstIsLive(a);
      NothingLive(a);
    } else {
      var p := calls[0].pointer;
      var b := DeallocateIn(a, p);
      DeallocateKeepsInv(a, p);
      DeallocateMeaning(a, p);
      forall q: Word | IsLive(b, q) ensures Deallocate(q) in calls[1..] {
        assert IsLive(a, q);
      }
      DrainRestores(b, calls[1..]);
    }
  }

  lemma FirstIsLive(a: Arena)
    requires Inv(a)
    ensures a.live != [] ==> a.live[0].pointer < WORD && IsLive(a, a.live[0].pointer)
  {}
}
