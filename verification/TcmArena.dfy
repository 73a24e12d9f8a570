/** The arena as the program keeps it: two fixed arrays edited in place and two
    counters. Each method is proved to perform a transition of ArenaModel. */
module TcmArena {
  import opened BitArithmetic
  import opened FreeList
  import opened ArenaModel

  class TcmArena {
    var base: Word
    var bytes: nat
    const freeBlocks: array<Block>
    const allocations: array<Allocation>
    var freeCount: nat
    var allocationCount: nat

    ghost predicate Shape()
      reads this
    {
      && freeBlocks.Length == MAX_FREE_BLOCKS
      && allocations.Length == MAX_ALLOCATIONS
      && freeCount <= MAX_FREE_BLOCKS
      && allocationCount <= MAX_ALLOCATIONS
    }

    ghost function Value(): Arena
      requires Shape()
      reads this, freeBlocks, allocations
    {
      Arena(base, bytes, freeBlocks[..freeCount], allocations[..allocationCount])
    }

    /** The object invariant of every reachable arena. */
    ghost predicate Valid()
      reads this, freeBlocks, allocations
    {
      Shape() && Inv(Value())
    }

    constructor ()
      ensures Valid() && fresh(freeBlocks) && fresh(allocations)
      ensures Value() == Arena(0, 0, [], [])
    {
      base, bytes, freeCount, allocationCount := 0, 0, 0, 0;
      freeBlocks := new Block[MAX_FREE_BLOCKS](_ => Block(0, 0));
      allocations := new Allocation[MAX_ALLOCATIONS](_ => Allocation(0, Block(0, 0)));
    }

    method Initialize(newBase: Word, newBytes: nat)
      requires Shape()
      requires newBase != 0 ==> 0 < newBytes && newBase + newBytes <= WORD
      modifies this, freeBlocks
      ensures Valid() && Value() == Reset(newBase, newBytes)
    {
      base, bytes := newBase, newBytes;
      freeCount := if newBase == 0 then 0 else 1;
      allocationCount := 0;
      if freeCount != 0 {
        freeBlocks[0] := Block(0, newBytes);
      }
      ResetInv(newBase, newBytes);
    }

    /** Moves the blocks from position `at` on up by one entry and stores a block
        in the entry this opens. */
    method OpenAt(at: nat, block: Block)
      requires Shape() && at <= freeCount < MAX_FREE_BLOCKS
      modifies this`freeCount, freeBlocks
      ensures Shape()
      ensures freeBlocks[..freeCount] == InsertAt(old(freeBlocks[..freeCount]), at, block)
    {
      var move := freeCount;
      while move > at
        invariant at <= move <= freeCount == old(freeCount)
        invariant forall k :: 0 <= k <= move && k < freeCount ==> freeBlocks[k] == old(freeBlocks[k])
        invariant forall k :: move < k <= freeCount ==> freeBlocks[k] == old(freeBlocks[k - 1])
      {
        freeBlocks[move] := freeBlocks[move - 1];
        move := move - 1;
      }
      freeBlocks[at] := block;
      freeCount := freeCount + 1;
    }

    /** Moves the blocks from position `at` on down by one entry. */
    method CloseBefore(at: nat)
      requires Shape() && 0 < at <= freeCount
      modifies this`freeCount, freeBlocks
      ensures Shape()
      ensures freeBlocks[..freeCount] == RemoveAt(old(freeBlocks[..freeCount]), at - 1)
    {
      var move := at;
      while move < freeCount
        invariant at <= move <= freeCount == old(freeCount)
        invariant forall k :: 0 <= k < at - 1 ==> freeBlocks[k] == old(freeBlocks[k])
        invariant forall k :: at <= k < move ==> freeBlocks[k - 1] == old(freeBlocks[k])
        invariant forall k :: move <= k < freeCount ==> freeBlocks[k] == old(freeBlocks[k])
      {
        freeBlocks[move - 1] := freeBlocks[move];
        move := move + 1;
      }
      freeCount := freeCount - 1;
    }

    /** Overwrites one entry. */
    method Store(index: nat, block: Block)
      requires Shape() && index < freeCount
      modifies freeBlocks
      ensures freeBlocks[..freeCount] == old(freeBlocks[..freeCount])[index := block]
    {
      freeBlocks[index] := block;
    }

    /** Takes `[at, at + size)` out of the free block at `index`: the four cases
        of a split. */
    method Split(index: nat, at: nat, size: nat)
      requires Shape() && index < freeCount
      requires freeBlocks[index].offset <= at && at + size <= freeBlocks[index].End()
      requires at != freeBlocks[index].offset && at + size != freeBlocks[index].End() ==> freeCount < MAX_FREE_BLOCKS
      modifies this`freeCount, freeBlocks
      ensures Shape()
      ensures freeBlocks[..freeCount] == Carve(old(freeBlocks[..freeCount]), index, at, size)
    {
      var free := freeBlocks[index];
      var prefix := at - free.offset;
      var suffixOffset := at + size;
      var suffix := free.offset + free.size - suffixOffset;
      CarveCases(freeBlocks[..freeCount], index, at, size);
      if prefix != 0 && suffix != 0 {
        OpenAt(index + 1, Block(suffixOffset, suffix));
        Store(index, Block(free.offset, prefix));
      } else if prefix != 0 {
        Store(index, Block(free.offset, prefix));
      } else if suffix != 0 {
        Store(index, Block(suffixOffset, suffix));
      } else {
        CloseBefore(index + 1);
      }
    }

    /** Splits the block and records the allocation. */
    method Take(index: nat, at: nat, size: nat) returns (pointer: nat)
      requires Shape() && index < freeCount && allocationCount < MAX_ALLOCATIONS
      requires freeBlocks[index].offset <= at && at + size <= freeBlocks[index].End()
      requires at != freeBlocks[index].offset && at + size != freeBlocks[index].End() ==> freeCount < MAX_FREE_BLOCKS
      modifies this`freeCount, this`allocationCount, freeBlocks, allocations
      ensures Shape()
      ensures pointer == base + at
      ensures Value() == old(Value()).(free := Carve(old(Value()).free, index, at, size),
                                       live := old(Value()).live + [Allocation(pointer, Block(at, size))])
    {
      Split(index, at, size);
      pointer := base + at;
      allocations[allocationCount] := Allocation(pointer, Block(at, size));
      allocationCount := allocationCount + 1;
    }

    /** First fit. The returned pointer is zero for null. */
    method AllocateFrom(size: nat, alignment: Word) returns (pointer: nat)
      requires Shape() && alignment > 0
      modifies this`freeCount, this`allocationCount, freeBlocks, allocations
      ensures Shape()
      ensures (Value(), pointer) == ArenaModel.AllocateFrom(old(Value()), size, alignment)
    {
      if base == 0 || allocationCount == MAX_ALLOCATIONS {
        return 0;
      }
      ghost var before := Value();
      var index := 0;
      while index < freeCount
        invariant index <= freeCount
        invariant Value() == before
        invariant forall j :: 0 <= j < index ==> !Fits(base, before.free[j], size, alignment)
      {
        var free := freeBlocks[index];
        var address := AlignUp(WrapAdd(base, free.offset % WORD), alignment);
        var alignedOffset := WrapSub(address, base);
        if alignedOffset < free.offset || alignedOffset - free.offset > free.size
            || size > free.size - (alignedOffset - free.offset) {
          index := index + 1;
          continue;
        }
        FirstFitIs(base, before.free, size, alignment, index);
        if alignedOffset != free.offset && alignedOffset + size != free.End() && freeCount == MAX_FREE_BLOCKS {
          return 0;
        }
        pointer := Take(index, alignedOffset, size);
        return;
      }
      FirstFitIs(base, before.free, size, alignment, index);
      return 0;
    }

    /** Inserts a block in order, then merges it with the neighbours it touches. */
    method InsertFreeBlock(block: Block)
      requires Shape() && freeCount < MAX_FREE_BLOCKS
      modifies this`freeCount, freeBlocks
      ensures Shape()
      ensures freeBlocks[..freeCount] == GiveBack(old(freeBlocks[..freeCount]), block)
    {
      ghost var before := freeBlocks[..freeCount];
      var index := 0;
      while index < freeCount && freeBlocks[index].offset < block.offset
        invariant index <= freeCount
        invariant freeBlocks[..freeCount] == before
        invariant forall j :: 0 <= j < index ==> before[j].offset < block.offset
      {
        index := index + 1;
      }
      InsertThenMerge(before, block, index);
      OpenAt(index, block);
      index := MergeLeft(index);
      MergeRight(index);
    }

    /** The first coalescing step; returns the position of the merged block. */
    method MergeLeft(index: nat) returns (merged: nat)
      requires Shape() && index < freeCount
      modifies this`freeCount, freeBlocks
      ensures Shape() && merged < freeCount
      ensures (freeBlocks[..freeCount], merged) == MergedLeft(old(freeBlocks[..freeCount]), index)
    {
      merged := index;
      if index > 0 && freeBlocks[index - 1].offset + freeBlocks[index - 1].size == freeBlocks[index].offset {
        Store(index - 1, Block(freeBlocks[index - 1].offset, freeBlocks[index - 1].size + freeBlocks[index].size));
        CloseBefore(index + 1);
        merged := index - 1;
      }
    }

    /** The second coalescing step. */
    method MergeRight(index: nat)
      requires Shape() && index < freeCount
      modifies this`freeCount, freeBlocks
      ensures Shape()
      ensures freeBlocks[..freeCount] == MergedRight(old(freeBlocks[..freeCount]), index)
    {
      if index + 1 < freeCount && freeBlocks[index].offset + freeBlocks[index].size == freeBlocks[index + 1].offset {
        Store(index, Block(freeBlocks[index].offset, freeBlocks[index].size + freeBlocks[index + 1].size));
        CloseBefore(index + 2);
      }
    }

    /** Frees the allocation with this pointer, if there is one. */
    method Release(pointer: nat)
      requires Shape()
      modifies this`freeCount, this`allocationCount, freeBlocks, allocations
      ensures Shape()
      ensures Value() == DeallocateIn(old(Value()), pointer)
    {
      ghost var before := Value();
      var index := 0;
      while index < allocationCount
        invariant index <= allocationCount
        invariant Value() == before
        invariant forall j :: 0 <= j < index ==> before.live[j].pointer != pointer
      {
        if allocations[index].pointer != pointer {
          index := index + 1;
          continue;
        }
        FindIs(before.live, pointer, index);
        var block := allocations[index].block;
        allocationCount := allocationCount - 1;
        allocations[index] := allocations[allocationCount];
        assert allocations[..allocationCount] == SwapRemove(before.live, index);
        if freeCount < MAX_FREE_BLOCKS {
          InsertFreeBlock(block);
        }
        return;
      }
      FindIs(before.live, pointer, index);
    }
  }

  function InsertAt(f: seq<Block>, at: nat, b: Block): seq<Block>
    requires at <= |f|
  {
    f[..at] + [b] + f[at..]
  }

  function RemoveAt(f: seq<Block>, at: nat): seq<Block>
    requires at < |f|
  {
    f[..at] + f[at + 1..]
  }

  /** Block `index` merged into the one before it, if they touch. */
  function MergedLeft(f: seq<Block>, index: nat): (r: (seq<Block>, nat))
    requires index < |f|
    ensures r.1 < |r.0|
  {
    if index > 0 && f[index - 1].End() == f[index].offset
    then (RemoveAt(f[index - 1 := Block(f[index - 1].offset, f[index - 1].size + f[index].size)], index), index - 1)
    else (f, index)
  }

  /** Block `index` merged with the one after it, if they touch. */
  function MergedRight(f: seq<Block>, index: nat): seq<Block>
    requires index < |f|
  {
    if index + 1 < |f| && f[index].End() == f[index + 1].offset
    then RemoveAt(f[index := Block(f[index].offset, f[index].size + f[index + 1].size)], index + 1)
    else f
  }

  lemma MergedLeftOf(p: seq<Block>, b: Block, q: seq<Block>)
    ensures MergedLeft(p + [b] + q, |p|) ==
            if JoinsLeft(p, b)
            then (p[..|p| - 1] + [Block(p[|p| - 1].offset, p[|p| - 1].size + b.size)] + q, |p| - 1)
            else (p + [b] + q, |p|)
  {
    if JoinsLeft(p, b) {
      var m := Block(p[|p| - 1].offset, p[|p| - 1].size + b.size);
      var f := (p + [b] + q)[|p| - 1 := m];
      assert f[..|p|] == p[..|p| - 1] + [m];
      assert f[|p| + 1..] == q;
    }
  }

  lemma MergedRightOf(p: seq<Block>, b: Block, q: seq<Block>)
    ensures MergedRight(p + [b] + q, |p|) ==
            if JoinsRight(b, q) then p + [Block(b.offset, b.size + q[0].size)] + q[1..] else p + [b] + q
  {
    if JoinsRight(b, q) {
      var m := Block(b.offset, b.size + q[0].size);
      var f := (p + [b] + q)[|p| := m];
      assert f[..|p| + 1] == p + [m];
      assert f[|p| + 2..] == q[1..];
    }
  }

  /** Inserting first and merging afterwards gives the block back. */
  lemma InsertThenMerge(f: seq<Block>, b: Block, i: nat)
    requires i <= |f|
    requires forall j :: 0 <= j < i ==> f[j].offset < b.offset
    requires i < |f| ==> f[i].offset >= b.offset
    ensures var (g, k) := MergedLeft(InsertAt(f, i, b), i);
            MergedRight(g, k) == GiveBack(f, b)
  {
    SlotIs(f, b.offset, i);
    MergeJoins(f[..i], b, f[i..]);
  }

  lemma MergeJoins(p: seq<Block>, b: Block, q: seq<Block>)
    ensures var (g, k) := MergedLeft(p + [b] + q, |p|);
            MergedRight(g, k) == Join(p, b, q)
  {
    MergedLeftOf(p, b, q);
    if JoinsLeft(p, b) {
      var left, merged := p[..|p| - 1], Block(p[|p| - 1].offset, p[|p| - 1].size + b.size);
      assert MergedLeft(p + [b] + q, |p|) == (left + [merged] + q, |left|);
      MergedRightOf(left, merged, q);
    } else {
      MergedRightOf(p, b, q);
    }
  }

  lemma CarveCases(f: seq<Block>, i: nat, at: nat, size: nat)
    requires i < |f| && f[i].offset <= at && at + size <= f[i].End()
    ensures var prefix, suffix := Block(f[i].offset, at - f[i].offset), Block(at + size, f[i].End() - (at + size));
            Carve(f, i, at, size) ==
            if prefix.size != 0 && suffix.size != 0 then InsertAt(f, i + 1, suffix)[i := prefix]
            else if prefix.size != 0 then f[i := prefix]
            else if suffix.size != 0 then f[i := suffix]
            else RemoveAt(f, i)
  {}

  lemma {:induction false} FirstFitIs(base: Word, free: seq<Block>, bytes: nat, alignment: Word, i: nat)
    requires alignment > 0 && i <= |free|
    requires forall j :: 0 <= j < i ==> !Fits(base, free[j], bytes, alignment)
    requires i < |free| ==> Fits(base, free[i], bytes, alignment)
    ensures FirstFit(base, free, bytes, alignment) == i
  {
  }

  lemma {:induction false} SlotIs(free: seq<Block>, offset: nat, i: nat)
    requires i <= |free|
    requires forall j :: 0 <= j < i ==> free[j].offset < offset
    requires i < |free| ==> free[i].offset >= offset
    ensures Slot(free, offset) == i
  {
  }

  lemma {:induction false} FindIs(live: seq<Allocation>, pointer: nat, i: nat)
    requires i <= |live|
    requires forall j :: 0 <= j < i ==> live[j].pointer != pointer
    requires i < |live| ==> live[i].pointer == pointer
    ensures Find(live, pointer) == i
  {
  }
}
