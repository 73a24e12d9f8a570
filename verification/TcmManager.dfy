/** The process-wide allocator: one arena shared by four CPUs on A60, one arena
    per CPU on A100. The mapping and the current CPU are parameters. */
module TcmManager {
  import opened BitArithmetic
  import opened FreeList
  import opened ArenaModel
  import TcmArena

  datatype Platform = A60 | A100

  function Capacity(p: Platform): nat { if p.A60? then 512 * 1024 else 3 * 1024 * 1024 }
  function RegionBytes(p: Platform): nat { if p.A60? then 512 * 1024 else 384 * 1024 }
  function ArenaCount(p: Platform): nat { if p.A60? then 1 else 8 }

  /** Index of the arena serving a CPU, or the number of arenas for none. */
  function ArenaForCpu(p: Platform, cpu: int): (i: nat)
    ensures i <= ArenaCount(p)
  {
    if p.A60? then (if 0 <= cpu < 4 then 0 else 1)
    else (if 8 <= cpu < 16 then cpu - 8 else 8)
  }

  datatype Manager = Manager(platform: Platform, ready: bool, arenas: seq<Arena>)

  /** The range test of `deallocate`, whose end address wraps. */
  predicate Owns(a: Arena, pointer: Word) {
    a.base != 0 && a.base <= pointer && pointer < WrapAdd(a.base, a.bytes % WORD)
  }

  function Owner(arenas: seq<Arena>, pointer: Word): (i: nat)
    ensures i <= |arenas|
    ensures forall j :: 0 <= j < i ==> !Owns(arenas[j], pointer)
    ensures i < |arenas| ==> Owns(arenas[i], pointer)
  {
    if arenas == [] || Owns(arenas[0], pointer) then 0 else 1 + Owner(arenas[1..], pointer)
  }

  function Region(p: Platform, mapped: Word, i: nat): Arena
    requires i < ArenaCount(p) && mapped + Capacity(p) <= WORD
  {
    RegionsInOrder(p, i, ArenaCount(p));
    Reset(mapped + i * RegionBytes(p), RegionBytes(p))
  }

  /** The manager before `initialize`. */
  function Blank(p: Platform): Manager {
    Manager(p, false, seq(ArenaCount(p), i => Reset(0, 0)))
  }

  /** The manager after `initialize`; `mapped` is zero when the mapping failed. */
  function Start(p: Platform, mapped: Word): Manager
    requires mapped + Capacity(p) <= WORD
  {
    Manager(p, mapped != 0,
            seq(ArenaCount(p), i requires 0 <= i < ArenaCount(p) =>
              if mapped != 0 then Region(p, mapped, i) else Reset(0, 0)))
  }

  function AllocateFor(m: Manager, cpu: int, bytes: Word, alignment: Word): (Manager, nat)
    requires |m.arenas| == ArenaCount(m.platform)
  {
    var i := ArenaForCpu(m.platform, cpu);
    if bytes == 0 || !IsPowerOfTwo(alignment) || !m.ready || i == |m.arenas| || bytes > m.arenas[i].bytes then (m, 0)
    else
      var (b, p) := AllocateFrom(m.arenas[i], bytes, alignment);
      (m.(arenas := m.arenas[i := b]), p)
  }

  function Free(m: Manager, pointer: Word): Manager {
    var i := Owner(m.arenas, pointer);
    if pointer == 0 || i == |m.arenas| then m
    else m.(arenas := m.arenas[i := DeallocateIn(m.arenas[i], pointer)])
  }

  // ---------- The invariant of every run ----------

  ghost predicate ManagerInv(m: Manager) {
    && |m.arenas| == ArenaCount(m.platform)
    && (forall i :: 0 <= i < |m.arenas| ==> Inv(m.arenas[i]) && (m.ready <==> m.arenas[i].base != 0))
    && (m.ready ==> forall i, j :: 0 <= i < j < |m.arenas| ==> m.arenas[i].base + m.arenas[i].bytes <= m.arenas[j].base)
  }

  lemma RegionsInOrder(p: Platform, i: nat, j: nat)
    requires i < j <= ArenaCount(p)
    ensures i * RegionBytes(p) + RegionBytes(p) <= j * RegionBytes(p) <= Capacity(p)
  {}

  lemma StartInv(p: Platform, mapped: Word)
    requires mapped + Capacity(p) <= WORD
    ensures ManagerInv(Start(p, mapped))
  {
    var m := Start(p, mapped);
    forall i | 0 <= i < |m.arenas| ensures Inv(m.arenas[i]) && (m.ready <==> m.arenas[i].base != 0) {
      RegionsInOrder(p, i, ArenaCount(p));
      if mapped != 0 { ResetInv(mapped + i * RegionBytes(p), RegionBytes(p)); } else { ResetInv(0, 0); }
    }
    if mapped != 0 {
      forall i, j | 0 <= i < j < |m.arenas| ensures m.arenas[i].base + m.arenas[i].bytes <= m.arenas[j].base {
        RegionsInOrder(p, i, j);
      }
    }
  }

  datatype Request = Acquire(cpu: int, bytes: Word, alignment: Word) | Return(pointer: Word)

  function Serve(m: Manager, r: Request): Manager
    requires |m.arenas| == ArenaCount(m.platform)
  {
    match r
    case Acquire(cpu, bytes, alignment) => AllocateFor(m, cpu, bytes, alignment).0
    case Return(pointer) => Free(m, pointer)
  }

  function ServeAll(m: Manager, rs: seq<Request>): (r: Manager)
    requires |m.arenas| == ArenaCount(m.platform)
    ensures |r.arenas| == ArenaCount(r.platform)
    decreases |rs|
  {
    if rs == [] then m else ServeAll(Serve(m, rs[0]), rs[1..])
  }

  lemma UpdateKeepsInv(m: Manager, i: nat, b: Arena)
    requires ManagerInv(m) && i < |m.arenas| && Inv(b)
    requires b.base == m.arenas[i].base && b.bytes == m.arenas[i].bytes
    ensures ManagerInv(m.(arenas := m.arenas[i := b]))
  {}

  lemma ServeKeepsInv(m: Manager, r: Request)
    requires ManagerInv(m)
    ensures ManagerInv(Serve(m, r))
  {
    match r
    case Acquire(cpu, bytes, alignment) =>
      var i := ArenaForCpu(m.platform, cpu);
      if i < |m.arenas| {
        StepKeepsInv(m.arenas[i], Call.Allocate(bytes, alignment));
        UpdateKeepsInv(m, i, Step(m.arenas[i], Call.Allocate(bytes, alignment)));
      }
    case Return(pointer) =>
      var i := Owner(m.arenas, pointer);
      if i < |m.arenas| {
        StepKeepsInv(m.arenas[i], Call.Deallocate(pointer));
        UpdateKeepsInv(m, i, DeallocateIn(m.arenas[i], pointer));
      }
  }

  lemma {:induction false} ServeAllKeepsInv(m: Manager, rs: seq<Request>)
    requires ManagerInv(m)
    ensures ManagerInv(ServeAll(m, rs))
    decreases |rs|
  {
    if rs != [] {
      ServeKeepsInv(m, rs[0]);
      ServeAllKeepsInv(Serve(m, rs[0]), rs[1..]);
    }
  }

  // ---------- The regions ----------

  /** The A100 mapping is divided into eight regions of 393216 bytes, one after
      the other. */
  lemma RegionsOfA100(mapped: Word)
    requires mapped != 0 && mapped + 3145728 <= WORD
    ensures var arenas := Start(A100, mapped).arenas;
            && |arenas| == 8
            && (forall i: nat :: i < 8 ==> arenas[i].base == mapped + i * 393216 && arenas[i].bytes == 393216)
            && (forall x: nat {:trigger Covered(arenas, x)} :: Covered(arenas, x) <==> mapped <= x < mapped + 3145728)
  {
    var arenas := Start(A100, mapped).arenas;
    forall i: nat | i < 8 ensures arenas[i].base == mapped + i * 393216 && arenas[i].bytes == 393216 {}
    forall x: nat ensures Covered(arenas, x) <==> mapped <= x < mapped + 3145728 {
      if mapped <= x < mapped + 3145728 {
        var i, r := Digits(x - mapped, 393216);
        assert InRegion(arenas[i], x);
      }
    }
  }

  predicate InRegion(a: Arena, x: nat) { a.base <= x < a.base + a.bytes }

  ghost predicate Covered(arenas: seq<Arena>, x: nat) {
    exists i :: 0 <= i < |arenas| && InRegion(arenas[i], x)
  }

  /** The A60 mapping is one region. */
  lemma RegionOfA60(mapped: Word)
    requires mapped != 0 && mapped + 524288 <= WORD
    ensures var arenas := Start(A60, mapped).arenas;
            |arenas| == 1 && arenas[0].base == mapped && arenas[0].bytes == 524288
  {}

  /** No request moves or resizes a region. */
  ghost predicate SameRegions(m: Manager, n: Manager) {
    && m.platform == n.platform && m.ready == n.ready && |m.arenas| == |n.arenas|
    && forall i :: 0 <= i < |m.arenas| ==>
         m.arenas[i].base == n.arenas[i].base && m.arenas[i].bytes == n.arenas[i].bytes
  }

  lemma ServeKeepsRegions(m: Manager, r: Request)
    requires ManagerInv(m)
    ensures SameRegions(m, Serve(m, r))
  {
    match r
    case Acquire(cpu, bytes, alignment) =>
      var i := ArenaForCpu(m.platform, cpu);
      if i < |m.arenas| { StepKeepsInv(m.arenas[i], Call.Allocate(bytes, alignment)); }
    case Return(pointer) =>
      var i := Owner(m.arenas, pointer);
      if i < |m.arenas| { StepKeepsInv(m.arenas[i], Call.Deallocate(pointer)); }
  }

  lemma {:induction false} ServeAllKeepsRegions(m: Manager, rs: seq<Request>)
    requires ManagerInv(m)
    ensures SameRegions(m, ServeAll(m, rs))
    decreases |rs|
  {
    if rs != [] {
      ServeKeepsInv(m, rs[0]);
      ServeKeepsRegions(m, rs[0]);
      ServeAllKeepsRegions(Serve(m, rs[0]), rs[1..]);
    }
  }

  // ---------- Which region serves a CPU, and when ----------

  /** No live allocation of any arena reaches into the `bytes` bytes at address `x`. */
  ghost predicate Vacant(m: Manager, x: nat, bytes: nat) {
    forall i: nat, j: nat :: LiveAt(m, i, j) ==>
      x + bytes <= m.arenas[i].live[j].pointer
      || m.arenas[i].live[j].pointer + m.arenas[i].live[j].block.size <= x
  }

  /** Address `x` would do: aligned, within `low .. high`, and vacant. */
  ghost predicate Placeable(m: Manager, low: int, high: int, x: nat, bytes: nat, alignment: nat) {
    alignment > 0 && x % alignment == 0 && low <= x && x + bytes <= high && Vacant(m, x, bytes)
  }

  ghost predicate PowerOfTwo(x: nat) {
    exists k: nat :: k < 64 && x == Pow2(k)
  }

  /** A request is served from `low .. high` at the lowest address that will do,
      and is refused only when there is none or all 256 table entries are taken. */
  ghost predicate ServedFrom(m: Manager, low: int, high: int, live: nat, q: nat, bytes: nat, alignment: nat) {
    && (q != 0 <==> bytes > 0 && PowerOfTwo(alignment) && live < 256
                    && exists x: nat :: Placeable(m, low, high, x, bytes, alignment))
    && (q != 0 ==> Placeable(m, low, high, q, bytes, alignment)
                   && forall x: nat :: Placeable(m, low, high, x, bytes, alignment) ==> q <= x)
  }

  lemma PlaceableIsRoom(m: Manager, i: nat, high: nat, x: nat, bytes: nat, alignment: Word)
    requires ManagerInv(m) && m.ready && i < |m.arenas| && bytes > 0 && alignment > 0
    requires high == m.arenas[i].base + m.arenas[i].bytes
    ensures var a := m.arenas[i];
            Placeable(m, a.base, high, x, bytes, alignment)
            <==> a.base <= x && RoomAt(a, x - a.base, bytes, alignment)
  {
    var a := m.arenas[i];
    if a.base <= x {
      RoomIsUnused(a, x - a.base, bytes, alignment);
      if Vacant(m, x, bytes) { VacantIsUnused(m, i, x, bytes); }
      if Unused(a, x - a.base, bytes) && x + bytes <= a.base + a.bytes { UnusedIsVacant(m, i, x, bytes); }
    }
  }

  lemma VacantIsUnused(m: Manager, i: nat, x: nat, bytes: nat)
    requires ManagerInv(m) && m.ready && i < |m.arenas| && m.arenas[i].base <= x && Vacant(m, x, bytes)
    ensures Unused(m.arenas[i], x - m.arenas[i].base, bytes)
  {
    var a := m.arenas[i];
    forall j | 0 <= j < |a.live|
      ensures x - a.base + bytes <= a.live[j].block.offset || a.live[j].block.End() <= x - a.base
    {
      assert LiveAt(m, i, j);
    }
  }

  lemma UnusedIsVacant(m: Manager, i: nat, x: nat, bytes: nat)
    requires ManagerInv(m) && m.ready && i < |m.arenas| && m.arenas[i].base <= x
             && x + bytes <= m.arenas[i].base + m.arenas[i].bytes
    requires Unused(m.arenas[i], x - m.arenas[i].base, bytes)
    ensures Vacant(m, x, bytes)
  {
    forall u: nat, j: nat | LiveAt(m, u, j)
      ensures x + bytes <= m.arenas[u].live[j].pointer
              || m.arenas[u].live[j].pointer + m.arenas[u].live[j].block.size <= x
    {
      assert u < i ==> m.arenas[u].base + m.arenas[u].bytes <= m.arenas[i].base;
      assert i < u ==> m.arenas[i].base + m.arenas[i].bytes <= m.arenas[u].base;
    }
  }

  lemma ServedInArena(m: Manager, i: nat, high: nat, bytes: nat, k: nat, alignment: Word)
    requires ManagerInv(m) && m.ready && i < |m.arenas| && bytes > 0 && k < 64 && alignment == Pow2(k)
    requires high == m.arenas[i].base + m.arenas[i].bytes
    ensures var a := m.arenas[i];
            ServedFrom(m, a.base, high, |a.live|, AllocateFrom(a, bytes, alignment).1, bytes, alignment)
  {
    var a := m.arenas[i];
    var q := AllocateFrom(a, bytes, alignment).1;
    AllocateMeaning(a, bytes, k, alignment);
    assert PowerOfTwo(alignment);
    if q != 0 { PlaceableIsRoom(m, i, high, q, bytes, alignment); }
    forall x: nat | Placeable(m, a.base, high, x, bytes, alignment) && |a.live| < 256 ensures q != 0 && q <= x {
      PlaceableIsRoom(m, i, high, x, bytes, alignment);
      assert RoomAt(a, x - a.base, bytes, alignment);
    }
  }

  lemma ServedBy(m: Manager, i: nat, high: nat, cpu: int, bytes: Word, alignment: Word)
    requires ManagerInv(m) && m.ready && i < |m.arenas| && i == ArenaForCpu(m.platform, cpu)
    requires high == m.arenas[i].base + m.arenas[i].bytes
    ensures ServedFrom(m, m.arenas[i].base, high, |m.arenas[i].live|, AllocateFor(m, cpu, bytes, alignment).1, bytes,
                       alignment)
  {
    hide Inv, Vacant;
    IsPowerOfTwoMeaning(alignment);
    if bytes > 0 && PowerOfTwo(alignment) {
      var k: nat :| k < 64 && alignment == Pow2(k);
      ServedInArena(m, i, high, bytes, k, alignment);
    }
  }

  /** On A100, after any requests: CPU `8 + i` is served from the `i`-th region of
      393216 bytes and from nowhere else, exactly when that region has room and
      a table entry is left; every other CPU is refused. */
  lemma ServedOnA100(mapped: Word, rs: seq<Request>, cpu: int, bytes: Word, alignment: Word)
    requires mapped + 3145728 <= WORD
    ensures var m := ServeAll(Start(A100, mapped), rs);
            var q := AllocateFor(m, cpu, bytes, alignment).1;
            && |m.arenas| == 8
            && (q != 0 ==>
                  8 <= cpu < 16 && mapped + (cpu - 8) * 393216 <= q && q + bytes <= mapped + (cpu - 7) * 393216)
            && (mapped == 0 || !(8 <= cpu < 16) ==> q == 0)
            && (mapped != 0 && 8 <= cpu < 16 ==>
                  ServedFrom(m, mapped + (cpu - 8) * 393216, mapped + (cpu - 7) * 393216, |m.arenas[cpu - 8].live|, q,
                             bytes, alignment))
  {
    hide Inv, ServeAll, Placeable, Region, AllocateFor, ServedFrom, ManagerInv;
    var m := ServeAll(Start(A100, mapped), rs);
    var q := AllocateFor(m, cpu, bytes, alignment).1;
    AfterA100(mapped, rs);
    if mapped != 0 && 8 <= cpu < 16 {
      RegionAfterA100(mapped, rs, cpu - 8);
      ServedBy(m, cpu - 8, mapped + (cpu - 7) * 393216, cpu, bytes, alignment);
      ServedWithin(m, mapped + (cpu - 8) * 393216, mapped + (cpu - 7) * 393216, |m.arenas[cpu - 8].live|, q, bytes,
                   alignment);
    } else {
      Refused(m, cpu, bytes, alignment);
    }
  }

  lemma AfterA100(mapped: Word, rs: seq<Request>)
    requires mapped + 3145728 <= WORD
    ensures var m := ServeAll(Start(A100, mapped), rs);
            ManagerInv(m) && m.platform == A100 && (m.ready <==> mapped != 0) && |m.arenas| == 8
  {
    StartInv(A100, mapped);
    ServeAllKeepsInv(Start(A100, mapped), rs);
    ServeAllKeepsRegions(Start(A100, mapped), rs);
  }

  lemma RegionAfterA100(mapped: Word, rs: seq<Request>, i: nat)
    requires mapped != 0 && mapped + 3145728 <= WORD && i < 8
    ensures var m := ServeAll(Start(A100, mapped), rs);
            i < |m.arenas| && m.arenas[i].base == mapped + i * 393216 && m.arenas[i].bytes == 393216
  {
    hide Inv, ServeAll;
    StartInv(A100, mapped);
    ServeAllKeepsRegions(Start(A100, mapped), rs);
    RegionsOfA100(mapped);
  }

  lemma ServedWithin(m: Manager, low: int, high: int, live: nat, q: nat, bytes: nat, alignment: nat)
    requires ServedFrom(m, low, high, live, q, bytes, alignment)
    ensures q != 0 ==> low <= q && q + bytes <= high
  {}

  /** Without a mapping, and for a CPU without an arena, every request is refused. */
  lemma Refused(m: Manager, cpu: int, bytes: Word, alignment: Word)
    requires |m.arenas| == ArenaCount(m.platform) && (!m.ready || ArenaForCpu(m.platform, cpu) == |m.arenas|)
    ensures AllocateFor(m, cpu, bytes, alignment).1 == 0
  {}

  /** On A60: CPUs 0 to 3 are served from the one region. */
  lemma ServedOnA60(mapped: Word, rs: seq<Request>, cpu: int, bytes: Word, alignment: Word)
    requires mapped + 524288 <= WORD
    ensures var m := ServeAll(Start(A60, mapped), rs);
            var q := AllocateFor(m, cpu, bytes, alignment).1;
            && |m.arenas| == 1
            && (q != 0 ==> 0 <= cpu < 4 && mapped <= q && q + bytes <= mapped + 524288)
            && (mapped == 0 || !(0 <= cpu < 4) ==> q == 0)
            && (mapped != 0 && 0 <= cpu < 4 ==>
                  ServedFrom(m, mapped, mapped + 524288, |m.arenas[0].live|, q, bytes, alignment))
  {
    var m := ServeAll(Start(A60, mapped), rs);
    StartInv(A60, mapped);
    ServeAllKeepsInv(Start(A60, mapped), rs);
    ServeAllKeepsRegions(Start(A60, mapped), rs);
    if mapped != 0 && 0 <= cpu < 4 {
      RegionOfA60(mapped);
      ServedBy(m, 0, mapped + 524288, cpu, bytes, alignment);
    }
  }

  // ---------- Safety over runs ----------

  ghost predicate LiveAt(m: Manager, i: nat, j: nat) {
    i < |m.arenas| && j < |m.arenas[i].live|
  }

  /** After any requests from any CPUs, two different live allocations never
      share an address, whichever arenas they come from. */
  lemma NoOverlap(p: Platform, mapped: Word, rs: seq<Request>, i1: nat, j1: nat, i2: nat, j2: nat)
    requires mapped + Capacity(p) <= WORD
    requires var m := ServeAll(Start(p, mapped), rs);
             LiveAt(m, i1, j1) && LiveAt(m, i2, j2) && (i1, j1) != (i2, j2)
    ensures var m := ServeAll(Start(p, mapped), rs);
            var x, y := m.arenas[i1].live[j1], m.arenas[i2].live[j2];
            x.pointer + x.block.size <= y.pointer || y.pointer + y.block.size <= x.pointer
  {
    StartInv(p, mapped);
    ServeAllKeepsInv(Start(p, mapped), rs);
  }

  /** An arena owns the pointers of its live blocks, and is the only one to,
      unless its region ends at the very top of the address space: the wrapped
      end address then rejects every pointer and the block cannot be freed. */
  lemma OwnerOfLive(m: Manager, i: nat, pointer: Word)
    requires ManagerInv(m) && i < |m.arenas| && IsLive(m.arenas[i], pointer)
    ensures Owner(m.arenas, pointer) == i <==> m.arenas[i].base + m.arenas[i].bytes < WORD
    ensures Owner(m.arenas, pointer) == i || Owner(m.arenas, pointer) == |m.arenas|
  {
    var a := m.arenas[i];
    forall j | 0 <= j < |m.arenas| && j != i ensures !Owns(m.arenas[j], pointer) {
      RegionEnd(m.arenas[j]);
    }
    RegionEnd(a);
    assert Owns(a, pointer) <==> a.base + a.bytes < WORD;
  }

  lemma RegionEnd(a: Arena)
    requires Inv(a) && a.base != 0
    ensures WrapAdd(a.base, a.bytes % WORD) == if a.base + a.bytes < WORD then a.base + a.bytes else 0
  {
    assert a.bytes % WORD == a.bytes;
  }

  /** Freeing a live pointer, from any CPU, releases it in the arena it came
      from and touches no other arena, exactly when that arena's region does not
      end at 2^64; otherwise nothing happens. */
  lemma DeallocateReachesOwner(m: Manager, i: nat, pointer: Word)
    requires ManagerInv(m) && i < |m.arenas| && IsLive(m.arenas[i], pointer)
    ensures Free(m, pointer) == m.(arenas := m.arenas[i := DeallocateIn(m.arenas[i], pointer)])
            <==> m.arenas[i].base + m.arenas[i].bytes < WORD
    ensures m.arenas[i].base + m.arenas[i].bytes == WORD ==> Free(m, pointer) == m
  {
    OwnerOfLive(m, i, pointer);
    DeallocateMeaning(m.arenas[i], pointer);
    var changed := m.arenas[i := DeallocateIn(m.arenas[i], pointer)];
    assert changed[i] != m.arenas[i];
  }

  /** A block in a region that ends at 2^64 stays allocated for ever. */
  lemma TopRegionNeverFreed()
    ensures var m := Start(A60, WORD - 512 * 1024);
            var (b, p) := AllocateFor(m, 0, 64, 1);
            p == WORD - 512 * 1024 && Free(b, p) == b && b != m
  {
    var base := WORD - 512 * 1024;
    var m := Start(A60, base);
    StartInv(A60, base);
    assert Pow2(0) == 1;
    IsPowerOfTwoMeaning(1);
    assert m.arenas[0] == Reset(base, 512 * 1024);
    AllocateMeaning(m.arenas[0], 64, 0, 1);
    assert Room(base, m.arenas[0].free[0], 0, 64, 1);
    assert RoomAt(m.arenas[0], 0, 64, 1);
    var (b, p) := AllocateFor(m, 0, 64, 1);
    ServeKeepsInv(m, Acquire(0, 64, 1));
    assert p == base;
    assert b.arenas[0].live[0].pointer == p;
    DeallocateReachesOwner(b, 0, p);
  }

  /** Null, unknown and already freed pointers change nothing. */
  lemma UnknownPointerIgnored(m: Manager, pointer: Word)
    requires ManagerInv(m)
    requires forall i :: 0 <= i < |m.arenas| ==> !IsLive(m.arenas[i], pointer)
    ensures Free(m, pointer) == m
  {
    var i := Owner(m.arenas, pointer);
    if i < |m.arenas| { DeallocateMeaning(m.arenas[i], pointer); }
  }

  /** An allocation on one CPU undone by a free on any CPU leaves the allocator
      as it was. */
  lemma AllocateThenFree(m: Manager, cpu: int, bytes: Word, alignment: Word)
    requires ManagerInv(m)
    requires forall i :: 0 <= i < |m.arenas| ==> m.arenas[i].base + m.arenas[i].bytes < WORD
    ensures var (b, p) := AllocateFor(m, cpu, bytes, alignment);
            p < WORD && Free(b, p) == m
  {
    var i := ArenaForCpu(m.platform, cpu);
    if bytes != 0 && IsPowerOfTwo(alignment) && m.ready && i < |m.arenas| && bytes <= m.arenas[i].bytes {
      IsPowerOfTwoMeaning(alignment);
      var k: nat :| k < 64 && alignment == Pow2(k);
      AllocateThenFreeIn(m, i, bytes, k, alignment);
    }
  }

  lemma AllocateThenFreeIn(m: Manager, i: nat, bytes: Word, k: nat, alignment: Word)
    requires ManagerInv(m) && i < |m.arenas| && bytes > 0 && k < 64 && alignment == Pow2(k)
    requires m.arenas[i].base + m.arenas[i].bytes < WORD
    ensures var (b, p) := AllocateFrom(m.arenas[i], bytes, alignment);
            p < WORD && Free(m.(arenas := m.arenas[i := b]), p) == m
  {
    AllocateMeaning(m.arenas[i], bytes, k, alignment);
    AllocateKeepsInv(m.arenas[i], bytes, k, alignment);
    AllocateThenDeallocate(m.arenas[i], bytes, k, alignment);
    var (b, p) := AllocateFrom(m.arenas[i], bytes, alignment);
    if p != 0 {
      assert b.live[|m.arenas[i].live|].pointer == p;
      FreeUndoes(m, i, b, p);
    } else {
      assert m.arenas[i := b] == m.arenas;
    }
  }

  /** Freeing a pointer that one arena served puts that arena back. */
  lemma FreeUndoes(m: Manager, i: nat, b: Arena, p: Word)
    requires ManagerInv(m) && i < |m.arenas| && Inv(b) && IsLive(b, p)
    requires b.base == m.arenas[i].base && b.bytes == m.arenas[i].bytes && b.base + b.bytes < WORD
    requires DeallocateIn(b, p) == m.arenas[i]
    ensures Free(m.(arenas := m.arenas[i := b]), p) == m
  {
    UpdateKeepsInv(m, i, b);
    DeallocateReachesOwner(m.(arenas := m.arenas[i := b]), i, p);
    assert m.arenas[i := b][i := m.arenas[i]] == m.arenas;
  }

  lemma UnmappedIsBlank(p: Platform)
    ensures Start(p, 0) == Blank(p)
  {
    assert Start(p, 0).arenas == Blank(p).arenas;
  }

  lemma PrefixGrows<T>(x: seq<T>, y: seq<T>, i: nat)
    requires i < |x| == |y| && x[..i] == y[..i]
    ensures x[i := y[i]][..i + 1] == y[..i + 1]
  {
    assert y[..i + 1] == y[..i] + [y[i]];
  }

  lemma WholePrefix<T>(x: seq<T>, y: seq<T>)
    requires |x| == |y| && x[..|x|] == y[..|y|]
    ensures x == y
  {
    assert x[..|x|] == x && y[..|y|] == y;
  }

  // ---------- The allocator object ----------

  class TcmAllocator {
    const platform: Platform
    const arenas: seq<TcmArena.TcmArena>
    var initialized: bool
    var ready: bool

    ghost predicate Valid()
      reads this, arenas
    {
      && |arenas| == ArenaCount(platform)
      && (forall i :: 0 <= i < |arenas| ==> arenas[i].Shape())
      && (forall i, j :: 0 <= i < j < |arenas| ==>
            arenas[i] != arenas[j] && arenas[i].freeBlocks != arenas[j].freeBlocks
            && arenas[i].allocations != arenas[j].allocations)
    }

    ghost function Frees(): set<array<Block>> { set i | 0 <= i < |arenas| :: arenas[i].freeBlocks }
    ghost function Tables(): set<array<Allocation>> { set i | 0 <= i < |arenas| :: arenas[i].allocations }

    ghost function Values(n: nat): (r: seq<Arena>)
      requires Valid() && n <= |arenas|
      reads this, arenas, Frees(), Tables()
      ensures |r| == n && forall i :: 0 <= i < n ==> r[i] == arenas[i].Value()
    {
      if n == 0 then [] else Values(n - 1) + [arenas[n - 1].Value()]
    }

    ghost function Value(): Manager
      requires Valid()
      reads this, arenas, Frees(), Tables()
    {
      Manager(platform, ready, Values(|arenas|))
    }

    constructor (p: Platform)
      ensures Valid() && platform == p && !initialized
      ensures Value() == Blank(p)
    {
      var made := MakeArenas(ArenaCount(p));
      platform, arenas, initialized, ready := p, made, false, false;
      new;
      assert Values(|arenas|) == Blank(p).arenas;
    }

    static method MakeArenas(count: nat) returns (made: seq<TcmArena.TcmArena>)
      ensures |made| == count
      ensures forall i :: 0 <= i < count ==>
                fresh(made[i]) && fresh(made[i].freeBlocks) && fresh(made[i].allocations)
      ensures forall i :: 0 <= i < count ==> made[i].Shape() && made[i].Value() == Reset(0, 0)
      ensures forall i, j :: 0 <= i < j < count ==>
                made[i] != made[j] && made[i].freeBlocks != made[j].freeBlocks
                && made[i].allocations != made[j].allocations
    {
      made := [];
      while |made| < count
        invariant |made| <= count
        invariant forall i :: 0 <= i < |made| ==>
                    fresh(made[i]) && fresh(made[i].freeBlocks) && fresh(made[i].allocations)
        invariant forall i :: 0 <= i < |made| ==> made[i].Shape() && made[i].Value() == Reset(0, 0)
        invariant forall i, j :: 0 <= i < j < |made| ==>
          made[i] != made[j] && made[i].freeBlocks != made[j].freeBlocks && made[i].allocations != made[j].allocations
      {
        var arena := new TcmArena.TcmArena();
        made := made + [arena];
      }
    }

    /** Hands the mapping out to the arenas, the first time it is called. */
    method Initialize(mapped: Word) returns (succeeded: bool)
      requires Valid() && mapped + Capacity(platform) <= WORD
      requires !initialized ==> Value() == Blank(platform)
      modifies this`initialized, this`ready, arenas, Frees()
      ensures Valid() && initialized && succeeded == ready
      ensures Value() == if old(initialized) then old(Value()) else Start(platform, mapped)
    {
      if initialized {
        return ready;
      }
      initialized := true;
      ready := mapped != 0;
      if ready {
        InitializeRegions(mapped);
      } else {
        UnmappedIsBlank(platform);
      }
      return ready;
    }

    method InitializeRegions(mapped: Word)
      requires Valid() && mapped != 0 && mapped + Capacity(platform) <= WORD
      modifies arenas, Frees()
      ensures Valid()
      ensures Values(|arenas|) == Start(platform, mapped).arenas
    {
      ghost var done := Start(platform, mapped).arenas;
      var index := 0;
      while index < |arenas|
        invariant index <= |arenas| && Valid()
        invariant Values(|arenas|)[..index] == done[..index]
      {
        ghost var before := Values(|arenas|);
        InitializeAt(index, mapped);
        PrefixGrows(before, done, index);
        index := index + 1;
      }
      WholePrefix(Values(|arenas|), done);
    }

    method InitializeAt(index: nat, mapped: Word)
      requires Valid() && index < |arenas| && mapped != 0 && mapped + Capacity(platform) <= WORD
      modifies arenas[index], arenas[index].freeBlocks
      ensures Valid()
      ensures Values(|arenas|) == old(Values(|arenas|))[index := Region(platform, mapped, index)]
    {
      RegionsInOrder(platform, index, ArenaCount(platform));
      arenas[index].Initialize(mapped + index * RegionBytes(platform), RegionBytes(platform));
    }

    /** Serves the request from the arena of the calling CPU. */
    method Allocate(cpu: int, bytes: Word, alignment: Word) returns (pointer: nat)
      requires Valid()
      modifies arenas, Frees(), Tables()
      ensures Valid()
      ensures (Value(), pointer) == AllocateFor(old(Value()), cpu, bytes, alignment)
    {
      if bytes == 0 || !IsPowerOfTwo(alignment) {
        return 0;
      }
      if !ready {
        return 0;
      }
      var i := ArenaForCpu(platform, cpu);
      if i == |arenas| || bytes > arenas[i].bytes {
        return 0;
      }
      pointer := AllocateAt(i, bytes, alignment);
    }

    method AllocateAt(index: nat, bytes: nat, alignment: Word) returns (pointer: nat)
      requires Valid() && index < |arenas| && alignment > 0
      modifies arenas[index], arenas[index].freeBlocks, arenas[index].allocations
      ensures Valid()
      ensures var (b, p) := AllocateFrom(old(Value().arenas[index]), bytes, alignment);
              pointer == p && Value().arenas == old(Value().arenas)[index := b]
    {
      pointer := arenas[index].AllocateFrom(bytes, alignment);
      assert Values(|arenas|) == old(Values(|arenas|))[index := arenas[index].Value()];
    }

    /** The first arena whose address range holds the pointer. */
    method FindOwner(pointer: Word) returns (index: nat)
      requires Valid()
      ensures index == Owner(Value().arenas, pointer)
    {
      index := 0;
      while index < |arenas|
        invariant index <= |arenas|
        invariant forall j :: 0 <= j < index ==> !Owns(Value().arenas[j], pointer)
      {
        var arena := arenas[index];
        if arena.base == 0 || pointer < arena.base || pointer >= WrapAdd(arena.base, arena.bytes % WORD) {
          index := index + 1;
          continue;
        }
        break;
      }
      OwnerIs(Value().arenas, pointer, index);
    }

    /** Frees the pointer in the arena that owns its address. */
    method Deallocate(pointer: Word)
      requires Valid()
      modifies arenas, Frees(), Tables()
      ensures Valid()
      ensures Value() == Free(old(Value()), pointer)
    {
      if pointer == 0 {
        return;
      }
      var index := FindOwner(pointer);
      if index < |arenas| {
        ReleaseAt(index, pointer);
      }
    }

    method ReleaseAt(index: nat, pointer: Word)
      requires Valid() && index < |arenas|
      modifies arenas[index], arenas[index].freeBlocks, arenas[index].allocations
      ensures Valid()
      ensures Value().arenas == old(Value().arenas)[index := DeallocateIn(old(Value().arenas[index]), pointer)]
    {
      arenas[index].Release(pointer);
      assert Values(|arenas|) == old(Values(|arenas|))[index := arenas[index].Value()];
    }
  }

  lemma OwnerIs(arenas: seq<Arena>, pointer: Word, i: nat)
    requires i <= |arenas|
    requires forall j :: 0 <= j < i ==> !Owns(arenas[j], pointer)
    requires i < |arenas| ==> Owns(arenas[i], pointer)
    ensures Owner(arenas, pointer) == i
  {}
}
