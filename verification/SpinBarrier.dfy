/** The generation spin barrier of the K3 benchmarks as an interleaved step
    system: each step is one atomic access of one thread. Any number of threads,
    any number of barriers, any number of rounds; atomics are sequentially
    consistent and the generation counter wraps. */
module SpinBarrier {

  /** The generation counter is a 32-bit atomic. */
  const GENERATIONS: nat := 0x1_0000_0000

  datatype Barrier = Barrier(count: nat, generation: nat)

  /** The private work of a worker: set-up, the warm-up pass, the timed pass, and
      what it does with the result. */
  datatype Stage = Setup | WarmUp | Timed | Finish

  /** What a worker does: private work, or one wait at a barrier. */
  datatype Action = Work(stage: Stage) | Wait(barrier: nat)

  /** Where a thread is inside the wait at the head of its program. */
  datatype Phase =
    | Running               // not inside a wait
    | Loaded(seen: nat)     // generation loaded, count not yet incremented
    | Spinning(seen: nat)   // incremented, not last: watching the generation
    | Resetting             // incremented, last: count not yet reset
    | Releasing             // count reset, generation not yet advanced

  datatype Thread = Thread(phase: Phase, program: seq<Action>, completed: nat)

  /** `released` counts the release steps; no step reads it. */
  datatype System = System(barriers: seq<Barrier>, threads: seq<Thread>, released: nat)

  function Waits(program: seq<Action>): seq<nat> {
    if program == [] then []
    else if program[0].Wait? then [program[0].barrier] + Waits(program[1..])
    else Waits(program[1..])
  }

  function Initial(barriers: nat, programs: seq<seq<Action>>): (s: System)
    ensures |s.barriers| == barriers && |s.threads| == |programs|
  {
    System(seq(barriers, i => Barrier(0, 0)),
           seq(|programs|, i requires 0 <= i < |programs| => Thread(Running, programs[i], 0)), 0)
  }

  predicate Head(t: Thread, barriers: nat) {
    t.program != [] && (t.program[0].Wait? ==> t.program[0].barrier < barriers)
  }

  function Leave(t: Thread): Thread
    requires t.program != []
  {
    Thread(Running, t.program[1..], t.completed + 1)
  }

  /** The next access of thread `i`; `None` while it can only spin or is done. */
  datatype Option<T> = None | Some(value: T)

  function Next(s: System, i: nat): Option<System>
    requires i < |s.threads|
  {
    var t := s.threads[i];
    if !Head(t, |s.barriers|) then None
    else if t.program[0].Work? then
      if t.phase.Running? then Some(s.(threads := s.threads[i := t.(program := t.program[1..])])) else None
    else
      var b := t.program[0].barrier;
      var barrier := s.barriers[b];
      match t.phase
      case Running => Some(s.(threads := s.threads[i := t.(phase := Loaded(barrier.generation))]))
      case Loaded(seen) =>
        var last := barrier.count + 1 == |s.threads|;
        Some(s.(barriers := s.barriers[b := barrier.(count := barrier.count + 1)],
                threads := s.threads[i := t.(phase := if last then Resetting else Spinning(seen))]))
      case Resetting =>
        Some(s.(barriers := s.barriers[b := barrier.(count := 0)], threads := s.threads[i := t.(phase := Releasing)]))
      case Releasing =>
        Some(System(s.barriers[b := barrier.(generation := (barrier.generation + 1) % GENERATIONS)],
                    s.threads[i := Leave(t)], s.released + 1))
      case Spinning(seen) =>
        if barrier.generation == seen then None else Some(s.(threads := s.threads[i := Leave(t)]))
  }

  // ---------- The invariant ----------

  /** Thread `t` has arrived at the wait of round `r` and not been released. */
  predicate Arrived(t: Thread, r: nat) {
    t.phase.Resetting? || t.phase.Releasing? || (t.phase.Spinning? && t.completed == r)
  }

  function Arrivals(threads: seq<Thread>, r: nat): (n: nat)
    ensures n <= |threads|
  {
    if threads == [] then 0 else (if Arrived(threads[0], r) then 1 else 0) + Arrivals(threads[1..], r)
  }

  function Occurrences(ws: seq<nat>, b: nat): nat {
    if ws == [] then 0 else Occurrences(ws[..|ws| - 1], b) + (if ws[|ws| - 1] == b then 1 else 0)
  }

  function GenerationAfter(schedule: seq<nat>, r: nat, b: nat): nat
    requires r <= |schedule|
  {
    Occurrences(schedule[..r], b) % GENERATIONS
  }

  ghost predicate ThreadInv(t: Thread, schedule: seq<nat>, r: nat)
    requires r <= |schedule|
  {
    && t.completed <= |schedule|
    && Waits(t.program) == schedule[t.completed..]
    && (!t.phase.Running? ==> t.program != [] && t.program[0].Wait?)
    && (if t.phase.Spinning? then t.completed == r || t.completed + 1 == r else t.completed == r)
    && (t.phase.Loaded? || t.phase.Spinning? ==>
          t.completed < |schedule| && t.phase.seen == GenerationAfter(schedule, t.completed, schedule[t.completed]))
  }

  ghost predicate BarrierInv(s: System, schedule: seq<nat>, b: nat)
    requires b < |s.barriers| && s.released <= |schedule|
  {
    && s.barriers[b].generation == GenerationAfter(schedule, s.released, b)
    && s.barriers[b].count ==
       if s.released < |schedule| && schedule[s.released] == b && !SomeReleasing(s)
       then Arrivals(s.threads, s.released) else 0
  }

  ghost predicate SomeReleasing(s: System) {
    exists i :: 0 <= i < |s.threads| && s.threads[i].phase.Releasing?
  }

  /** While one thread releases, every thread has arrived. */
  ghost predicate LastArrived(s: System) {
    forall i, j :: 0 <= i < |s.threads| && 0 <= j < |s.threads| && i != j
                   && (s.threads[i].phase.Resetting? || s.threads[i].phase.Releasing?) ==>
      s.threads[j].phase.Spinning? && s.threads[j].completed == s.released
  }

  ghost predicate Inv(s: System, schedule: seq<nat>) {
    && s.released <= |schedule|
    && (forall k :: 0 <= k < |schedule| ==> schedule[k] < |s.barriers|)
    && (forall i :: 0 <= i < |s.threads| ==> ThreadInv(s.threads[i], schedule, s.released))
    && (forall b :: 0 <= b < |s.barriers| ==> BarrierInv(s, schedule, b))
    && LastArrived(s)
    && (Arrivals(s.threads, s.released) == |s.threads| > 0 ==>
          exists i :: 0 <= i < |s.threads| && (s.threads[i].phase.Resetting? || s.threads[i].phase.Releasing?))
  }

  // ---------- Counting ----------

  lemma {:induction false} ArrivalsUpdate(threads: seq<Thread>, i: nat, t: Thread, r: nat)
    requires i < |threads|
    ensures Arrivals(threads[i := t], r) ==
            Arrivals(threads, r) - (if Arrived(threads[i], r) then 1 else 0) + (if Arrived(t, r) then 1 else 0)
    decreases |threads|
  {
    if i > 0 {
      ArrivalsUpdate(threads[1..], i - 1, t, r);
      assert threads[i := t][1..] == threads[1..][i - 1 := t];
    } else {
      assert threads[i := t][1..] == threads[1..];
    }
  }

  lemma {:induction false} ArrivalsFull(threads: seq<Thread>, r: nat)
    ensures Arrivals(threads, r) == |threads| <==> forall i :: 0 <= i < |threads| ==> Arrived(threads[i], r)
  {
    if threads != [] {
      ArrivalsFull(threads[1..], r);
      if Arrivals(threads, r) == |threads| {
        forall i | 0 <= i < |threads| ensures Arrived(threads[i], r) {
          if i > 0 { assert threads[1..][i - 1] == threads[i]; }
        }
      }
    }
  }

  lemma {:induction false} ArrivalsNone(threads: seq<Thread>, r: nat)
    requires forall i :: 0 <= i < |threads| ==> !Arrived(threads[i], r)
    ensures Arrivals(threads, r) == 0
  {
    if threads != [] { ArrivalsNone(threads[1..], r); }
  }

  // ---------- Every step keeps the invariant ----------

  lemma WaitsHead(t: Thread, schedule: seq<nat>)
    requires t.completed <= |schedule| && Waits(t.program) == schedule[t.completed..]
    requires t.program != [] && t.program[0].Wait?
    ensures t.completed < |schedule| && schedule[t.completed] == t.program[0].barrier
    ensures Waits(t.program[1..]) == schedule[t.completed + 1..]
  {
    assert schedule[t.completed..] == [t.program[0].barrier] + Waits(t.program[1..]);
    assert schedule[t.completed..][0] == schedule[t.completed];
    assert schedule[t.completed..][1..] == schedule[t.completed + 1..];
  }

  lemma InitialInv(barriers: nat, programs: seq<seq<Action>>, schedule: seq<nat>)
    requires forall i :: 0 <= i < |programs| ==> Waits(programs[i]) == schedule
    requires forall k :: 0 <= k < |schedule| ==> schedule[k] < barriers
    ensures Inv(Initial(barriers, programs), schedule)
  {
    var s := Initial(barriers, programs);
    ArrivalsNone(s.threads, 0);
    assert schedule[0..] == schedule && schedule[..0] == [];
  }

  /** A step of a thread that has not arrived, before or after: work, a load, or
      leaving a released wait. */
  lemma QuietStep(s: System, schedule: seq<nat>, i: nat, t: Thread)
    requires Inv(s, schedule) && i < |s.threads|
    requires !Arrived(s.threads[i], s.released) && !Arrived(t, s.released) && ThreadInv(t, schedule, s.released)
    ensures Inv(s.(threads := s.threads[i := t]), schedule)
  {
    var s' := s.(threads := s.threads[i := t]);
    ArrivalsUpdate(s.threads, i, t, s.released);
    ArrivalsFull(s'.threads, s.released);
    assert s'.threads[i] == t;
    assert !SomeReleasing(s) && !SomeReleasing(s');
    forall b | 0 <= b < |s'.barriers| ensures BarrierInv(s', schedule, b) {
      assert BarrierInv(s, schedule, b);
    }
  }

  lemma ArriveStep(s: System, schedule: seq<nat>, i: nat, b: nat)
    requires Inv(s, schedule) && i < |s.threads| && s.threads[i].phase.Loaded?
    requires s.threads[i].program[0] == Wait(b) && b < |s.barriers|
    ensures Next(s, i).Some? && Inv(Next(s, i).value, schedule)
  {
    var t := s.threads[i];
    WaitsHead(t, schedule);
    assert BarrierInv(s, schedule, b);
    assert !SomeReleasing(s);
    var s' := Next(s, i).value;
    var t' := s'.threads[i];
    assert s'.threads == s.threads[i := t'];
    ArrivalsUpdate(s.threads, i, t', s.released);
    ArrivalsFull(s'.threads, s.released);
    assert !SomeReleasing(s');
    forall c | 0 <= c < |s'.barriers| ensures BarrierInv(s', schedule, c) {
      assert BarrierInv(s, schedule, c);
    }
    forall j, k | 0 <= j < |s'.threads| && 0 <= k < |s'.threads| && j != k
                  && (s'.threads[j].phase.Resetting? || s'.threads[j].phase.Releasing?)
      ensures s'.threads[k].phase.Spinning? && s'.threads[k].completed == s.released
    {
      assert j == i;
      assert Arrived(s'.threads[k], s.released);
    }
  }

  lemma ResetStep(s: System, schedule: seq<nat>, i: nat, b: nat)
    requires Inv(s, schedule) && i < |s.threads| && s.threads[i].phase.Resetting?
    requires s.threads[i].program[0] == Wait(b) && b < |s.barriers|
    ensures Next(s, i).Some? && Inv(Next(s, i).value, schedule)
  {
    var t := s.threads[i];
    WaitsHead(t, schedule);
    var s' := Next(s, i).value;
    assert s'.threads[i].phase.Releasing?;
    assert SomeReleasing(s');
    ArrivalsUpdate(s.threads, i, s'.threads[i], s.released);
    forall c | 0 <= c < |s'.barriers| ensures BarrierInv(s', schedule, c) {
      assert BarrierInv(s, schedule, c);
    }
  }

  lemma AdvanceGeneration(x: nat)
    ensures (x % GENERATIONS + 1) % GENERATIONS == (x + 1) % GENERATIONS
  {}

  lemma ReleaseStep(s: System, schedule: seq<nat>, i: nat, b: nat)
    requires Inv(s, schedule) && i < |s.threads| && s.threads[i].phase.Releasing?
    requires s.threads[i].program[0] == Wait(b) && b < |s.barriers|
    ensures Next(s, i).Some? && Inv(Next(s, i).value, schedule)
  {
    var t, r := s.threads[i], s.released;
    WaitsHead(t, schedule);
    var s' := Next(s, i).value;
    assert SomeReleasing(s);
    assert !SomeReleasing(s');
    ArrivalsNone(s'.threads, r + 1);
    assert schedule[..r + 1][..r] == schedule[..r];
    forall c | 0 <= c < |s'.barriers| ensures BarrierInv(s', schedule, c) {
      assert BarrierInv(s, schedule, c);
      AdvanceGeneration(Occurrences(schedule[..r], c));
    }
  }

  lemma LeaveStep(s: System, schedule: seq<nat>, i: nat, b: nat)
    requires Inv(s, schedule) && i < |s.threads| && s.threads[i].phase.Spinning?
    requires s.threads[i].program[0] == Wait(b) && b < |s.barriers|
    requires s.barriers[b].generation != s.threads[i].phase.seen
    ensures Next(s, i).Some? && Inv(Next(s, i).value, schedule)
  {
    var t := s.threads[i];
    WaitsHead(t, schedule);
    assert BarrierInv(s, schedule, b);
    QuietStep(s, schedule, i, Leave(t));
  }

  /** Every step of every thread keeps the invariant. */
  lemma NextKeepsInv(s: System, schedule: seq<nat>, i: nat)
    requires Inv(s, schedule) && i < |s.threads| && Next(s, i).Some?
    ensures Inv(Next(s, i).value, schedule)
  {
    var t := s.threads[i];
    if t.program[0].Work? {
      QuietStep(s, schedule, i, t.(program := t.program[1..]));
    } else {
      var b := t.program[0].barrier;
      match t.phase
      case Running =>
        WaitsHead(t, schedule);
        assert BarrierInv(s, schedule, b);
        QuietStep(s, schedule, i, t.(phase := Loaded(s.barriers[b].generation)));
      case Loaded(_) => ArriveStep(s, schedule, i, b);
      case Resetting => ResetStep(s, schedule, i, b);
      case Releasing => ReleaseStep(s, schedule, i, b);
      case Spinning(_) => LeaveStep(s, schedule, i, b);
    }
  }

  // ---------- Runs ----------

  /** The system after the listed threads have taken one step each, in order; a
      thread that can only spin, or is done, leaves the system unchanged. */
  function Run(s: System, turns: seq<nat>): (r: System)
    ensures |r.threads| == |s.threads| && |r.barriers| == |s.barriers|
    decreases |turns|
  {
    if turns == [] then s
    else
      var s' := if turns[0] < |s.threads| && Next(s, turns[0]).Some? then Next(s, turns[0]).value else s;
      Run(s', turns[1..])
  }

  lemma {:induction false} RunKeepsInv(s: System, schedule: seq<nat>, turns: seq<nat>)
    requires Inv(s, schedule)
    ensures Inv(Run(s, turns), schedule)
    decreases |turns|
  {
    if turns != [] {
      if turns[0] < |s.threads| && Next(s, turns[0]).Some? {
        NextKeepsInv(s, schedule, turns[0]);
        RunKeepsInv(Next(s, turns[0]).value, schedule, turns[1..]);
      } else {
        RunKeepsInv(s, schedule, turns[1..]);
      }
    }
  }

  /** Waits a thread has counted itself in for. */
  function ArrivedWaits(t: Thread): nat {
    t.completed + if t.phase.Running? || t.phase.Loaded? then 0 else 1
  }

  /** The waits of every worker's program, over every interleaving. */
  ghost predicate SameWaits(programs: seq<seq<Action>>, schedule: seq<nat>, barriers: nat) {
    && (forall i :: 0 <= i < |programs| ==> Waits(programs[i]) == schedule)
    && (forall k :: 0 <= k < |schedule| ==> schedule[k] < barriers)
  }

  /** Barrier safety: no thread returns from its r-th wait before every thread
      has arrived at its own, and the reset never erases an arrival of the next
      round: the count it overwrites is exactly the number of threads. */
  lemma Safety(barriers: nat, programs: seq<seq<Action>>, schedule: seq<nat>, turns: seq<nat>, i: nat, j: nat)
    requires SameWaits(programs, schedule, barriers) && i < |programs| && j < |programs|
    ensures var s := Run(Initial(barriers, programs), turns);
            && s.threads[i].completed <= ArrivedWaits(s.threads[j])
            && ArrivedWaits(s.threads[j]) <= ArrivedWaits(s.threads[i]) + 1
            && (s.threads[i].phase.Resetting? ==>
                  Head(s.threads[i], barriers) && s.threads[i].program[0].Wait?
                  && s.barriers[s.threads[i].program[0].barrier].count == |programs|
                  && (i != j ==> s.threads[j].phase.Spinning? && s.threads[j].completed == s.threads[i].completed))
  {
    InitialInv(barriers, programs, schedule);
    RunKeepsInv(Initial(barriers, programs), schedule, turns);
    var s := Run(Initial(barriers, programs), turns);
    if s.threads[i].phase.Resetting? { ResetSeesAll(s, schedule, i); }
  }

  lemma ResetSeesAll(s: System, schedule: seq<nat>, i: nat)
    requires Inv(s, schedule) && i < |s.threads| && s.threads[i].phase.Resetting?
    ensures Head(s.threads[i], |s.barriers|) && s.threads[i].program[0].Wait?
    ensures s.barriers[s.threads[i].program[0].barrier].count == |s.threads|
  {
    var t := s.threads[i];
    assert ThreadInv(t, schedule, s.released);
    WaitsHead(t, schedule);
    forall k | 0 <= k < |s.threads| ensures Arrived(s.threads[k], s.released) {
      assert k != i ==> s.threads[k].phase.Spinning?;
    }
    ArrivalsFull(s.threads, s.released);
    assert !SomeReleasing(s);
    assert BarrierInv(s, schedule, t.program[0].barrier);
  }

  // ---------- Progress ----------

  /** Accesses a thread still has to make; a wait costs four. */
  function Pending(t: Thread): nat {
    4 * |t.program| + 4 - (match t.phase
                           case Running => 0
                           case Loaded(_) => 1
                           case Spinning(_) => 2
                           case Resetting => 2
                           case Releasing => 3)
  }

  function Measure(threads: seq<Thread>): nat {
    if threads == [] then 0 else Pending(threads[0]) + Measure(threads[1..])
  }

  lemma {:induction false} MeasureUpdate(threads: seq<Thread>, i: nat, t: Thread)
    requires i < |threads|
    ensures Measure(threads[i := t]) == Measure(threads) - Pending(threads[i]) + Pending(t)
    decreases |threads|
  {
    if i > 0 {
      MeasureUpdate(threads[1..], i - 1, t);
      assert threads[i := t][1..] == threads[1..][i - 1 := t];
    } else {
      assert threads[i := t][1..] == threads[1..];
    }
  }

  /** Every step other than a fruitless spin brings the end nearer, so a run has
      at most `Measure` of them whatever the scheduler does. */
  lemma NextDecreases(s: System, i: nat)
    requires i < |s.threads| && Next(s, i).Some?
    ensures Measure(Next(s, i).value.threads) < Measure(s.threads)
  {
    MeasureUpdate(s.threads, i, Next(s, i).value.threads[i]);
    assert Next(s, i).value.threads == s.threads[i := Next(s, i).value.threads[i]];
  }

  predicate Finished(s: System) {
    forall i :: 0 <= i < |s.threads| ==> s.threads[i].program == []
  }

  lemma Blocked(s: System, schedule: seq<nat>, i: nat)
    requires Inv(s, schedule) && i < |s.threads| && s.threads[i].program != []
    ensures Next(s, i).None? ==> s.threads[i].phase.Spinning? && s.threads[i].completed == s.released
  {
    var t := s.threads[i];
    if t.program[0].Wait? {
      WaitsHead(t, schedule);
      if t.phase.Spinning? && t.completed + 1 == s.released {
        var b := t.program[0].barrier;
        assert BarrierInv(s, schedule, b);
        GenerationMoved(schedule, t.completed, b);
      }
    }
  }

  /** One release changes the wrapped generation: a waiter that lags by one
      always sees a different value. */
  lemma GenerationMoved(schedule: seq<nat>, r: nat, b: nat)
    requires r < |schedule| && schedule[r] == b
    ensures GenerationAfter(schedule, r, b) != GenerationAfter(schedule, r + 1, b)
  {
    assert schedule[..r + 1][..r] == schedule[..r];
    var x := Occurrences(schedule[..r], b);
    assert Occurrences(schedule[..r + 1], b) == x + 1;
  }

  lemma Unblocked(s: System, schedule: seq<nat>) returns (i: nat)
    requires Inv(s, schedule) && !Finished(s)
    ensures i < |s.threads| && Next(s, i).Some?
  {
    i :| i < |s.threads| && s.threads[i].program != [];
    if Next(s, i).None? {
      Blocked(s, schedule, i);
      WaitsHead(s.threads[i], schedule);
      forall j | 0 <= j < |s.threads| ensures Next(s, j).Some? || Arrived(s.threads[j], s.released) {
        NotFinished(s.threads[j], schedule, s.released);
        Blocked(s, schedule, j);
      }
      if j :| 0 <= j < |s.threads| && !Arrived(s.threads[j], s.released) {
        i := j;
      } else {
        ArrivalsFull(s.threads, s.released);
        i :| i < |s.threads| && (s.threads[i].phase.Resetting? || s.threads[i].phase.Releasing?);
        Blocked(s, schedule, i);
      }
    }
  }

  lemma NotFinished(t: Thread, schedule: seq<nat>, r: nat)
    requires r < |schedule| && ThreadInv(t, schedule, r)
    ensures t.program != []
  {
    assert t.phase.Running? ==> |schedule[t.completed..]| > 0;
  }

  /** No deadlock: as long as some worker has not finished, some thread can take
      a step that is not a spin. */
  lemma Progress(barriers: nat, programs: seq<seq<Action>>, schedule: seq<nat>, turns: seq<nat>)
    requires SameWaits(programs, schedule, barriers)
    ensures var s := Run(Initial(barriers, programs), turns);
            Finished(s) || exists i :: 0 <= i < |s.threads| && Next(s, i).Some?
  {
    InitialInv(barriers, programs, schedule);
    RunKeepsInv(Initial(barriers, programs), schedule, turns);
    var s := Run(Initial(barriers, programs), turns);
    if !Finished(s) { var i := Unblocked(s, schedule); }
  }

  /** A thread that can step keeps being able to until it does: no wakeup is
      lost to the steps of the others. */
  lemma StaysEnabled(s: System, schedule: seq<nat>, i: nat, j: nat)
    requires Inv(s, schedule) && i < |s.threads| && j < |s.threads| && i != j
    requires Next(s, i).Some? && Next(s, j).Some?
    ensures Next(Next(s, j).value, i).Some?
  {
    var t := s.threads[i];
    NextKeepsInv(s, schedule, j);
    var s' := Next(s, j).value;
    assert s'.threads[i] == t;
    Blocked(s', schedule, i);
    if t.phase.Spinning? && t.completed == s'.released {
      StillWaiting(s, schedule, i);
    }
  }

  lemma StillWaiting(s: System, schedule: seq<nat>, i: nat)
    requires Inv(s, schedule) && i < |s.threads| && Next(s, i).Some?
    ensures s.threads[i].phase.Spinning? ==> s.threads[i].completed + 1 == s.released
  {
    var t := s.threads[i];
    if t.phase.Spinning? {
      WaitsHead(t, schedule);
      assert BarrierInv(s, schedule, t.program[0].barrier);
    }
  }

  /** The turns of a sequence of rounds, one round after the other. */
  function Turns(rounds: seq<seq<nat>>): seq<nat> {
    if rounds == [] then [] else rounds[0] + Turns(rounds[1..])
  }

  /** A fair round: every thread gets a turn, in any order and any number of times. */
  predicate Fair(round: seq<nat>, threads: nat) {
    forall i: nat :: i < threads ==> i in round
  }

  lemma {:induction false} RunConcat(s: System, a: seq<nat>, b: seq<nat>)
    ensures Run(s, a + b) == Run(Run(s, a), b)
    decreases |a|
  {
    if a == [] {
      assert a + b == b;
    } else {
      assert (a + b)[1..] == a[1..] + b;
      var s' := if a[0] < |s.threads| && Next(s, a[0]).Some? then Next(s, a[0]).value else s;
      RunConcat(s', a[1..], b);
    }
  }

  lemma {:induction false} RunMeasure(s: System, turns: seq<nat>)
    ensures Measure(Run(s, turns).threads) <= Measure(s.threads)
    ensures (exists k :: 0 <= k < |turns| && turns[k] < |s.threads| && Next(s, turns[k]).Some?) ==>
              Measure(Run(s, turns).threads) < Measure(s.threads)
    decreases |turns|
  {
    if turns != [] {
      if turns[0] < |s.threads| && Next(s, turns[0]).Some? {
        NextDecreases(s, turns[0]);
        RunMeasure(Next(s, turns[0]).value, turns[1..]);
      } else {
        RunMeasure(s, turns[1..]);
        if exists k :: 0 <= k < |turns| && turns[k] < |s.threads| && Next(s, turns[k]).Some? {
          var k :| 0 <= k < |turns| && turns[k] < |s.threads| && Next(s, turns[k]).Some?;
          assert turns[1..][k - 1] == turns[k];
        }
      }
    }
  }

  lemma RoundDecreases(s: System, schedule: seq<nat>, round: seq<nat>)
    requires Inv(s, schedule) && !Finished(s) && Fair(round, |s.threads|)
    ensures Measure(Run(s, round).threads) < Measure(s.threads)
  {
    var i := Unblocked(s, schedule);
    assert i in round;
    var k :| 0 <= k < |round| && round[k] == i;
    assert round[k] < |s.threads| && Next(s, round[k]).Some?;
    RunMeasure(s, round);
  }

  /** Termination under fair scheduling: once every thread has had a turn in each
      of as many rounds as there are accesses left, every worker has finished. */
  lemma {:induction false} FairTermination(s: System, schedule: seq<nat>, rounds: seq<seq<nat>>)
    requires Inv(s, schedule) && Measure(s.threads) <= |rounds|
    requires forall r :: 0 <= r < |rounds| ==> Fair(rounds[r], |s.threads|)
    ensures Finished(Run(s, Turns(rounds)))
    decreases |rounds|
  {
    if Finished(s) {
      FinishedStays(s, Turns(rounds));
    } else if rounds != [] {
      RoundDecreases(s, schedule, rounds[0]);
      RunKeepsInv(s, schedule, rounds[0]);
      RunConcat(s, rounds[0], Turns(rounds[1..]));
      FairTermination(Run(s, rounds[0]), schedule, rounds[1..]);
    }
  }

  lemma {:induction false} FinishedStays(s: System, turns: seq<nat>)
    requires Finished(s)
    ensures Run(s, turns) == s
    decreases |turns|
  {
    if turns != [] { FinishedStays(s, turns[1..]); }
  }

  // ---------- What the barrier separates ----------

  /** Waits among the first `x` actions. */
  function WaitsBefore(program: seq<Action>, x: nat): nat
    requires x <= |program|
  {
    if x == 0 then 0 else WaitsBefore(program, x - 1) + if program[x - 1].Wait? then 1 else 0
  }

  lemma {:induction false} WaitsSplit(program: seq<Action>, x: nat)
    requires x <= |program|
    ensures |Waits(program[x..])| + WaitsBefore(program, x) == |Waits(program)|
  {
    if x == 0 {
      assert program[0..] == program;
    } else {
      WaitsSplit(program, x - 1);
      assert program[x - 1..][1..] == program[x..];
    }
  }

  lemma {:induction false} WaitsGrow(program: seq<Action>, x: nat, y: nat)
    requires x <= y <= |program|
    ensures WaitsBefore(program, x) <= WaitsBefore(program, y)
    decreases y
  {
    if x < y { WaitsGrow(program, x, y - 1); }
  }

  /** Actions of its program that a thread has behind it. */
  function Done(program: seq<Action>, t: Thread): int { |program| - |t.program| }

  /** The thread is somewhere along its program. */
  ghost predicate Along(program: seq<Action>, t: Thread) {
    |t.program| <= |program| && t.program == program[Done(program, t)..]
  }

  ghost predicate AllAlong(s: System, programs: seq<seq<Action>>) {
    |s.threads| == |programs| && forall i :: 0 <= i < |programs| ==> Along(programs[i], s.threads[i])
  }

  lemma NextAlong(s: System, programs: seq<seq<Action>>, i: nat)
    requires AllAlong(s, programs) && i < |s.threads| && Next(s, i).Some?
    ensures AllAlong(Next(s, i).value, programs)
  {
    var s' := Next(s, i).value;
    var t := s.threads[i];
    forall j | 0 <= j < |programs| ensures Along(programs[j], s'.threads[j]) {
      assert Along(programs[j], s.threads[j]);
      if j == i { assert programs[i][Done(programs[i], t)..][1..] == programs[i][Done(programs[i], t) + 1..]; }
    }
  }

  lemma {:induction false} RunAlong(s: System, programs: seq<seq<Action>>, turns: seq<nat>)
    requires AllAlong(s, programs)
    ensures AllAlong(Run(s, turns), programs)
    decreases |turns|
  {
    if turns != [] {
      if turns[0] < |s.threads| && Next(s, turns[0]).Some? {
        NextAlong(s, programs, turns[0]);
        RunAlong(Next(s, turns[0]).value, programs, turns[1..]);
      } else {
        RunAlong(s, programs, turns[1..]);
      }
    }
  }

  /** A thread has completed the waits it has behind it. */
  lemma CompletedBehind(program: seq<Action>, t: Thread, schedule: seq<nat>, r: nat)
    requires r <= |schedule| && ThreadInv(t, schedule, r) && Along(program, t) && Waits(program) == schedule
    ensures t.completed == WaitsBefore(program, Done(program, t))
  {
    WaitsSplit(program, Done(program, t));
  }

  /** A thread that has arrived at its `n`-th wait has done all that comes before it. */
  lemma BeforeArrival(program: seq<Action>, t: Thread, schedule: seq<nat>, r: nat, n: nat, y: nat)
    requires r <= |schedule| && ThreadInv(t, schedule, r) && Along(program, t) && Waits(program) == schedule
    requires n <= ArrivedWaits(t) && y < |program| && WaitsBefore(program, y + 1) < n
    ensures y < Done(program, t)
  {
    CompletedBehind(program, t, schedule, r);
    var d := Done(program, t);
    if d <= y {
      WaitsGrow(program, d, y + 1);
      if ArrivedWaits(t) != t.completed {
        assert program[d] == t.program[0];
        WaitsGrow(program, d + 1, y + 1);
      }
    }
  }

  lemma BehindWaits(program: seq<Action>, t: Thread, schedule: seq<nat>, r: nat, x: nat)
    requires r <= |schedule| && ThreadInv(t, schedule, r) && Along(program, t) && Waits(program) == schedule
    requires x < Done(program, t)
    ensures WaitsBefore(program, x) <= t.completed
  {
    CompletedBehind(program, t, schedule, r);
    WaitsGrow(program, x, Done(program, t));
  }

  lemma RunFacts(barriers: nat, programs: seq<seq<Action>>, schedule: seq<nat>, turns: seq<nat>)
    requires SameWaits(programs, schedule, barriers)
    ensures var s := Run(Initial(barriers, programs), turns);
            AllAlong(s, programs) && Inv(s, schedule)
  {
    InitialInv(barriers, programs, schedule);
    RunKeepsInv(Initial(barriers, programs), schedule, turns);
    RunAlong(Initial(barriers, programs), programs, turns);
  }

  /** What the barrier is for: no thread gets past an action that follows its
      `r`-th wait before every thread has done all that precedes its own. */
  lemma BarrierSeparates(barriers: nat, programs: seq<seq<Action>>, schedule: seq<nat>, turns: seq<nat>, i: nat, x: nat,
                         j: nat, y: nat)
    requires SameWaits(programs, schedule, barriers) && i < |programs| && j < |programs|
    requires x < |programs[i]| && y < |programs[j]|
             && WaitsBefore(programs[j], y + 1) < WaitsBefore(programs[i], x)
    ensures var s := Run(Initial(barriers, programs), turns);
            x < Done(programs[i], s.threads[i]) ==> y < Done(programs[j], s.threads[j])
  {
    RunFacts(barriers, programs, schedule, turns);
    Safety(barriers, programs, schedule, turns, i, j);
    var s := Run(Initial(barriers, programs), turns);
    if x < Done(programs[i], s.threads[i]) {
      BehindWaits(programs[i], s.threads[i], schedule, s.released, x);
      BeforeArrival(programs[j], s.threads[j], schedule, s.released, WaitsBefore(programs[i], x), y);
    }
  }

  // ---------- The benchmark workers ----------

  /** How far a worker gets before it gives up. */
  datatype Outcome = PinFailed | SetupFailed | Measured

  /** k3_load_sharing: one barrier, waited on twice on every path. */
  function LoadSharing(o: Outcome): seq<Action> {
    match o
    case PinFailed => [Wait(0), Wait(0)]
    case SetupFailed => [Work(Setup), Wait(0), Wait(0)]
    case Measured => [Work(Setup), Work(WarmUp), Wait(0), Work(Timed), Wait(0), Work(Finish)]
  }

  /** k3_bandwidth_diagnose: a `ready` and a `done` barrier. */
  function BandwidthDiagnose(o: Outcome): seq<Action> {
    match o
    case PinFailed => [Wait(0), Wait(1)]
    case SetupFailed => [Work(Setup), Wait(0), Wait(1), Work(Finish)]
    case Measured => [Work(Setup), Work(WarmUp), Wait(0), Work(Timed), Wait(1), Work(Finish)]
  }

  /** k3_scaling: one wait on every path. */
  function Scaling(o: Outcome): seq<Action> {
    match o
    case PinFailed => [Wait(0)]
    case SetupFailed => [Work(Setup), Wait(0)]
    case Measured => [Work(Setup), Work(WarmUp), Wait(0), Work(Timed)]
  }

  function Programs(worker: Outcome -> seq<Action>, outcomes: seq<Outcome>): seq<seq<Action>> {
    seq(|outcomes|, i requires 0 <= i < |outcomes| => worker(outcomes[i]))
  }

  /** Whichever workers fail, and wherever, and whatever fair order their turns
      come in, all of them terminate. */
  lemma WorkersTerminate(worker: Outcome -> seq<Action>, schedule: seq<nat>, barriers: nat, outcomes: seq<Outcome>,
                         rounds: seq<seq<nat>>)
    requires (worker == LoadSharing && schedule == [0, 0] && barriers == 1)
          || (worker == BandwidthDiagnose && schedule == [0, 1] && barriers == 2)
          || (worker == Scaling && schedule == [0] && barriers == 1)
    requires Measure(Initial(barriers, Programs(worker, outcomes)).threads) <= |rounds|
    requires forall r :: 0 <= r < |rounds| ==> Fair(rounds[r], |outcomes|)
    ensures Finished(Run(Initial(barriers, Programs(worker, outcomes)), Turns(rounds)))
  {
    var programs := Programs(worker, outcomes);
    forall i | 0 <= i < |programs| ensures Waits(programs[i]) == schedule {
      WorkerWaits(outcomes[i]);
    }
    InitialInv(barriers, programs, schedule);
    FairTermination(Initial(barriers, programs), schedule, rounds);
  }

  lemma WorkerWaits(o: Outcome)
    ensures Waits(LoadSharing(o)) == [0, 0]
    ensures Waits(BandwidthDiagnose(o)) == [0, 1]
    ensures Waits(Scaling(o)) == [0]
  {
    LoadSharingWaits(o);
    BandwidthDiagnoseWaits(o);
    ScalingWaits(o);
  }

  lemma LoadSharingWaits(o: Outcome)
    ensures Waits(LoadSharing(o)) == [0, 0]
  {
    WaitsUnfold(LoadSharing(o));
  }

  lemma BandwidthDiagnoseWaits(o: Outcome)
    ensures Waits(BandwidthDiagnose(o)) == [0, 1]
  {
    WaitsUnfold(BandwidthDiagnose(o));
  }

  lemma ScalingWaits(o: Outcome)
    ensures Waits(Scaling(o)) == [0]
  {
    WaitsUnfold(Scaling(o));
  }

  /** The thread has taken a step of this stage. */
  ghost predicate Took(program: seq<Action>, t: Thread, stage: Stage) {
    exists y :: 0 <= y < Done(program, t) && y < |program| && program[y] == Work(stage)
  }

  /** All its steps of this stage are behind it. */
  ghost predicate AllTaken(program: seq<Action>, t: Thread, stage: Stage) {
    forall y :: 0 <= y < |program| && program[y] == Work(stage) ==> y < Done(program, t)
  }

  /** Where a worker's work lies: set-up and then warm-up before the first wait,
      one timed pass, of a worker that gets so far, right after it, and the rest
      after the last. */
  ghost predicate StagedAt(program: seq<Action>, o: Outcome, waits: nat, y: nat)
    requires y < |program|
  {
    match program[y]
    case Wait(_) => true
    case Work(Setup) => WaitsBefore(program, y) == 0 && Work(WarmUp) !in program[..y]
    case Work(WarmUp) => WaitsBefore(program, y) == 0
    case Work(Timed) => o.Measured? && WaitsBefore(program, y) == 1 && Work(Timed) !in program[..y]
    case Work(Finish) => WaitsBefore(program, y) == waits
  }

  ghost predicate Staged(program: seq<Action>, o: Outcome, waits: nat) {
    && (forall y :: 0 <= y < |program| ==> StagedAt(program, o, waits, y))
    && (o.Measured? ==> Work(Setup) in program && Work(WarmUp) in program && Work(Timed) in program)
  }

  lemma LoadSharingStaged(o: Outcome)
    ensures Staged(LoadSharing(o), o, 2)
  {
    FirstWaits(LoadSharing(o));
  }

  lemma BandwidthDiagnoseStaged(o: Outcome)
    ensures Staged(BandwidthDiagnose(o), o, 2)
  {
    FirstWaits(BandwidthDiagnose(o));
  }

  lemma ScalingStaged(o: Outcome)
    ensures Staged(Scaling(o), o, 1)
  {
    FirstWaits(Scaling(o));
  }

  lemma FirstWaits(p: seq<Action>)
    ensures WaitsBefore(p, 0) == 0
    ensures forall x {:trigger WaitsBefore(p, x)} :: 0 < x <= |p| ==>
              WaitsBefore(p, x) == WaitsBefore(p, x - 1) + if p[x - 1].Wait? then 1 else 0
  {}

  /** Over every run of every worker, whichever fail: no worker takes its timed
      pass before every worker has arrived at its first wait and all set-up and
      warm-up is over; and where there is a second wait, no worker returns from it,
      or goes on to the rest, before every timed pass has been taken. */
  lemma TimedTogether(worker: Outcome -> seq<Action>, schedule: seq<nat>, barriers: nat, outcomes: seq<Outcome>,
                      turns: seq<nat>, i: nat, j: nat)
    requires (worker == LoadSharing && schedule == [0, 0] && barriers == 1)
          || (worker == BandwidthDiagnose && schedule == [0, 1] && barriers == 2)
          || (worker == Scaling && schedule == [0] && barriers == 1)
    requires i < |outcomes| && j < |outcomes|
    ensures var s := Run(Initial(barriers, Programs(worker, outcomes)), turns);
            var p, q := worker(outcomes[i]), worker(outcomes[j]);
            && TimedFirst(p, s.threads[i], outcomes[i], q, s.threads[j], outcomes[j], |schedule|)
            && (Finished(s) && outcomes[j].Measured? ==> Took(q, s.threads[j], Timed))
  {
    var programs := Programs(worker, outcomes);
    forall k | 0 <= k < |programs| ensures Waits(programs[k]) == schedule { WorkerWaits(outcomes[k]); }
    WorkerStaged(outcomes[i]);
    WorkerStaged(outcomes[j]);
    TimedApart(programs, schedule, barriers, turns, i, outcomes[i], j, outcomes[j]);
  }

  lemma TimedApart(programs: seq<seq<Action>>, schedule: seq<nat>, barriers: nat, turns: seq<nat>, i: nat, o: Outcome,
                   j: nat, l: Outcome)
    requires SameWaits(programs, schedule, barriers) && i < |programs| && j < |programs|
    requires Staged(programs[i], o, |schedule|) && Staged(programs[j], l, |schedule|)
    ensures var s := Run(Initial(barriers, programs), turns);
            TimedFirst(programs[i], s.threads[i], o, programs[j], s.threads[j], l, |schedule|)
            && (Finished(s) && l.Measured? ==> Took(programs[j], s.threads[j], Timed))
  {
    hide Waits, ThreadInv, Run, Staged, Took, ArrivedWaits, Along, AllTaken;
    RunFacts(barriers, programs, schedule, turns);
    Safety(barriers, programs, schedule, turns, i, j);
    var s := Run(Initial(barriers, programs), turns);
    StagesApart(programs[i], s.threads[i], o, programs[j], s.threads[j], l, schedule, s.released);
    if Finished(s) && l.Measured? { FinishedTaken(programs[j], s.threads[j], l, |schedule|); }
  }

  /** Once worker `p` has taken its timed pass, worker `q` has arrived at its first
      wait and is through with set-up and warm-up; once `p` is beyond its second
      wait, `q` has arrived there too and its timed pass is taken. */
  ghost predicate TimedFirst(p: seq<Action>, t: Thread, o: Outcome, q: seq<Action>, u: Thread, l: Outcome, waits: nat) {
    && (Took(p, t, Timed) ==>
          o.Measured? && ArrivedWaits(u) >= 1 && AllTaken(q, u, Setup) && AllTaken(q, u, WarmUp))
    && (Beyond(p, t, waits) ==>
          ArrivedWaits(u) >= 2 && AllTaken(q, u, Timed) && (l.Measured? ==> Took(q, u, Timed)))
  }

  lemma FinishedTaken(q: seq<Action>, u: Thread, l: Outcome, waits: nat)
    requires Staged(q, l, waits) && l.Measured? && u.program == []
    ensures Took(q, u, Timed)
  {
    TimedTaken(q, u, l, waits);
  }

  lemma WorkerStaged(o: Outcome)
    ensures Staged(LoadSharing(o), o, 2) && Staged(BandwidthDiagnose(o), o, 2) && Staged(Scaling(o), o, 1)
  {
    LoadSharingStaged(o);
    BandwidthDiagnoseStaged(o);
    ScalingStaged(o);
  }

  lemma StagesApart(p: seq<Action>, t: Thread, o: Outcome, q: seq<Action>, u: Thread, l: Outcome, schedule: seq<nat>,
                    r: nat)
    requires r <= |schedule| && Waits(p) == Waits(q) == schedule && Along(p, t) && Along(q, u)
    requires ThreadInv(t, schedule, r) && ThreadInv(u, schedule, r) && t.completed <= ArrivedWaits(u)
    requires Staged(p, o, |schedule|) && Staged(q, l, |schedule|)
    ensures TimedFirst(p, t, o, q, u, l, |schedule|)
  {
    hide ThreadInv, Along, Waits, Staged, ArrivedWaits, AllTaken, Took;
    if Took(p, t, Timed) {
      TookAfter(p, t, o, schedule, r, Timed, 1);
      WorkBefore(q, u, l, schedule, r, Setup, 1);
      WorkBefore(q, u, l, schedule, r, WarmUp, 1);
    }
    if Beyond(p, t, |schedule|) {
      if Took(p, t, Finish) { TookAfter(p, t, o, schedule, r, Finish, 2); }
      WorkBefore(q, u, l, schedule, r, Timed, 2);
      if l.Measured? { TimedTaken(q, u, l, |schedule|); }
    }
  }

  /** Of two waits, the thread has returned from the second, or gone on after it. */
  ghost predicate Beyond(program: seq<Action>, t: Thread, waits: nat) {
    waits == 2 && (t.completed >= 2 || Took(program, t, Finish))
  }

  lemma TookAfter(p: seq<Action>, t: Thread, o: Outcome, schedule: seq<nat>, r: nat, stage: Stage, n: nat)
    requires r <= |schedule| && Waits(p) == schedule && Along(p, t) && ThreadInv(t, schedule, r)
    requires Staged(p, o, |schedule|) && Took(p, t, stage)
    requires (stage == Timed && n == 1) || (stage == Finish && n == |schedule|)
    ensures t.completed >= n && (stage == Timed ==> o.Measured?)
  {
    hide ThreadInv, Along, Waits;
    var x :| 0 <= x < Done(p, t) && x < |p| && p[x] == Work(stage);
    assert StagedAt(p, o, |schedule|, x);
    BehindWaits(p, t, schedule, r, x);
  }

  lemma TimedTaken(q: seq<Action>, u: Thread, l: Outcome, waits: nat)
    requires Staged(q, l, waits) && l.Measured? && AllTaken(q, u, Timed)
    ensures Took(q, u, Timed)
  {
    var y :| 0 <= y < |q| && q[y] == Work(Timed);
    assert y < Done(q, u);
  }

  lemma WorkBefore(q: seq<Action>, u: Thread, l: Outcome, schedule: seq<nat>, r: nat, stage: Stage, n: nat)
    requires r <= |schedule| && Waits(q) == schedule && Along(q, u) && ThreadInv(u, schedule, r)
    requires Staged(q, l, |schedule|) && n <= ArrivedWaits(u)
    requires ((stage == Setup || stage == WarmUp) && n == 1) || (stage == Timed && n == 2)
    ensures AllTaken(q, u, stage)
  {
    hide ThreadInv, Along, Waits, ArrivedWaits;
    forall y | 0 <= y < |q| && q[y] == Work(stage) ensures y < Done(q, u) {
      assert StagedAt(q, l, |schedule|, y);
      BeforeArrival(q, u, schedule, r, n, y);
    }
  }

  /** `Waits` of the program from position `k` on. */
  function WaitsAt(p: seq<Action>, k: nat): seq<nat>
    decreases |p| - k
  {
    if k >= |p| then []
    else if p[k].Wait? then [p[k].barrier] + WaitsAt(p, k + 1)
    else WaitsAt(p, k + 1)
  }

  lemma {:induction false} WaitsAtIs(p: seq<Action>, k: nat)
    requires k <= |p|
    ensures WaitsAt(p, k) == Waits(p[k..])
    decreases |p| - k
  {
    if k < |p| {
      WaitsAtIs(p, k + 1);
      assert p[k..][1..] == p[k + 1..];
    }
  }

  lemma WaitsUnfold(p: seq<Action>)
    requires |p| <= 6
    ensures Waits(p) == WaitsAt(p, 0)
    ensures WaitsAt(p, 6) == []
    ensures forall k {:trigger WaitsAt(p, k)} :: 0 <= k < |p| ==>
              WaitsAt(p, k) == (if p[k].Wait? then [p[k].barrier] else []) + WaitsAt(p, k + 1)
  {
    WaitsAtIs(p, 0);
    assert p[0..] == p;
  }
}
