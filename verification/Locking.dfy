// Many dispatchers and the monitor under the one mutex: every interleaving of lock,
// section steps, unlock and late reads has the effect of running the sections one after
// another in lock order.
module Locking {
  import opened GridMap
  import opened Fleet
  import opened FleetInvariants
  import opened FleetRuns
  import opened CriticalSections

  datatype Thread =
    | Idle
    | Waiting(op: Op)                            // at pthread_mutex_lock
    | Inside(op: Op, pc: Pc)                     // holds the mutex
    | Outside(op: Op, result: Result, at: nat)   // unlocked, still to write its reply

  // `log` lists the sections in the order they took the lock.
  datatype System = System(shared: FleetState, holder: int, threads: seq<Thread>, log: seq<Op>)

  const FREE: int := -1

  predicate Initial(sys: System, s0: FleetState) {
    sys.shared == s0 && sys.holder == FREE && sys.log == [] && forall t :: 0 <= t < |sys.threads| ==> sys.threads[t] == Idle
  }

  // A limiter call with an id outside 1..1999 returns before it reaches the lock.
  predicate Locks(op: Op) {
    op.RateOp? ==> Limited(op.client)
  }

  predicate Request(a: System, b: System, t: int, op: Op)
    requires 0 <= t < |a.threads|
  {
    a.threads[t] == Idle && Locks(op) && b == a.(threads := a.threads[t := Waiting(op)])
  }

  predicate Acquire(a: System, b: System, t: int)
    requires 0 <= t < |a.threads|
  {
    && a.holder == FREE && a.threads[t].Waiting?
    && var op := a.threads[t].op;
       b == a.(holder := t, log := a.log + [op], threads := a.threads[t := Inside(op, StartPc(op))])
  }

  predicate Step(g: Grid, a: System, b: System, t: int)
    requires 0 <= t < |a.threads|
  {
    && a.threads[t].Inside? && !a.threads[t].pc.Done?
    && WellFormed(a.shared) && PcFits(a.threads[t].op, a.shared, a.threads[t].pc)
    && var op := a.threads[t].op;
       var (s', pc') := Micro(g, op, a.shared, a.threads[t].pc);
       b == a.(shared := s', threads := a.threads[t := Inside(op, pc')])
  }

  predicate Release(a: System, b: System, t: int)
    requires 0 <= t < |a.threads|
  {
    && a.threads[t].Inside? && a.threads[t].pc.Done? && |a.log| > 0
    && b == a.(holder := FREE,
               threads := a.threads[t := Outside(a.threads[t].op, a.threads[t].pc.result, |a.log| - 1)])
  }

  // The reply is written from fields read after the unlock.
  predicate Report(a: System, b: System, t: int)
    requires 0 <= t < |a.threads|
  {
    a.threads[t].Outside? && b == a.(threads := a.threads[t := Idle])
  }

  ghost predicate Next(g: Grid, a: System, b: System) {
    exists t :: 0 <= t < |a.threads| && NextBy(g, a, b, t)
  }

  ghost predicate NextBy(g: Grid, a: System, b: System, t: int)
    requires 0 <= t < |a.threads|
  {
    || (exists op :: Request(a, b, t, op))
    || Acquire(a, b, t) || Step(g, a, b, t) || Release(a, b, t) || Report(a, b, t)
  }

  // ---------------------------------------------------------------------------
  // The invariant
  // ---------------------------------------------------------------------------

  // The sections that have finished, in lock order.
  function Finished(sys: System): seq<Op> {
    if sys.holder == FREE || sys.log == [] then sys.log else sys.log[..|sys.log| - 1]
  }

  // A finished section got the result the serial run gives it.
  ghost predicate GoodResult(g: Grid, s0: FleetState, sys: System, op: Op, result: Result, at: nat)
    requires WellFormed(s0)
  {
    && at < |Finished(sys)| && sys.log[at] == op
    && result == ResultOf(g, Run(g, s0, sys.log[..at]), op)
  }

  ghost predicate HolderFits(g: Grid, s0: FleetState, sys: System)
    requires WellFormed(s0) && WellFormed(sys.shared)
  {
    && 0 <= sys.holder < |sys.threads| && sys.threads[sys.holder].Inside? && |sys.log| > 0
    && var op, pc := sys.threads[sys.holder].op, sys.threads[sys.holder].pc;
       var base := Run(g, s0, sys.log[..|sys.log| - 1]);
       && op == sys.log[|sys.log| - 1] && PcFits(op, sys.shared, pc)
       && Heading(g, op, sys.shared, pc) == (Apply(g, base, op), ResultOf(g, base, op))
       && SlotsStay(base, sys.shared) && TouchesNew(base, pc) && TargetsHeld(base, op, sys.shared, pc)
  }

  ghost predicate Serial(g: Grid, s0: FleetState, sys: System)
    requires WellFormed(s0)
  {
    && WellFormed(sys.shared)
    && (sys.holder == FREE ==> sys.shared == Run(g, s0, sys.log))
    && (sys.holder != FREE ==> HolderFits(g, s0, sys))
    && (forall t :: 0 <= t < |sys.threads| ==> (sys.threads[t].Inside? <==> sys.holder == t))
    && (forall t :: 0 <= t < |sys.threads| && sys.threads[t].Waiting? ==> Locks(sys.threads[t].op))
    && (forall t :: 0 <= t < |sys.threads| && sys.threads[t].Outside? ==>
          GoodResult(g, s0, sys, sys.threads[t].op, sys.threads[t].result, sys.threads[t].at))
  }

  lemma InitialIsSerial(g: Grid, s0: FleetState, sys: System)
    requires WellFormed(s0) && Initial(sys, s0)
    ensures Serial(g, s0, sys)
  {}

  lemma AcquireKeepsSerial(g: Grid, s0: FleetState, a: System, b: System, t: int)
    requires WellFormed(s0) && 0 <= t < |a.threads| && Serial(g, s0, a) && Acquire(a, b, t)
    ensures Serial(g, s0, b)
  {
    var op := a.threads[t].op;
    assert b.log[..|b.log| - 1] == a.log;
    StartHeadsForApply(g, a.shared, op);
    assert HolderFits(g, s0, b);
    forall u | 0 <= u < |b.threads| && b.threads[u].Outside?
      ensures GoodResult(g, s0, b, b.threads[u].op, b.threads[u].result, b.threads[u].at)
    {
      var at := a.threads[u].at;
      assert GoodResult(g, s0, a, a.threads[u].op, a.threads[u].result, at);
      assert b.log[..at] == a.log[..at];
    }
  }

  lemma StepKeepsSerial(g: Grid, s0: FleetState, a: System, b: System, t: int)
    requires WellFormed(s0) && 0 <= t < |a.threads| && Serial(g, s0, a) && Step(g, a, b, t)
    ensures Serial(g, s0, b)
  {
    var op, pc := a.threads[t].op, a.threads[t].pc;
    var base := Run(g, s0, a.log[..|a.log| - 1]);
    assert a.holder == t;
    MicroKeepsHeading(g, op, a.shared, pc);
    MicroKeepsSlots(g, base, op, a.shared, pc);
    MicroKeepsTargets(g, base, op, a.shared, pc);
    assert HolderFits(g, s0, b);
    forall u | 0 <= u < |b.threads| && b.threads[u].Outside?
      ensures GoodResult(g, s0, b, b.threads[u].op, b.threads[u].result, b.threads[u].at)
    {
      assert GoodResult(g, s0, a, a.threads[u].op, a.threads[u].result, a.threads[u].at);
    }
  }

  lemma ReleaseKeepsSerial(g: Grid, s0: FleetState, a: System, b: System, t: int)
    requires WellFormed(s0) && 0 <= t < |a.threads| && Serial(g, s0, a) && Release(a, b, t)
    ensures Serial(g, s0, b)
  {
    assert a.holder == t;
    forall u | 0 <= u < |b.threads| && b.threads[u].Outside?
      ensures GoodResult(g, s0, b, b.threads[u].op, b.threads[u].result, b.threads[u].at)
    {
      if u != t {
        assert GoodResult(g, s0, a, a.threads[u].op, a.threads[u].result, a.threads[u].at);
      }
    }
  }

  lemma OutsideMoveKeepsSerial(g: Grid, s0: FleetState, a: System, b: System, t: int)
    requires WellFormed(s0) && 0 <= t < |a.threads| && Serial(g, s0, a)
    requires Report(a, b, t) || exists op :: Request(a, b, t, op)
    ensures Serial(g, s0, b)
  {
    assert Finished(b) == Finished(a) && a.holder != t;
    forall u | 0 <= u < |b.threads| && b.threads[u].Outside?
      ensures GoodResult(g, s0, b, b.threads[u].op, b.threads[u].result, b.threads[u].at)
    {
      assert GoodResult(g, s0, a, a.threads[u].op, a.threads[u].result, a.threads[u].at);
    }
    assert b.holder != FREE ==> HolderFits(g, s0, b);
  }

  lemma NextKeepsSerial(g: Grid, s0: FleetState, a: System, b: System)
    requires WellFormed(s0) && Serial(g, s0, a) && Next(g, a, b)
    ensures Serial(g, s0, b)
  {
    var t :| 0 <= t < |a.threads| && NextBy(g, a, b, t);
    if Acquire(a, b, t) {
      AcquireKeepsSerial(g, s0, a, b, t);
    } else if Step(g, a, b, t) {
      StepKeepsSerial(g, s0, a, b, t);
    } else if Release(a, b, t) {
      ReleaseKeepsSerial(g, s0, a, b, t);
    } else {
      OutsideMoveKeepsSerial(g, s0, a, b, t);
    }
  }

  // A finite execution.
  ghost predicate Execution(g: Grid, s0: FleetState, trace: seq<System>) {
    && trace != [] && Initial(trace[0], s0)
    && forall i :: 0 < i < |trace| ==> Next(g, trace[i - 1], trace[i])
  }

  lemma {:induction false} ExecutionIsSerial(g: Grid, s0: FleetState, trace: seq<System>, i: nat)
    requires WellFormed(s0) && Execution(g, s0, trace) && i < |trace|
    ensures Serial(g, s0, trace[i])
  {
    if i == 0 {
      InitialIsSerial(g, s0, trace[0]);
    } else {
      ExecutionIsSerial(g, s0, trace, i - 1);
      NextKeepsSerial(g, s0, trace[i - 1], trace[i]);
    }
  }

  // ---------------------------------------------------------------------------
  // What follows
  // ---------------------------------------------------------------------------

  // Whenever the mutex is free, the shared state is that of the serial run in lock order;
  // two threads are never inside at once; every finished section has its serial result.
  lemma EveryExecutionIsSerialisable(g: Grid, s0: FleetState, trace: seq<System>)
    requires WellFormed(s0) && Execution(g, s0, trace)
    ensures var sys := trace[|trace| - 1];
            && (sys.holder == FREE ==> sys.shared == Run(g, s0, sys.log))
            && (forall t, u :: 0 <= t < |sys.threads| && 0 <= u < |sys.threads| && sys.threads[t].Inside? && sys.threads[u].Inside? ==> t == u)
            && (forall t :: 0 <= t < |sys.threads| && sys.threads[t].Outside? ==>
                  && sys.threads[t].at < |sys.log|
                  && sys.threads[t].result == ResultOf(g, Run(g, s0, sys.log[..sys.threads[t].at]), sys.threads[t].op))
  {
    ExecutionIsSerial(g, s0, trace, |trace| - 1);
  }

  // So everything proved of serial runs holds at every moment the mutex is free.
  lemma FreeStatesAreSoundAndBalanced(g: Grid, n: nat, mode: int, rolls: seq<StartRolls>, trace: seq<System>)
    requires CitySized(g) && n <= MAX_DRIVERS && |rolls| == n
    requires Execution(g, InitialFleet(n, mode, rolls), trace) && trace[|trace| - 1].holder == FREE
    ensures var s0, sys := InitialFleet(n, mode, rolls), trace[|trace| - 1];
            Sound(g, sys.shared) && Balanced(sys.shared, RunLedger(g, s0, NewLedger(), sys.log))
  {
    ExecutionIsSerial(g, InitialFleet(n, mode, rolls), trace, |trace| - 1);
    ReachableStatesAreSound(g, n, mode, rolls, trace[|trace| - 1].log);
    BooksBalance(g, n, mode, rolls, trace[|trace| - 1].log);
  }

  lemma {:induction false} RunKeepsSlots(g: Grid, s0: FleetState, ops: seq<Op>, m: nat, n: nat)
    requires WellFormed(s0) && m <= n <= |ops|
    ensures SlotsStay(Run(g, s0, ops[..m]), Run(g, s0, ops[..n]))
    decreases n
  {
    if m < n {
      RunKeepsSlots(g, s0, ops, m, n - 1);
      assert ops[..n][..n - 1] == ops[..n - 1];
      ApplyKeepsSlots(g, Run(g, s0, ops[..n - 1]), ops[n - 1]);
    }
  }

  // The reply is built from the driver's id and rating and from the dispatch mode, all
  // read after the unlock, while other sections may be under way. They are still the
  // values the section itself saw.
  lemma LateReadsAreStable(g: Grid, s0: FleetState, trace: seq<System>, t: int, i: nat)
    requires WellFormed(s0) && Execution(g, s0, trace) && i < |trace|
    requires var sys := trace[i];
             && 0 <= t < |sys.threads| && sys.threads[t].Outside?
             && sys.threads[t].result.Chosen? && sys.threads[t].result.index != -1
    ensures var sys := trace[i];
            var k, at := sys.threads[t].result.index, sys.threads[t].at;
            && at <= |sys.log| && 0 <= k < MAX_DRIVERS && WellFormed(sys.shared)
            && var seen := Run(g, s0, sys.log[..at]);
               && sys.shared.drivers[k].id == seen.drivers[k].id
               && sys.shared.drivers[k].rating == seen.drivers[k].rating
               && sys.shared.mode == seen.mode
  {
    var sys := trace[i];
    ExecutionIsSerial(g, s0, trace, i);
    var op, k, at := sys.threads[t].op, sys.threads[t].result.index, sys.threads[t].at;
    assert GoodResult(g, s0, sys, op, sys.threads[t].result, at);
    var n := |Finished(sys)|;
    RunKeepsSlots(g, s0, sys.log, at, n);
    assert sys.log[..|sys.log|] == sys.log;
    assert SlotsStay(Run(g, s0, sys.log[..n]), sys.shared);
  }

  // ---------------------------------------------------------------------------
  // Progress
  // ---------------------------------------------------------------------------

  // The thread that holds the mutex is never held up by the guards on its steps.
  lemma HolderCanMove(g: Grid, s0: FleetState, trace: seq<System>) returns (b: System)
    requires WellFormed(s0) && Execution(g, s0, trace) && trace[|trace| - 1].holder != FREE
    ensures var sys := trace[|trace| - 1];
            0 <= sys.holder < |sys.threads| && (Step(g, sys, b, sys.holder) || Release(sys, b, sys.holder))
  {
    var sys := trace[|trace| - 1];
    ExecutionIsSerial(g, s0, trace, |trace| - 1);
    var t := sys.holder;
    var op, pc := sys.threads[t].op, sys.threads[t].pc;
    if pc.Done? {
      b := sys.(holder := FREE, threads := sys.threads[t := Outside(op, pc.result, |sys.log| - 1)]);
    } else {
      var (s', pc') := Micro(g, op, sys.shared, pc);
      b := sys.(shared := s', threads := sys.threads[t := Inside(op, pc')]);
    }
  }

  // The moves a thread has before it needs the mutex.
  function FreeMoves(threads: seq<Thread>): (n: nat)
    ensures n <= 2 * |threads|
  {
    if threads == [] then 0
    else
      FreeMoves(threads[..|threads| - 1])
      + match threads[|threads| - 1] case Outside(_, _, _) => 2 case Idle => 1 case _ => 0
  }

  lemma {:induction false} FreeMovesAfterUpdate(threads: seq<Thread>, t: nat, thread: Thread)
    requires t < |threads|
    ensures FreeMoves(threads[t := thread]) == FreeMoves(threads) - FreeMoves([threads[t]]) + FreeMoves([thread])
  {
    var n := |threads| - 1;
    assert [threads[t]][..0] == [] && [thread][..0] == [];
    if t < n {
      FreeMovesAfterUpdate(threads[..n], t, thread);
      assert threads[t := thread][..n] == threads[..n][t := thread];
    } else {
      assert threads[t := thread][..n] == threads[..n];
    }
  }

  // A thread is inside, and no other.
  predicate Held(sys: System) {
    && WellFormed(sys.shared) && 0 <= sys.holder < |sys.threads| && sys.threads[sys.holder].Inside?
    && PcFits(sys.threads[sys.holder].op, sys.shared, sys.threads[sys.holder].pc)
    && forall t :: 0 <= t < |sys.threads| && sys.threads[t].Inside? ==> t == sys.holder
  }

  // What may still happen before the mutex is free: steps of the section, and the few
  // moves of other threads that do not need the mutex.
  function Pending(sys: System): (n: nat)
    requires Held(sys)
    ensures n <= MAX_SECTION + 2 * |sys.threads|
  {
    Remaining(sys.threads[sys.holder].op, sys.shared, sys.threads[sys.holder].pc) + FreeMoves(sys.threads)
  }

  lemma FreeMovesOfOne(t: Thread)
    ensures FreeMoves([t]) == match t case Outside(_, _, _) => 2 case Idle => 1 case _ => 0
  {
    assert [t][..0] == [];
  }

  lemma HeldMutexComesCloser(g: Grid, a: System, b: System)
    requires Held(a) && Held(b) && Next(g, a, b)
    ensures Pending(b) < Pending(a) && |b.threads| == |a.threads|
  {
    var t :| 0 <= t < |a.threads| && NextBy(g, a, b, t);
    FreeMovesAfterUpdate(a.threads, t, b.threads[t]);
    FreeMovesOfOne(a.threads[t]);
    FreeMovesOfOne(b.threads[t]);
    if Step(g, a, b, t) {
      MicroDescends(g, a.threads[t].op, a.shared, a.threads[t].pc);
    } else {
      assert b.threads[a.holder] == a.threads[a.holder];
    }
  }

  lemma {:induction false} PendingAfter(g: Grid, trace: seq<System>, i: nat, k: nat)
    requires i <= k < |trace|
    requires forall j :: i <= j < |trace| ==> Held(trace[j])
    requires forall j :: i < j < |trace| ==> Next(g, trace[j - 1], trace[j])
    ensures Pending(trace[k]) + (k - i) <= Pending(trace[i])
    decreases k
  {
    hide Pending;
    if i < k {
      PendingAfter(g, trace, i, k - 1);
      HeldMutexComesCloser(g, trace[k - 1], trace[k]);
    }
  }

  // However the threads are scheduled, the mutex is free again after a bounded number of
  // transitions: no section runs on, and the others cannot go on without the mutex.
  lemma MutexIsFreed(g: Grid, s0: FleetState, trace: seq<System>, i: nat)
    requires WellFormed(s0) && Execution(g, s0, trace) && i < |trace|
    requires forall j :: i <= j < |trace| ==> trace[j].holder != FREE
    ensures |trace| - i <= MAX_SECTION + 2 * |trace[i].threads| + 1
  {
    forall j: nat | i <= j < |trace|
      ensures Held(trace[j])
    {
      ExecutionIsSerial(g, s0, trace, j);
    }
    PendingAfter(g, trace, i, |trace| - 1);
  }

  lemma Extended(g: Grid, s0: FleetState, trace: seq<System>, b: System, t: int)
    requires Execution(g, s0, trace)
    requires 0 <= t < |trace[|trace| - 1].threads| && NextBy(g, trace[|trace| - 1], b, t)
    ensures Execution(g, s0, trace + [b])
  {
    var more := trace + [b];
    assert Next(g, trace[|trace| - 1], b);
    forall i | 0 < i < |more|
      ensures Next(g, more[i - 1], more[i])
    {
      assert i < |trace| ==> Next(g, trace[i - 1], trace[i]);
    }
  }

  predicate InsideAt(sys: System, t: int) {
    && 0 <= t < |sys.threads| && sys.threads[t].Inside?
    && WellFormed(sys.shared) && PcFits(sys.threads[t].op, sys.shared, sys.threads[t].pc)
  }

  // One step of the section thread t is in.
  lemma StepInside(g: Grid, s0: FleetState, trace: seq<System>, t: int) returns (b: System)
    requires Execution(g, s0, trace) && InsideAt(trace[|trace| - 1], t) && !trace[|trace| - 1].threads[t].pc.Done?
    ensures Execution(g, s0, trace + [b]) && InsideAt(b, t)
    ensures var sys := trace[|trace| - 1];
            var op, pc := sys.threads[t].op, sys.threads[t].pc;
            var (s', pc') := Micro(g, op, sys.shared, pc);
            && b == sys.(shared := s', threads := sys.threads[t := Inside(op, pc')])
            && Remaining(op, s', pc') < Remaining(op, sys.shared, pc)
            && Heading(g, op, s', pc') == Heading(g, op, sys.shared, pc)
  {
    var sys := trace[|trace| - 1];
    var op, pc := sys.threads[t].op, sys.threads[t].pc;
    var (s', pc') := Micro(g, op, sys.shared, pc);
    b := sys.(shared := s', threads := sys.threads[t := Inside(op, pc')]);
    Extended(g, s0, trace, b, t);
    MicroDescends(g, op, sys.shared, pc);
    MicroKeepsHeading(g, op, sys.shared, pc);
  }

  predicate OthersStay(a: System, b: System, t: int) {
    |b.threads| == |a.threads| && forall u :: 0 <= u < |a.threads| && u != t ==> b.threads[u] == a.threads[u]
  }

  // More of the same trace, in which only thread t has moved.
  ghost predicate OnlyMoves(trace: seq<System>, more: seq<System>, t: int) {
    && trace != [] && trace <= more
    && forall m :: |trace| - 1 <= m < |more| ==> OthersStay(trace[|trace| - 1], more[m], t)
  }

  lemma MovesOn(a: seq<System>, b: seq<System>, c: seq<System>, t: int)
    requires OnlyMoves(a, b, t) && OnlyMoves(b, c, t)
    ensures OnlyMoves(a, c, t)
  {
    var n := |b| - 1;
    assert OthersStay(a[|a| - 1], b[n], t);
    forall m | |a| - 1 <= m < |c|
      ensures OthersStay(a[|a| - 1], c[m], t)
    {
      if m < n {
        assert c[m] == b[m] && OthersStay(a[|a| - 1], b[m], t);
      } else {
        assert OthersStay(b[n], c[m], t);
      }
    }
  }

  lemma MovesOne(trace: seq<System>, b: System, t: int)
    requires trace != [] && 0 <= t < |trace[|trace| - 1].threads| == |b.threads|
    requires b.threads == trace[|trace| - 1].threads[t := b.threads[t]]
    ensures OnlyMoves(trace, trace + [b], t)
  {}

  // The section a thread is in can be run to its end, where it was heading.
  lemma {:induction false} RunToDone(g: Grid, s0: FleetState, trace: seq<System>, t: int) returns (more: seq<System>)
    requires WellFormed(s0) && Execution(g, s0, trace)
    requires InsideAt(trace[|trace| - 1], t)
    ensures Execution(g, s0, more) && OnlyMoves(trace, more, t)
    ensures var sys := trace[|trace| - 1];
            var op := sys.threads[t].op;
            var (s', result) := Heading(g, op, sys.shared, sys.threads[t].pc);
            more[|more| - 1] == sys.(shared := s', threads := sys.threads[t := Inside(op, Done(result))])
    decreases var sys := trace[|trace| - 1]; Remaining(sys.threads[t].op, sys.shared, sys.threads[t].pc)
  {
    var sys := trace[|trace| - 1];
    var op, pc := sys.threads[t].op, sys.threads[t].pc;
    if pc.Done? {
      more := trace;
    } else {
      var b := StepInside(g, s0, trace, t);
      more := RunToDone(g, s0, trace + [b], t);
      MovesOne(trace, b, t);
      MovesOn(trace, trace + [b], more, t);
    }
  }

  // Any section can come next.
  lemma AnySectionCanBegin(g: Grid, s0: FleetState, trace: seq<System>, t: int, op: Op) returns (more: seq<System>)
    requires Execution(g, s0, trace) && Locks(op)
    requires var sys := trace[|trace| - 1]; 0 <= t < |sys.threads| && sys.holder == FREE && sys.threads[t] == Idle
    ensures Execution(g, s0, more) && OnlyMoves(trace, more, t)
    ensures var sys := trace[|trace| - 1];
            more[|more| - 1] == sys.(holder := t, log := sys.log + [op], threads := sys.threads[t := Inside(op, StartPc(op))])
  {
    var sys := trace[|trace| - 1];
    var waiting := sys.(threads := sys.threads[t := Waiting(op)]);
    assert Request(sys, waiting, t, op);
    Extended(g, s0, trace, waiting, t);
    var inside := sys.(holder := t, log := sys.log + [op], threads := sys.threads[t := Inside(op, StartPc(op))]);
    assert waiting.threads[t := Inside(op, StartPc(op))] == inside.threads;
    Extended(g, s0, trace + [waiting], inside, t);
    more := trace + [waiting] + [inside];
    MovesOne(trace, waiting, t);
    MovesOne(trace + [waiting], inside, t);
    MovesOn(trace, trace + [waiting], more, t);
  }

  // The converse of serialisability: any section can come next, and then has its effect.
  lemma AnySectionCanRun(g: Grid, s0: FleetState, trace: seq<System>, t: int, op: Op) returns (more: seq<System>)
    requires WellFormed(s0) && Execution(g, s0, trace) && Locks(op)
    requires var sys := trace[|trace| - 1]; 0 <= t < |sys.threads| && sys.holder == FREE && sys.threads[t] == Idle
    ensures Execution(g, s0, more) && OnlyMoves(trace, more, t)
    ensures var sys := trace[|trace| - 1];
            && WellFormed(sys.shared)
            && more[|more| - 1] == sys.(shared := Apply(g, sys.shared, op), log := sys.log + [op],
                                        threads := sys.threads[t := Outside(op, ResultOf(g, sys.shared, op), |sys.log|)])
  {
    var sys := trace[|trace| - 1];
    ExecutionIsSerial(g, s0, trace, |trace| - 1);
    var begun := AnySectionCanBegin(g, s0, trace, t, op);
    StartHeadsForApply(g, sys.shared, op);
    var ended := RunToDone(g, s0, begun, t);
    var done := ended[|ended| - 1];
    var outside := sys.(shared := done.shared, log := sys.log + [op],
                        threads := sys.threads[t := Outside(op, ResultOf(g, sys.shared, op), |sys.log|)]);
    assert outside.threads == done.threads[t := Outside(op, ResultOf(g, sys.shared, op), |sys.log|)];
    assert Release(done, outside, t);
    Extended(g, s0, ended, outside, t);
    more := ended + [outside];
    MovesOn(trace, begun, ended, t);
    MovesOne(ended, outside, t);
    MovesOn(trace, ended, more, t);
  }
}
