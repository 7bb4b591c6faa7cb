// The driver's target, which the dispatch log line reads after the unlock
// (src/server/ride_service.c, lines 63-66): whose target that is.
module LateReads {
  import opened GridMap
  import opened Fleet
  import opened FleetInvariants
  import opened FleetRuns
  import opened CriticalSections
  import opened Locking

  // Section j of the log assigned slot k.
  predicate Chose(g: Grid, s0: FleetState, log: seq<Op>, j: nat, k: int)
    requires WellFormed(s0) && j < |log|
  {
    log[j].RideOp? && Choose(Run(g, s0, log[..j]), IsVip(log[j].client)) == k
  }

  // The last of the first n sections that assigned slot k, or -1.
  function LastChooser(g: Grid, s0: FleetState, log: seq<Op>, n: nat, k: int): (j: int)
    requires WellFormed(s0) && n <= |log|
    ensures -1 <= j < n && (j != -1 ==> Chose(g, s0, log, j, k))
    ensures forall i: nat :: j < i < n ==> !Chose(g, s0, log, i, k)
  {
    if n == 0 then -1 else if Chose(g, s0, log, n - 1, k) then n - 1 else LastChooser(g, s0, log, n - 1, k)
  }

  lemma TickKeepsTarget(g: Grid, d: Driver, r: Rolls)
    ensures TickDriver(g, d, r).targetLat == d.targetLat && TickDriver(g, d, r).targetLon == d.targetLon
  {}

  // Only a ride request that chooses the slot changes its target, and then to its draw.
  lemma OnlyChoosersSetTargets(g: Grid, s: FleetState, op: Op, k: int)
    requires WellFormed(s) && 0 <= k < MAX_DRIVERS
    ensures var d, d' := s.drivers[k], Apply(g, s, op).drivers[k];
            if op.RideOp? && Choose(s, IsVip(op.client)) == k then d'.targetLat == op.rLat % 90 && d'.targetLon == op.rLon % 180
            else d'.targetLat == d.targetLat && d'.targetLon == d.targetLon
  {
    if op.TickOp? {
      TickKeepsTarget(g, s.drivers[k], op.rolls[k]);
    }
  }

  // Over a serial run the target of a slot is the draw of the last request that chose it.
  lemma {:induction false} TargetIsLastDraw(g: Grid, s0: FleetState, log: seq<Op>, n: nat, k: int)
    requires WellFormed(s0) && n <= |log| && 0 <= k < MAX_DRIVERS
    ensures var j, d := LastChooser(g, s0, log, n, k), Run(g, s0, log[..n]).drivers[k];
            if j == -1 then d.targetLat == s0.drivers[k].targetLat && d.targetLon == s0.drivers[k].targetLon
            else d.targetLat == log[j].rLat % 90 && d.targetLon == log[j].rLon % 180
  {
    if n > 0 {
      TargetIsLastDraw(g, s0, log, n - 1, k);
      assert log[..n][..n - 1] == log[..n - 1];
      OnlyChoosersSetTargets(g, Run(g, s0, log[..n - 1]), log[n - 1], k);
    }
  }

  // ---------------------------------------------------------------------------
  // Reads at any moment
  // ---------------------------------------------------------------------------

  // The section under way has passed its write number `at` to slot k.
  predicate WrittenInside(sys: System, k: int, at: nat) {
    0 <= sys.holder < |sys.threads| && sys.threads[sys.holder].Inside? && Wrote(sys.threads[sys.holder].pc, k, at)
  }

  // The section whose draw a read of slot k finds in the field of write number `at`: the
  // one under way if it has written there, otherwise the last finished one that chose k.
  function Source(g: Grid, s0: FleetState, sys: System, k: int, at: nat): (j: int)
    requires WellFormed(s0)
    ensures -1 <= j < |sys.log| || (j == -1 && sys.log == [])
  {
    if sys.log != [] && WrittenInside(sys, k, at) then |sys.log| - 1
    else LastChooser(g, s0, sys.log, |Finished(sys)|, k)
  }

  lemma SourceChose(g: Grid, s0: FleetState, sys: System, k: int, at: nat)
    requires WellFormed(s0) && Serial(g, s0, sys) && 0 <= k < MAX_DRIVERS && at <= LON_WRITE
    ensures var j := Source(g, s0, sys, k, at); j != -1 ==> Chose(g, s0, sys.log, j, k)
  {
    if sys.log != [] && WrittenInside(sys, k, at) {
      var op, pc := sys.threads[sys.holder].op, sys.threads[sys.holder].pc;
      var base := Run(g, s0, sys.log[..|sys.log| - 1]);
      assert Heading(g, op, sys.shared, pc).1 == Chosen(k) == ResultOf(g, base, op);
    }
  }

  // The fields are those of the finished sections, but for what the one under way has
  // written; and that one is the last in the log.
  lemma SharedTargets(g: Grid, s0: FleetState, sys: System, k: int)
    requires WellFormed(s0) && Serial(g, s0, sys) && 0 <= k < MAX_DRIVERS
    ensures var d, was := sys.shared.drivers[k], Run(g, s0, sys.log[..|Finished(sys)|]).drivers[k];
            && (WrittenInside(sys, k, LAT_WRITE) ==>
                  sys.log != [] && sys.log[|sys.log| - 1].RideOp? && d.targetLat == sys.log[|sys.log| - 1].rLat % 90)
            && (WrittenInside(sys, k, LON_WRITE) ==>
                  sys.log != [] && sys.log[|sys.log| - 1].RideOp? && d.targetLon == sys.log[|sys.log| - 1].rLon % 180)
            && (!WrittenInside(sys, k, LAT_WRITE) ==> d.targetLat == was.targetLat)
            && (!WrittenInside(sys, k, LON_WRITE) ==> d.targetLon == was.targetLon)
  {
    var n := |Finished(sys)|;
    if sys.holder == FREE {
      assert sys.log[..n] == sys.log;
    } else {
      assert TargetsHeld(Run(g, s0, sys.log[..n]), sys.threads[sys.holder].op, sys.shared, sys.threads[sys.holder].pc);
    }
  }

  // What a read finds, whoever is inside: the draws of the two sources.
  lemma ReadFindsSources(g: Grid, s0: FleetState, sys: System, k: int)
    requires WellFormed(s0) && Serial(g, s0, sys) && 0 <= k < MAX_DRIVERS
    ensures var lat, lon := Source(g, s0, sys, k, LAT_WRITE), Source(g, s0, sys, k, LON_WRITE);
            var d := sys.shared.drivers[k];
            && (lat != -1 ==> Chose(g, s0, sys.log, lat, k) && d.targetLat == sys.log[lat].rLat % 90)
            && (lon != -1 ==> Chose(g, s0, sys.log, lon, k) && d.targetLon == sys.log[lon].rLon % 180)
  {
    TargetIsLastDraw(g, s0, sys.log, |Finished(sys)|, k);
    SourceChose(g, s0, sys, k, LAT_WRITE);
    SourceChose(g, s0, sys, k, LON_WRITE);
    SharedTargets(g, s0, sys, k);
  }

  // The section under way has written the one half of slot k's target and not the other.
  predicate BetweenWrites(sys: System, k: int) {
    WrittenInside(sys, k, LAT_WRITE) && !WrittenInside(sys, k, LON_WRITE)
  }

  // ---------------------------------------------------------------------------
  // From one moment to a later one
  // ---------------------------------------------------------------------------

  predicate StandsAt(sys: System, pc: Pc) {
    0 <= sys.holder < |sys.threads| && sys.threads[sys.holder].Inside? && sys.threads[sys.holder].pc == pc
  }

  // The transition from a to b is the write number `at` to slot k.
  predicate FieldWritten(a: System, b: System, k: int, at: nat) {
    StandsAt(a, Write(k, at)) && StandsAt(b, Write(k, at + 1))
  }

  // How often the field is written between two positions of a trace.
  function Writes(trace: seq<System>, k: int, at: nat, lo: nat, hi: nat): nat
    requires lo <= hi < |trace|
  {
    if lo == hi then 0
    else Writes(trace, k, at, lo, hi - 1) + if FieldWritten(trace[hi - 1], trace[hi], k, at) then 1 else 0
  }

  lemma {:induction false} LastChooserOfPrefix(g: Grid, s0: FleetState, log: seq<Op>, more: seq<Op>, n: nat, k: int)
    requires WellFormed(s0) && log <= more && n <= |log|
    ensures LastChooser(g, s0, log, n, k) == LastChooser(g, s0, more, n, k)
  {
    if n > 0 {
      assert log[..n - 1] == more[..n - 1];
      LastChooserOfPrefix(g, s0, log, more, n - 1, k);
    }
  }

  lemma MicroWrites(g: Grid, op: Op, s: FleetState, pc: Pc, k: int, at: nat)
    requires WellFormed(s) && PcFits(op, s, pc) && !pc.Done? && k >= 0 && at <= LON_WRITE
    ensures var pc' := Micro(g, op, s, pc).1;
            && (Wrote(pc', k, at) <==> Wrote(pc, k, at) || pc == Write(k, at))
            && (pc == Write(k, at) ==> pc' == Write(k, at + 1))
  {}

  lemma AcquireKeepsSource(g: Grid, s0: FleetState, a: System, b: System, t: int, k: int, at: nat)
    requires WellFormed(s0) && 0 <= t < |a.threads| && Acquire(a, b, t)
    ensures a.log <= b.log && Source(g, s0, b, k, at) == Source(g, s0, a, k, at) && !FieldWritten(a, b, k, at)
  {
    LastChooserOfPrefix(g, s0, a.log, b.log, |a.log|, k);
  }

  lemma StepSetsSource(g: Grid, s0: FleetState, a: System, b: System, t: int, k: int, at: nat)
    requires WellFormed(s0) && 0 <= t < |a.threads| && Step(g, a, b, t) && a.holder == t && a.log != []
    requires k >= 0 && at <= LON_WRITE
    ensures a.log == b.log
    ensures if FieldWritten(a, b, k, at) then Source(g, s0, a, k, at) < Source(g, s0, b, k, at) == |b.log| - 1
            else Source(g, s0, b, k, at) == Source(g, s0, a, k, at)
  {
    MicroWrites(g, a.threads[t].op, a.shared, a.threads[t].pc, k, at);
  }

  // A section that is done has written to the slot it chose and to no other.
  lemma DoneWroteChosen(g: Grid, s0: FleetState, sys: System, k: int, at: nat)
    requires WellFormed(s0) && Serial(g, s0, sys) && sys.holder != FREE && sys.threads[sys.holder].pc.Done? && k >= 0
    ensures sys.log != [] && (Wrote(sys.threads[sys.holder].pc, k, at) <==> Chose(g, s0, sys.log, |sys.log| - 1, k))
  {
    hide GoodResult, SlotsStay, TouchesNew, TargetsHeld, Apply, Run, Choose;
    var op, pc := sys.threads[sys.holder].op, sys.threads[sys.holder].pc;
    assert Heading(g, op, sys.shared, pc).1 == ResultOf(g, Run(g, s0, sys.log[..|sys.log| - 1]), op);
  }

  lemma ReleaseKeepsSource(g: Grid, s0: FleetState, a: System, b: System, t: int, k: int, at: nat)
    requires WellFormed(s0) && 0 <= t < |a.threads| && Serial(g, s0, a) && Release(a, b, t) && k >= 0
    ensures a.log == b.log && Source(g, s0, b, k, at) == Source(g, s0, a, k, at) && !FieldWritten(a, b, k, at)
  {
    assert a.holder == t;
    DoneWroteChosen(g, s0, a, k, at);
    hide Serial, Chose, Wrote;
    var n := |a.log| - 1;
    assert b.log == a.log && Finished(b) == b.log && |Finished(a)| == n;
    assert LastChooser(g, s0, b.log, n + 1, k) == if Chose(g, s0, b.log, n, k) then n else LastChooser(g, s0, b.log, n, k);
  }

  // What a field's source is after one more transition: the section that writes the field,
  // if that is what happens, and what it was if not.
  lemma NextSource(g: Grid, s0: FleetState, a: System, b: System, k: int, at: nat)
    requires WellFormed(s0) && Serial(g, s0, a) && Next(g, a, b) && k >= 0 && at <= LON_WRITE
    ensures a.log <= b.log
    ensures if FieldWritten(a, b, k, at) then b.log == a.log && Source(g, s0, a, k, at) < Source(g, s0, b, k, at) == |b.log| - 1
            else Source(g, s0, b, k, at) == Source(g, s0, a, k, at)
  {
    hide Source, GoodResult;
    var t :| 0 <= t < |a.threads| && NextBy(g, a, b, t);
    if Acquire(a, b, t) {
      AcquireKeepsSource(g, s0, a, b, t, k, at);
    } else if Step(g, a, b, t) {
      assert HolderFits(g, s0, a) && a.log != [];
      StepSetsSource(g, s0, a, b, t, k, at);
    } else if Release(a, b, t) {
      ReleaseKeepsSource(g, s0, a, b, t, k, at);
    } else {
      OutsideKeepsSource(g, s0, a, b, t, k, at);
    }
  }

  lemma OutsideKeepsSource(g: Grid, s0: FleetState, a: System, b: System, t: int, k: int, at: nat)
    requires WellFormed(s0) && 0 <= t < |a.threads| && (Report(a, b, t) || exists op :: Request(a, b, t, op))
    requires a.holder != t
    ensures a.log == b.log && Source(g, s0, b, k, at) == Source(g, s0, a, k, at) && !FieldWritten(a, b, k, at)
  {}

  // Over a trace the log only grows, and the source of a field moves on exactly when the
  // field is written.
  lemma {:induction false} SourceOverTrace(g: Grid, s0: FleetState, trace: seq<System>, k: int, at: nat, lo: nat, hi: nat)
    requires WellFormed(s0) && Execution(g, s0, trace) && lo <= hi < |trace| && k >= 0 && at <= LON_WRITE
    ensures trace[lo].log <= trace[hi].log
    ensures Source(g, s0, trace[lo], k, at) <= Source(g, s0, trace[hi], k, at)
    ensures Source(g, s0, trace[lo], k, at) == Source(g, s0, trace[hi], k, at) <==> Writes(trace, k, at, lo, hi) == 0
    decreases hi
  {
    hide Source, Serial, Next, FieldWritten;
    if lo < hi {
      SourceOverTrace(g, s0, trace, k, at, lo, hi - 1);
      ExecutionIsSerial(g, s0, trace, hi - 1);
      assert Next(g, trace[hi - 1], trace[hi]);
      NextSource(g, s0, trace[hi - 1], trace[hi], k, at);
    }
  }

  // While a section stands between its two writes, nothing but the second can change that.
  lemma SecondWriteIsNext(g: Grid, s0: FleetState, a: System, b: System, k: int)
    requires WellFormed(s0) && Serial(g, s0, a) && Next(g, a, b) && BetweenWrites(a, k) && k >= 0
    ensures b.log == a.log && (FieldWritten(a, b, k, LON_WRITE) || BetweenWrites(b, k))
  {
    hide HolderFits, GoodResult;
    var t :| 0 <= t < |a.threads| && NextBy(g, a, b, t);
    if Step(g, a, b, t) {
      MicroWrites(g, a.threads[t].op, a.shared, a.threads[t].pc, k, LON_WRITE);
    }
  }

  lemma SourcesInOneState(g: Grid, s0: FleetState, trace: seq<System>, k: int, i: nat)
    requires WellFormed(s0) && Execution(g, s0, trace) && i < |trace| && k >= 0
    ensures var lat, lon := Source(g, s0, trace[i], k, LAT_WRITE), Source(g, s0, trace[i], k, LON_WRITE);
            lon <= lat && (lon != lat <==> BetweenWrites(trace[i], k)) && (BetweenWrites(trace[i], k) ==> lat == |trace[i].log| - 1)
  {
    ExecutionIsSerial(g, s0, trace, i);
  }

  // From between the two writes of a section on: before the second write the longitude is
  // still the older ride's, after it this section's, and after one more a later ride's.
  lemma {:induction false} LonAfterBetween(g: Grid, s0: FleetState, trace: seq<System>, k: int, lo: nat, hi: nat)
    requires WellFormed(s0) && Execution(g, s0, trace) && lo <= hi < |trace| && k >= 0 && BetweenWrites(trace[lo], k)
    ensures var n, lon, c := |trace[lo].log| - 1, Source(g, s0, trace[hi], k, LON_WRITE), Writes(trace, k, LON_WRITE, lo, hi);
            && (c == 0 ==> lon < n && BetweenWrites(trace[hi], k) && trace[hi].log == trace[lo].log)
            && (c == 1 ==> lon == n)
            && (c > 1 ==> lon > n)
    decreases hi
  {
    hide Source, Serial, Next, FieldWritten, BetweenWrites;
    if lo == hi {
      SourcesInOneState(g, s0, trace, k, lo);
    } else {
      LonAfterBetween(g, s0, trace, k, lo, hi - 1);
      ExecutionIsSerial(g, s0, trace, hi - 1);
      assert Next(g, trace[hi - 1], trace[hi]);
      NextSource(g, s0, trace[hi - 1], trace[hi], k, LON_WRITE);
      if Writes(trace, k, LON_WRITE, lo, hi - 1) == 0 {
        SecondWriteIsNext(g, s0, trace[hi - 1], trace[hi], k);
      }
    }
  }

  // ---------------------------------------------------------------------------
  // The log line
  // ---------------------------------------------------------------------------

  // All the way from position lo to position hi thread t has unlocked, having assigned a
  // driver, and is still to write its log line.
  ghost predicate Lingers(g: Grid, s0: FleetState, trace: seq<System>, t: int, lo: nat, hi: nat) {
    && WellFormed(s0) && Execution(g, s0, trace) && lo <= hi < |trace|
    && 0 <= t < |trace[lo].threads| && trace[lo].threads[t].Outside?
    && trace[lo].threads[t].result.Chosen? && trace[lo].threads[t].result.index != -1
    && forall m :: lo <= m <= hi ==> t < |trace[m].threads| && trace[m].threads[t] == trace[lo].threads[t]
  }

  ghost predicate StillToLog(g: Grid, s0: FleetState, trace: seq<System>, t: int) {
    trace != [] && Lingers(g, s0, trace, t, |trace| - 1, |trace| - 1)
  }

  // The section's own place in the log, at every position on the way, and what it chose.
  lemma OwnSection(g: Grid, s0: FleetState, trace: seq<System>, t: int, lo: nat, hi: nat, i: nat)
    requires Lingers(g, s0, trace, t, lo, hi) && lo <= i <= hi
    ensures var sys, op, k, at := trace[i], trace[lo].threads[t].op, trace[lo].threads[t].result.index, trace[lo].threads[t].at;
            && WellFormed(sys.shared) && at < |sys.log| && sys.log[at] == op && op.RideOp? && 0 <= k < MAX_DRIVERS
            && Chose(g, s0, sys.log, at, k)
            && at <= LastChooser(g, s0, sys.log, |Finished(sys)|, k)
  {
    var sys := trace[i];
    ExecutionIsSerial(g, s0, trace, i);
    assert sys.threads[t] == trace[lo].threads[t];
    assert GoodResult(g, s0, sys, sys.threads[t].op, sys.threads[t].result, sys.threads[t].at);
    assert Chose(g, s0, sys.log, sys.threads[t].at, sys.threads[t].result.index);
  }

  // The two halves loaded at positions i (latitude) and j (longitude) are one ride's: no
  // request writes the half that is loaded later between the loads, and the earlier load
  // does not fall between the two writes of a request; unless it is the latitude that is
  // loaded then, when exactly that request's other write must come before the second load.
  predicate OneRidesHalves(trace: seq<System>, k: int, i: nat, j: nat)
    requires i < |trace| && j < |trace|
  {
    if j <= i then !BetweenWrites(trace[j], k) && Writes(trace, k, LAT_WRITE, j, i) == 0
    else Writes(trace, k, LON_WRITE, i, j) == if BetweenWrites(trace[i], k) then 1 else 0
  }

  lemma HalvesAgreeIff(g: Grid, s0: FleetState, trace: seq<System>, k: int, i: nat, j: nat)
    requires WellFormed(s0) && Execution(g, s0, trace) && i < |trace| && j < |trace| && k >= 0
    ensures Source(g, s0, trace[i], k, LAT_WRITE) == Source(g, s0, trace[j], k, LON_WRITE) <==> OneRidesHalves(trace, k, i, j)
  {
    SourcesInOneState(g, s0, trace, k, i);
    SourcesInOneState(g, s0, trace, k, j);
    hide Source, BetweenWrites;
    if j <= i {
      SourceOverTrace(g, s0, trace, k, LAT_WRITE, j, i);
    } else if BetweenWrites(trace[i], k) {
      LonAfterBetween(g, s0, trace, k, i, j);
    } else {
      SourceOverTrace(g, s0, trace, k, LON_WRITE, i, j);
    }
  }

  // The target that the log line prints: its latitude is loaded in one state after the
  // unlock, its longitude in another, before or after, whoever is inside by then. Each is
  // the draw of the last section in the log that chose the driver and has written it. So
  // the pair is the section's own if and only if those draws are; and it is one ride's if
  // and only if OneRidesHalves.
  lemma LateTargetRead(g: Grid, s0: FleetState, trace: seq<System>, t: int, lo: nat, hi: nat, i: nat, j: nat)
    requires Lingers(g, s0, trace, t, lo, hi) && lo <= i <= hi && lo <= j <= hi
    ensures var a, b := trace[i], trace[j];
            var op, k, at := trace[lo].threads[t].op, trace[lo].threads[t].result.index, trace[lo].threads[t].at;
            && op.RideOp? && 0 <= k < MAX_DRIVERS && WellFormed(a.shared) && WellFormed(b.shared)
            && var lat, lon := Source(g, s0, a, k, LAT_WRITE), Source(g, s0, b, k, LON_WRITE);
               && at <= lat < |a.log| && Chose(g, s0, a.log, lat, k) && a.shared.drivers[k].targetLat == a.log[lat].rLat % 90
               && at <= lon < |b.log| && Chose(g, s0, b.log, lon, k) && b.shared.drivers[k].targetLon == b.log[lon].rLon % 180
               && (a.shared.drivers[k].targetLat == op.rLat % 90 && b.shared.drivers[k].targetLon == op.rLon % 180
                   <==> a.log[lat].rLat % 90 == op.rLat % 90 && b.log[lon].rLon % 180 == op.rLon % 180)
               && (lat == lon <==> OneRidesHalves(trace, k, i, j))
  {
    var k := trace[lo].threads[t].result.index;
    OwnSection(g, s0, trace, t, lo, hi, i);
    OwnSection(g, s0, trace, t, lo, hi, j);
    ExecutionIsSerial(g, s0, trace, i);
    ExecutionIsSerial(g, s0, trace, j);
    ReadFindsSources(g, s0, trace[i], k);
    ReadFindsSources(g, s0, trace[j], k);
    hide Serial, OneRidesHalves;
    HalvesAgreeIff(g, s0, trace, k, i, j);
  }

  // Whatever is loaded of the other fields that the log line and the reply print, and
  // whenever, is what the section itself saw.
  lemma LoadsSeeTheSection(g: Grid, s0: FleetState, trace: seq<System>, t: int, lo: nat, hi: nat, i: nat)
    requires Lingers(g, s0, trace, t, lo, hi) && lo <= i <= hi
    ensures var k, at := trace[lo].threads[t].result.index, trace[lo].threads[t].at;
            && at < |trace[lo].log| && 0 <= k < MAX_DRIVERS && WellFormed(trace[i].shared)
            && var seen, sys := Run(g, s0, trace[lo].log[..at]), trace[i].shared;
               sys.drivers[k].id == seen.drivers[k].id && sys.drivers[k].rating == seen.drivers[k].rating && sys.mode == seen.mode
  {
    OwnSection(g, s0, trace, t, lo, hi, lo);
    OwnSection(g, s0, trace, t, lo, hi, i);
    assert trace[i].threads[t] == trace[lo].threads[t];
    SourceOverTrace(g, s0, trace, 0, LAT_WRITE, lo, i);
    hide Execution, Chose, SlotsStay;
    LateReadsAreStable(g, s0, trace, t, i);
    assert trace[i].log[..trace[lo].threads[t].at] == trace[lo].log[..trace[lo].threads[t].at];
  }

  // In terms of whole sections: with the mutex free at both loads, the halves are one
  // ride's if and only if no section that took the lock between them chose the driver.
  lemma FreeLoadsAgreeIff(g: Grid, s0: FleetState, trace: seq<System>, k: int, i: nat, j: nat)
    requires WellFormed(s0) && Execution(g, s0, trace) && i < |trace| && j < |trace| && k >= 0
    requires trace[i].holder == FREE && trace[j].holder == FREE
    ensures var first, last := if i <= j then trace[i].log else trace[j].log, if i <= j then trace[j].log else trace[i].log;
            && first <= last
            && (Source(g, s0, trace[i], k, LAT_WRITE) == Source(g, s0, trace[j], k, LON_WRITE)
                <==> forall m: nat :: |first| <= m < |last| ==> !Chose(g, s0, last, m, k))
  {
    var lo, hi := if i <= j then i else j, if i <= j then j else i;
    SourceOverTrace(g, s0, trace, k, LAT_WRITE, lo, hi);
    LastChooserOfPrefix(g, s0, trace[lo].log, trace[hi].log, |trace[lo].log|, k);
    ChoosersAgreeIff(g, s0, trace[hi].log, |trace[lo].log|, |trace[hi].log|, k);
  }

  lemma {:induction false} ChoosersAgreeIff(g: Grid, s0: FleetState, log: seq<Op>, m: nat, n: nat, k: int)
    requires WellFormed(s0) && m <= n <= |log|
    ensures LastChooser(g, s0, log, m, k) <= LastChooser(g, s0, log, n, k)
    ensures LastChooser(g, s0, log, m, k) == LastChooser(g, s0, log, n, k) <==> forall i: nat :: m <= i < n ==> !Chose(g, s0, log, i, k)
    decreases n
  {
    if m < n {
      ChoosersAgreeIff(g, s0, log, m, n - 1, k);
    }
  }

  // ---------------------------------------------------------------------------
  // A late read that finds another ride's target, and one that finds nobody's
  // ---------------------------------------------------------------------------

  const QUICK: Rolls := Rolls(0, 50, 1, 1)

  function OneDriver(): FleetState {
    InitialFleet(1, 0, [StartRolls(0, 0, 0)])
  }

  function QuickTick(): TickRolls {
    seq(MAX_DRIVERS, _ => QUICK)
  }

  // The driver's first ride ends by the dice, and it is available again.
  lemma FirstRideEnds(g: Grid)
    requires CitySized(g) && !IsObstacle(g, Cell(0, 0))
    ensures Choose(OneDriver(), false) == 0
    ensures var s2 := Tick(g, Ride(OneDriver(), 20, 1, 1), QuickTick());
            s2.count == 1 && s2.mode == 0 && Choose(s2, false) == 0
  {
    var s1 := Ride(OneDriver(), 20, 1, 1);
    var s2 := Tick(g, s1, QuickTick());
    OnlyDriverIsChosen(OneDriver(), false);
    var d1 := s1.drivers[0];
    assert d1 == Assigned(StartDriver(0, StartRolls(0, 0, 0)), 1, 1);
    assert BeforeMove(g, d1, QUICK) == d1.(hasTarget := false, isAvailable := true, lat := 1, lon := 1);
    assert Available(s2.drivers[0]) && s2.drivers[0].fuel == 9 && s2.drivers[0].lat == 1 && s2.drivers[0].lon == 1;
    OnlyDriverIsChosen(s2, false);
  }

  // Three threads: the first has unlocked and not logged when the second has ticked.
  lemma FirstRideUnlogged(g: Grid) returns (trace: seq<System>)
    requires CitySized(g) && !IsObstacle(g, Cell(0, 0))
    ensures Execution(g, OneDriver(), trace)
    ensures var s1, op, tick := Ride(OneDriver(), 20, 1, 1), RideOp(20, 1, 1), TickOp(QuickTick());
            trace[|trace| - 1] == System(Tick(g, s1, QuickTick()), FREE, [Outside(op, Chosen(0), 0), Outside(tick, Nothing, 1), Idle], [op, tick])
  {
    var op, tick := RideOp(20, 1, 1), TickOp(QuickTick());
    FirstRideEnds(g);
    trace := [System(OneDriver(), FREE, [Idle, Idle, Idle], [])];
    trace := AnySectionCanRun(g, OneDriver(), trace, 0, op);
    trace := AnySectionCanRun(g, OneDriver(), trace, 1, tick);
    assert [] + [op] == [op] && [op] + [tick] == [op, tick];
  }

  lemma LateTargetReadIsNotStable(g: Grid) returns (trace: seq<System>)
    requires CitySized(g) && !IsObstacle(g, Cell(0, 0))
    ensures StillToLog(g, OneDriver(), trace, 0)
    ensures var sys := trace[|trace| - 1];
            && sys.holder == FREE && sys.threads[0] == Outside(RideOp(20, 1, 1), Chosen(0), 0)
            && WellFormed(sys.shared) && sys.shared.drivers[0].targetLat == sys.shared.drivers[0].targetLon == 2
  {
    FirstRideEnds(g);
    trace := FirstRideUnlogged(g);
    trace := AnySectionCanRun(g, OneDriver(), trace, 2, RideOp(20, 2, 2));
  }

  // A request on its way to choosing slot k can be stopped between its two target writes.
  lemma {:induction false} RunBetweenWrites(g: Grid, s0: FleetState, trace: seq<System>, t: int, k: int) returns (more: seq<System>)
    requires WellFormed(s0) && Execution(g, s0, trace) && k != -1
    requires InsideAt(trace[|trace| - 1], t)
    requires var sys := trace[|trace| - 1];
             var op, pc := sys.threads[t].op, sys.threads[t].pc;
             && op.RideOp? && (pc.RideBegin? || pc.Scan? || (pc.Write? && pc.k <= LON_WRITE))
             && Heading(g, op, sys.shared, pc).1 == Chosen(k)
    ensures Execution(g, s0, more)
    ensures var sys, last := trace[|trace| - 1], more[|more| - 1];
            last == sys.(shared := last.shared, threads := sys.threads[t := Inside(sys.threads[t].op, Write(k, LON_WRITE))])
    decreases var sys := trace[|trace| - 1]; Remaining(sys.threads[t].op, sys.shared, sys.threads[t].pc)
  {
    var sys := trace[|trace| - 1];
    var op, pc := sys.threads[t].op, sys.threads[t].pc;
    if pc == Write(k, LON_WRITE) {
      more := trace;
    } else {
      var b := StepInside(g, s0, trace, t);
      more := RunBetweenWrites(g, s0, trace + [b], t, k);
    }
  }

  // The driver's second request stands between its two target writes.
  lemma SecondRideHalfWritten(g: Grid) returns (trace: seq<System>)
    requires CitySized(g) && !IsObstacle(g, Cell(0, 0))
    ensures Execution(g, OneDriver(), trace)
    ensures var sys, first, tick, second := trace[|trace| - 1], RideOp(20, 1, 1), TickOp(QuickTick()), RideOp(20, 2, 2);
            && sys.threads == [Outside(first, Chosen(0), 0), Outside(tick, Nothing, 1), Inside(second, Write(0, LON_WRITE))]
            && sys.log == [first, tick, second] && sys.holder == 2
  {
    var second := RideOp(20, 2, 2);
    FirstRideEnds(g);
    trace := FirstRideUnlogged(g);
    var s2, log := trace[|trace| - 1].shared, trace[|trace| - 1].log;
    trace := AnySectionCanBegin(g, OneDriver(), trace, 2, second);
    StartHeadsForApply(g, s2, second);
    trace := RunBetweenWrites(g, OneDriver(), trace, 2, 0);
    assert log + [second] == [RideOp(20, 1, 1), TickOp(QuickTick()), second];
  }

  // The first ride went to (1, 1) and the second goes to (2, 2); the log line reads (2, 1).
  lemma TornTargetRead(g: Grid) returns (trace: seq<System>)
    requires CitySized(g) && !IsObstacle(g, Cell(0, 0))
    ensures StillToLog(g, OneDriver(), trace, 0)
    ensures var sys := trace[|trace| - 1];
            && sys.threads[0] == Outside(RideOp(20, 1, 1), Chosen(0), 0) && |sys.log| == 3 && sys.log[2] == RideOp(20, 2, 2)
            && WellFormed(sys.shared) && sys.shared.drivers[0].targetLat == 2 && sys.shared.drivers[0].targetLon == 1
  {
    trace := SecondRideHalfWritten(g);
    LateTargetRead(g, OneDriver(), trace, 0, |trace| - 1, |trace| - 1, |trace| - 1, |trace| - 1);
  }

  // Without a section under way at either load: the latitude is loaded before the second
  // request, the longitude after it. The line reads (1, 2), with the older latitude.
  lemma MixedTargetRead(g: Grid) returns (trace: seq<System>, i: nat, j: nat)
    requires CitySized(g) && !IsObstacle(g, Cell(0, 0))
    ensures i < j && Lingers(g, OneDriver(), trace, 0, i, j)
    ensures trace[i].threads[0] == Outside(RideOp(20, 1, 1), Chosen(0), 0)
    ensures trace[i].holder == trace[j].holder == FREE && !BetweenWrites(trace[i], 0) && !BetweenWrites(trace[j], 0)
    ensures WellFormed(trace[i].shared) && trace[i].shared.drivers[0].targetLat == 1
    ensures WellFormed(trace[j].shared) && trace[j].shared.drivers[0].targetLon == 2
  {
    FirstRideEnds(g);
    var before := FirstRideUnlogged(g);
    trace := AnySectionCanRun(g, OneDriver(), before, 2, RideOp(20, 2, 2));
    i, j := |before| - 1, |trace| - 1;
    assert trace[i] == before[i];
    forall m | i <= m <= j
      ensures 0 < |trace[m].threads| && trace[m].threads[0] == before[i].threads[0]
    {
      assert OthersStay(before[i], trace[m], 2);
    }
    TickKeepsTarget(g, Ride(OneDriver(), 20, 1, 1).drivers[0], QUICK);
  }
}
