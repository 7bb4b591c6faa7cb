// The four critical sections as sequences of small steps on the shared state, each step
// touching one field or one driver (ride_service.c lines 17-57, coordinator.c lines
// 203-210, resource_service.c lines 68-84, map_monitor.c lines 34-122). Run to its end
// without interference, a section has the effect that module Fleet gives it.
module CriticalSections {
  import opened GridMap
  import opened Fleet
  import opened FleetRuns

  datatype Result = Chosen(index: int) | Verdict(spam: bool) | Nothing

  // Where a thread stands inside its section, with its local variables.
  datatype Pc =
    | RideBegin
    | Scan(i: int, best: int, minSq: int, vipOnly: bool)
    | Write(best: int, k: nat)
    | JoinBegin
    | JoinWrite(idx: int, k: nat)
    | RateBegin
    | RateBump
    | RateStamp
    | RateReset
    | RateVerdict
    | TickAt(i: int, stage: nat, cell: Cell)
    | Done(result: Result)

  const ASSIGN_WRITES: nat := 9
  const JOIN_WRITES: nat := 3
  const TICK_STAGES: nat := 5

  function StartPc(op: Op): Pc {
    match op
    case RideOp(_, _, _) => RideBegin
    case JoinOp(_) => JoinBegin
    case RateOp(_, _) => RateBegin
    case TickOp(_) => TickAt(0, 0, Cell(0, 0))
  }

  predicate PcFits(op: Op, s: FleetState, pc: Pc)
    requires WellFormed(s)
  {
    match pc
    case RideBegin => op.RideOp?
    case Scan(i, best, _, _) => op.RideOp? && 0 <= i <= s.count && -1 <= best < s.count
    case Write(best, k) => op.RideOp? && 0 <= best < s.count && k <= ASSIGN_WRITES
    case JoinBegin => op.JoinOp?
    case JoinWrite(idx, k) => op.JoinOp? && 0 <= idx < MAX_DRIVERS && k <= JOIN_WRITES
    case TickAt(i, stage, _) => op.TickOp? && 0 <= i <= s.count && stage < TICK_STAGES
    case Done(_) => true
    case _ => op.RateOp? && Limited(op.client)
  }

  // ---------------------------------------------------------------------------
  // The steps
  // ---------------------------------------------------------------------------

  function SetDriver(s: FleetState, i: int, d: Driver): (s': FleetState)
    requires WellFormed(s) && 0 <= i < MAX_DRIVERS
    ensures WellFormed(s')
  {
    s.(drivers := s.drivers[i := d])
  }

  // The k-th assignment of the ride request.
  function AssignWrite(s: FleetState, op: Op, best: int, k: nat): (s': FleetState)
    requires WellFormed(s) && op.RideOp? && 0 <= best < s.count
    ensures WellFormed(s') && s'.count == s.count
  {
    var d := s.drivers[best];
    match k
    case 0 => SetDriver(s, best, d.(isAvailable := false))
    case 1 => SetDriver(s, best, d.(rides := d.rides + 1))
    case 2 => SetDriver(s, best, d.(fuel := d.fuel - 1))
    case 3 => SetDriver(s, best, d.(hasTarget := true))
    case 4 => SetDriver(s, best, d.(targetLat := op.rLat % 90))
    case 5 => SetDriver(s, best, d.(targetLon := op.rLon % 180))
    case 6 => s.(handled := s.handled + 1)
    case 7 => s.(successes := s.successes + 1)
    case _ => s.(revenue := s.revenue + Fare(op.client))
  }

  function JoinWriteField(s: FleetState, op: Op, idx: int, k: nat): (s': FleetState)
    requires WellFormed(s) && op.JoinOp? && 0 <= idx < MAX_DRIVERS
    ensures WellFormed(s') && s'.count == s.count
  {
    var d := s.drivers[idx];
    match k
    case 0 => SetDriver(s, idx, d.(id := op.id))
    case 1 => SetDriver(s, idx, d.(isAvailable := true))
    case _ => SetDriver(s, idx, d.(fuel := FULL_TANK))
  }

  function TickStage(g: Grid, d: Driver, cell: Cell, r: Rolls, stage: nat): Driver {
    match stage
    case 0 => Respawned(g, d)
    case 1 => Travelled(d, r)
    case 2 => Refuelled(d)
    case 3 => Revived(d)
    case _ => Moved(g, d, cell, r)
  }

  // After a scan: the VIP scan falls back to the basic one, and no driver ends it.
  function ScanEnd(best: int, vipOnly: bool): Pc {
    if best != -1 then Write(best, 0)
    else if vipOnly then Scan(0, -1, Square(UNREACHED), false)
    else Done(Chosen(-1))
  }

  function Micro(g: Grid, op: Op, s: FleetState, pc: Pc): (r: (FleetState, Pc))
    requires WellFormed(s) && PcFits(op, s, pc)
    ensures WellFormed(r.0) && PcFits(op, r.0, r.1)
  {
    match pc
    case RideBegin => (s, Scan(0, -1, Square(UNREACHED), s.mode != 0 && IsVip(op.client)))
    case Scan(i, best, minSq, vipOnly) =>
      if i == s.count then (s, ScanEnd(best, vipOnly))
      else if Eligible(s.drivers[i], vipOnly) && DistSq(s.drivers[i]) < minSq
      then (s, Scan(i + 1, i, DistSq(s.drivers[i]), vipOnly))
      else (s, Scan(i + 1, best, minSq, vipOnly))
    case Write(best, k) =>
      if k == ASSIGN_WRITES then (s, Done(Chosen(best))) else (AssignWrite(s, op, best, k), Write(best, k + 1))
    case JoinBegin =>
      if s.count == MAX_DRIVERS then (s, Done(Nothing)) else (s.(count := s.count + 1), JoinWrite(s.count, 0))
    case JoinWrite(idx, k) =>
      if k == JOIN_WRITES then (s, Done(Nothing)) else (JoinWriteField(s, op, idx, k), JoinWrite(idx, k + 1))
    case RateBegin => (s, if s.lastSeen[op.client] == op.now then RateBump else RateStamp)
    case RateBump => (s.(reqCount := s.reqCount[op.client := s.reqCount[op.client] + 1]), RateVerdict)
    case RateStamp => (s.(lastSeen := s.lastSeen[op.client := op.now]), RateReset)
    case RateReset => (s.(reqCount := s.reqCount[op.client := 1]), RateVerdict)
    case RateVerdict => (s, Done(Verdict(Spam(s, op.client))))
    case TickAt(i, stage, cell) =>
      if i == s.count then (s, Done(Nothing))
      else
        var d := s.drivers[i];
        var cell' := if stage == 0 then CellOf(d.lat, d.lon) else cell;
        (SetDriver(s, i, TickStage(g, d, cell', op.rolls[i], stage)),
         if stage + 1 < TICK_STAGES then TickAt(i, stage + 1, cell') else TickAt(i + 1, 0, cell'))
    case Done(_) => (s, pc)
  }

  // ---------------------------------------------------------------------------
  // Where a section is heading
  // ---------------------------------------------------------------------------

  // The index a scan ends on from entry i.
  function ScanFrom(ds: seq<Driver>, n: int, i: int, best: int, minSq: int, vipOnly: bool): (k: int)
    requires 0 <= i <= n <= |ds| && -1 <= best < n
    ensures -1 <= k < n
    decreases n - i
  {
    if i == n then best
    else if Eligible(ds[i], vipOnly) && DistSq(ds[i]) < minSq then ScanFrom(ds, n, i + 1, i, DistSq(ds[i]), vipOnly)
    else ScanFrom(ds, n, i + 1, best, minSq, vipOnly)
  }

  function AssignRest(s: FleetState, op: Op, best: int, k: nat): (s': FleetState)
    requires WellFormed(s) && op.RideOp? && 0 <= best < s.count && k <= ASSIGN_WRITES
    ensures WellFormed(s')
    decreases ASSIGN_WRITES - k
  {
    if k == ASSIGN_WRITES then s else AssignRest(AssignWrite(s, op, best, k), op, best, k + 1)
  }

  function AssignChosen(s: FleetState, op: Op, best: int): (s': FleetState)
    requires WellFormed(s) && op.RideOp? && -1 <= best < s.count
    ensures WellFormed(s')
  {
    if best == -1 then s else AssignRest(s, op, best, 0)
  }

  function JoinRest(s: FleetState, op: Op, idx: int, k: nat): (s': FleetState)
    requires WellFormed(s) && op.JoinOp? && 0 <= idx < MAX_DRIVERS && k <= JOIN_WRITES
    ensures WellFormed(s')
    decreases JOIN_WRITES - k
  {
    if k == JOIN_WRITES then s else JoinRest(JoinWriteField(s, op, idx, k), op, idx, k + 1)
  }

  function StagesRest(g: Grid, d: Driver, cell: Cell, r: Rolls, stage: nat): Driver
    requires stage < TICK_STAGES
    decreases TICK_STAGES - stage
  {
    var cell' := if stage == 0 then CellOf(d.lat, d.lon) else cell;
    var d' := TickStage(g, d, cell', r, stage);
    if stage + 1 == TICK_STAGES then d' else StagesRest(g, d', cell', r, stage + 1)
  }

  function TickRest(g: Grid, s: FleetState, rolls: TickRolls, i: int, stage: nat, cell: Cell): (s': FleetState)
    requires WellFormed(s) && 0 <= i <= s.count && stage < TICK_STAGES
    ensures WellFormed(s')
  {
    s.(drivers := seq(MAX_DRIVERS, j requires 0 <= j < MAX_DRIVERS =>
                    if j < i || j >= s.count then s.drivers[j]
                    else if j == i then StagesRest(g, s.drivers[j], cell, rolls[j], stage)
                    else TickDriver(g, s.drivers[j], rolls[j])))
  }

  function ResultOf(g: Grid, s: FleetState, op: Op): Result
    requires WellFormed(s)
  {
    match op
    case RideOp(client, _, _) => Chosen(Choose(s, IsVip(client)))
    case RateOp(client, _) => Verdict(Spam(Apply(g, s, op), client))
    case _ => Nothing
  }

  function ChosenFrom(s: FleetState, pc: Pc): (k: int)
    requires WellFormed(s) && pc.Scan? && 0 <= pc.i <= s.count && -1 <= pc.best < s.count
    ensures -1 <= k < s.count
  {
    var k := ScanFrom(s.drivers, s.count, pc.i, pc.best, pc.minSq, pc.vipOnly);
    if k == -1 && pc.vipOnly then Nearest(s.drivers, s.count, false) else k
  }

  // The state and result the section will end with, if nothing interferes.
  function Heading(g: Grid, op: Op, s: FleetState, pc: Pc): (FleetState, Result)
    requires WellFormed(s) && PcFits(op, s, pc)
  {
    match pc
    case Scan(_, _, _, _) => (AssignChosen(s, op, ChosenFrom(s, pc)), Chosen(ChosenFrom(s, pc)))
    case Write(best, k) => (AssignRest(s, op, best, k), Chosen(best))
    case JoinWrite(idx, k) => (JoinRest(s, op, idx, k), Nothing)
    case RateBump =>
      var s' := s.(reqCount := s.reqCount[op.client := s.reqCount[op.client] + 1]);
      (s', Verdict(Spam(s', op.client)))
    case RateStamp =>
      var s' := s.(lastSeen := s.lastSeen[op.client := op.now], reqCount := s.reqCount[op.client := 1]);
      (s', Verdict(Spam(s', op.client)))
    case RateReset =>
      var s' := s.(reqCount := s.reqCount[op.client := 1]);
      (s', Verdict(Spam(s', op.client)))
    case RateVerdict => (s, Verdict(Spam(s, op.client)))
    case TickAt(i, stage, cell) => (TickRest(g, s, op.rolls, i, stage, cell), Nothing)
    case Done(result) => (s, result)
    case _ => (Apply(g, s, op), ResultOf(g, s, op))
  }

  function MinSqOf(ds: seq<Driver>, best: int): int
    requires -1 <= best < |ds|
  {
    if best == -1 then Square(UNREACHED) else DistSq(ds[best])
  }

  lemma {:induction false} ScanFromIsNearest(ds: seq<Driver>, n: nat, i: nat, vipOnly: bool)
    requires i <= n <= |ds|
    ensures ScanFrom(ds, n, i, Nearest(ds, i, vipOnly), MinSqOf(ds, Nearest(ds, i, vipOnly)), vipOnly) == Nearest(ds, n, vipOnly)
    decreases n - i
  {
    if i < n {
      ScanFromIsNearest(ds, n, i + 1, vipOnly);
    }
  }

  lemma FreshScanIsNearest(s: FleetState, vipOnly: bool)
    requires WellFormed(s)
    ensures ScanFrom(s.drivers, s.count, 0, -1, Square(UNREACHED), vipOnly) == Nearest(s.drivers, s.count, vipOnly)
  {
    ScanFromIsNearest(s.drivers, s.count, 0, vipOnly);
  }

  lemma FirstThreeWrites(s: FleetState, op: Op, best: int)
    requires WellFormed(s) && op.RideOp? && 0 <= best < s.count
    ensures var d := s.drivers[best];
            AssignRest(s, op, best, 0)
            == AssignRest(SetDriver(s, best, d.(isAvailable := false, rides := d.rides + 1, fuel := d.fuel - 1)), op, best, 3)
  {
    var s1 := AssignWrite(s, op, best, 0);
    var s2 := AssignWrite(s1, op, best, 1);
    var s3 := AssignWrite(s2, op, best, 2);
    assert AssignRest(s1, op, best, 1) == AssignRest(s2, op, best, 2) == AssignRest(s3, op, best, 3);
    var d := s.drivers[best];
    assert s3.drivers == s.drivers[best := d.(isAvailable := false, rides := d.rides + 1, fuel := d.fuel - 1)];
  }

  lemma NextThreeWrites(s: FleetState, op: Op, best: int)
    requires WellFormed(s) && op.RideOp? && 0 <= best < s.count
    ensures AssignRest(s, op, best, 3)
         == AssignRest(SetDriver(s, best, s.drivers[best].(hasTarget := true, targetLat := op.rLat % 90, targetLon := op.rLon % 180)), op, best, 6)
  {
    var s1 := AssignWrite(s, op, best, 3);
    var s2 := AssignWrite(s1, op, best, 4);
    var s3 := AssignWrite(s2, op, best, 5);
    assert AssignRest(s1, op, best, 4) == AssignRest(s2, op, best, 5) == AssignRest(s3, op, best, 6);
    assert s3.drivers == s.drivers[best := s.drivers[best].(hasTarget := true, targetLat := op.rLat % 90, targetLon := op.rLon % 180)];
  }

  lemma LastThreeWrites(s: FleetState, op: Op, best: int)
    requires WellFormed(s) && op.RideOp? && 0 <= best < s.count
    ensures AssignRest(s, op, best, 6)
         == s.(handled := s.handled + 1, successes := s.successes + 1, revenue := s.revenue + Fare(op.client))
  {
    var s1 := AssignWrite(s, op, best, 6);
    var s2 := AssignWrite(s1, op, best, 7);
    assert AssignRest(s1, op, best, 7) == AssignRest(s2, op, best, 8) == AssignWrite(s2, op, best, 8);
  }

  lemma AssignRestIsRide(s: FleetState, op: Op, best: int)
    requires WellFormed(s) && op.RideOp? && 0 <= best < s.count
    ensures AssignRest(s, op, best, 0)
         == s.(drivers := s.drivers[best := Assigned(s.drivers[best], op.rLat, op.rLon)], handled := s.handled + 1,
               successes := s.successes + 1, revenue := s.revenue + Fare(op.client))
  {
    var d := s.drivers[best];
    var s3 := SetDriver(s, best, d.(isAvailable := false, rides := d.rides + 1, fuel := d.fuel - 1));
    FirstThreeWrites(s, op, best);
    NextThreeWrites(s3, op, best);
    var s6 := SetDriver(s3, best, s3.drivers[best].(hasTarget := true, targetLat := op.rLat % 90, targetLon := op.rLon % 180));
    LastThreeWrites(s6, op, best);
    assert s6.drivers == s.drivers[best := Assigned(d, op.rLat, op.rLon)];
  }

  lemma JoinRestIsJoin(s: FleetState, op: Op)
    requires WellFormed(s) && op.JoinOp? && s.count < MAX_DRIVERS
    ensures JoinRest(s.(count := s.count + 1), op, s.count, 0) == Join(s, op.id)
  {
    var s1 := s.(count := s.count + 1);
    var s2 := JoinWriteField(s1, op, s.count, 0);
    var s3 := JoinWriteField(s2, op, s.count, 1);
    var s4 := JoinWriteField(s3, op, s.count, 2);
    assert JoinRest(s1, op, s.count, 0) == JoinRest(s3, op, s.count, 2) == s4;
    assert s4.drivers == Join(s, op.id).drivers;
  }

  lemma StagesRestIsTick(g: Grid, d: Driver, cell: Cell, r: Rolls)
    ensures StagesRest(g, d, cell, r, 0) == TickDriver(g, d, r)
  {
    var c := CellOf(d.lat, d.lon);
    var d1 := Respawned(g, d);
    var d2 := Travelled(d1, r);
    var d3 := Refuelled(d2);
    var d4 := Revived(d3);
    assert StagesRest(g, d4, c, r, 4) == Moved(g, d4, c, r);
    assert StagesRest(g, d2, c, r, 2) == StagesRest(g, d4, c, r, 4);
    assert StagesRest(g, d, cell, r, 0) == StagesRest(g, d2, c, r, 2);
  }

  lemma TickRestFromStart(g: Grid, s: FleetState, rolls: TickRolls, cell: Cell)
    requires WellFormed(s)
    ensures TickRest(g, s, rolls, 0, 0, cell) == Tick(g, s, rolls)
  {
    if s.count > 0 {
      StagesRestIsTick(g, s.drivers[0], cell, rolls[0]);
    }
    assert TickRest(g, s, rolls, 0, 0, cell).drivers == Tick(g, s, rolls).drivers;
  }

  // A section starts out heading for its atomic effect.
  lemma StartHeadsForApply(g: Grid, s: FleetState, op: Op)
    requires WellFormed(s) && (op.RateOp? ==> Limited(op.client))
    ensures PcFits(op, s, StartPc(op))
    ensures Heading(g, op, s, StartPc(op)) == (Apply(g, s, op), ResultOf(g, s, op))
  {
    if op.TickOp? {
      TickRestFromStart(g, s, op.rolls, Cell(0, 0));
    }
  }

  lemma TickStepKeepsHeading(g: Grid, op: Op, s: FleetState, pc: Pc)
    requires WellFormed(s) && PcFits(op, s, pc) && pc.TickAt?
    ensures var (s', pc') := Micro(g, op, s, pc); Heading(g, op, s', pc') == Heading(g, op, s, pc)
  {
    var i, stage := pc.i, pc.stage;
    var (s', pc') := Micro(g, op, s, pc);
    if i == s.count {
      assert TickRest(g, s, op.rolls, i, stage, pc.cell).drivers == s.drivers;
    } else {
      if stage + 1 == TICK_STAGES && i + 1 < s.count {
        StagesRestIsTick(g, s.drivers[i + 1], pc'.cell, op.rolls[i + 1]);
      }
      assert Heading(g, op, s', pc').0.drivers == Heading(g, op, s, pc).0.drivers;
    }
  }

  lemma FreshScansChoose(s: FleetState, isVip: bool)
    requires WellFormed(s)
    ensures ChosenFrom(s, Scan(0, -1, Square(UNREACHED), s.mode != 0 && isVip)) == Choose(s, isVip)
  {
    FreshScanIsNearest(s, true);
    FreshScanIsNearest(s, false);
  }

  lemma RideBeginKeepsHeading(g: Grid, op: Op, s: FleetState)
    requires WellFormed(s) && PcFits(op, s, RideBegin)
    ensures Heading(g, op, s, Micro(g, op, s, RideBegin).1) == (Apply(g, s, op), ResultOf(g, s, op))
  {
    var k := Choose(s, IsVip(op.client));
    FreshScansChoose(s, IsVip(op.client));
    if k != -1 {
      AssignRestIsRide(s, op, k);
    }
  }

  lemma ScanStepKeepsHeading(g: Grid, op: Op, s: FleetState, pc: Pc)
    requires WellFormed(s) && PcFits(op, s, pc) && pc.Scan?
    ensures Micro(g, op, s, pc).0 == s && Heading(g, op, s, Micro(g, op, s, pc).1) == Heading(g, op, s, pc)
  {
    if pc.i == s.count && pc.best == -1 {
      FreshScanIsNearest(s, false);
    }
  }

  lemma JoinStepKeepsHeading(g: Grid, op: Op, s: FleetState, pc: Pc)
    requires WellFormed(s) && PcFits(op, s, pc) && (pc.JoinBegin? || pc.JoinWrite?)
    ensures var (s', pc') := Micro(g, op, s, pc); Heading(g, op, s', pc') == Heading(g, op, s, pc)
  {
    if pc.JoinBegin? && s.count < MAX_DRIVERS {
      JoinRestIsJoin(s, op);
    }
  }

  // No step of a section changes where it is heading.
  lemma MicroKeepsHeading(g: Grid, op: Op, s: FleetState, pc: Pc)
    requires WellFormed(s) && PcFits(op, s, pc)
    ensures var (s', pc') := Micro(g, op, s, pc); Heading(g, op, s', pc') == Heading(g, op, s, pc)
  {
    match pc
    case RideBegin => RideBeginKeepsHeading(g, op, s);
    case Scan(_, _, _, _) => ScanStepKeepsHeading(g, op, s, pc);
    case JoinBegin => JoinStepKeepsHeading(g, op, s, pc);
    case JoinWrite(_, _) => JoinStepKeepsHeading(g, op, s, pc);
    case TickAt(_, _, _) => TickStepKeepsHeading(g, op, s, pc);
    case _ =>
  }

  // A join writes only to the slot it has just taken into use.
  predicate TouchesNew(base: FleetState, pc: Pc) {
    && (pc.JoinWrite? ==> pc.idx >= base.count)
  }

  lemma MicroKeepsSlots(g: Grid, base: FleetState, op: Op, s: FleetState, pc: Pc)
    requires WellFormed(base) && WellFormed(s) && PcFits(op, s, pc)
    requires SlotsStay(base, s) && TouchesNew(base, pc)
    ensures var (s', pc') := Micro(g, op, s, pc); SlotsStay(base, s') && TouchesNew(base, pc')
  {}

  // ---------------------------------------------------------------------------
  // A section ends
  // ---------------------------------------------------------------------------

  const MAX_SECTION: nat := 1281

  // An upper bound on the steps still to come.
  function Remaining(op: Op, s: FleetState, pc: Pc): (n: nat)
    requires WellFormed(s) && PcFits(op, s, pc)
    ensures n <= MAX_SECTION && (n == 0 <==> pc.Done?)
  {
    match pc
    case RideBegin => 2 * s.count + 13
    case Scan(i, _, _, vipOnly) => s.count - i + 11 + if vipOnly then s.count + 1 else 0
    case Write(_, k) => ASSIGN_WRITES + 1 - k
    case JoinBegin => JOIN_WRITES + 2
    case JoinWrite(_, k) => JOIN_WRITES + 1 - k
    case RateBegin => 4
    case RateBump => 2
    case RateStamp => 3
    case RateReset => 2
    case RateVerdict => 1
    case TickAt(i, stage, _) => (s.count - i) * TICK_STAGES - (if i < s.count then stage else 0) + 1
    case Done(_) => 0
  }

  // Every step of a section brings its end closer.
  lemma MicroDescends(g: Grid, op: Op, s: FleetState, pc: Pc)
    requires WellFormed(s) && PcFits(op, s, pc) && !pc.Done?
    ensures var (s', pc') := Micro(g, op, s, pc); Remaining(op, s', pc') < Remaining(op, s, pc)
  {}

  // ---------------------------------------------------------------------------
  // The target a section leaves
  // ---------------------------------------------------------------------------

  // Places of the two target writes among those of AssignWrite.
  const LAT_WRITE: nat := 4
  const LON_WRITE: nat := 5

  // The section has passed the write number `at` to slot i.
  predicate Wrote(pc: Pc, i: int, at: nat) {
    (pc.Write? && pc.best == i && pc.k > at) || pc == Done(Chosen(i))
  }

  // Section op began in state base and stands at pc: a slot's target is the one base has,
  // but for what the section itself has drawn and written.
  ghost predicate TargetsHeld(base: FleetState, op: Op, s: FleetState, pc: Pc)
    requires WellFormed(base) && WellFormed(s) && PcFits(op, s, pc)
  {
    forall i :: 0 <= i < MAX_DRIVERS ==>
      && (Wrote(pc, i, LAT_WRITE) || Wrote(pc, i, LON_WRITE) ==> op.RideOp?)
      && s.drivers[i].targetLat == (if Wrote(pc, i, LAT_WRITE) then op.rLat % 90 else base.drivers[i].targetLat)
      && s.drivers[i].targetLon == (if Wrote(pc, i, LON_WRITE) then op.rLon % 180 else base.drivers[i].targetLon)
  }

  lemma StageKeepsTarget(g: Grid, d: Driver, cell: Cell, r: Rolls, stage: nat)
    ensures var d' := TickStage(g, d, cell, r, stage); d'.targetLat == d.targetLat && d'.targetLon == d.targetLon
  {}

  lemma MicroKeepsTargets(g: Grid, base: FleetState, op: Op, s: FleetState, pc: Pc)
    requires WellFormed(base) && WellFormed(s) && PcFits(op, s, pc) && !pc.Done? && TargetsHeld(base, op, s, pc)
    ensures var (s', pc') := Micro(g, op, s, pc); TargetsHeld(base, op, s', pc')
  {
    if pc.TickAt? && pc.i < s.count {
      var d := s.drivers[pc.i];
      StageKeepsTarget(g, d, if pc.stage == 0 then CellOf(d.lat, d.lon) else pc.cell, op.rolls[pc.i], pc.stage);
    }
  }
}
