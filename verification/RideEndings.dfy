// When a ride ends and when it never does: for a driver that is only ticked, and for a
// driver in the fleet with rides, joins and rate checks between its ticks
// (src/server/map_monitor.c, lines 36-121).
module RideEndings {
  import opened GridMap
  import opened AStar
  import opened StepChooser
  import opened GreedyWalk
  import opened Fleet
  import opened FleetInvariants
  import opened FleetRuns
  import opened DriverTicks

  // ---------------------------------------------------------------------------
  // A driver that is only ticked
  // ---------------------------------------------------------------------------

  predicate NoEarlyEnd(r: Rolls) {
    r.arrive % 100 >= 20
  }

  predicate FarFrom(c: Cell, targetLat: int, targetLon: int) {
    Square(c.y * CELL_SIZE - targetLat) + Square(c.x * CELL_SIZE - targetLon) >= Square(NEAR)
  }

  // The cell the driver is in after n ticks of its ride.
  function WalkOf(g: Grid, d: Driver, n: nat): Cell {
    Walk(g, Here(d), Goal(d), n)
  }

  // Read off the map, the place and the target, before anything happens: tick n + 1 ends
  // the ride, whatever the dice say. At first the driver may stand anywhere in its cell,
  // and even on a wall; later it stands at the corner of a free one.
  predicate StopsAfter(g: Grid, d: Driver, n: nat) {
    || (n == 0 && Blocked(g, d))
    || (n == 0 && Square(d.lat - d.targetLat) + Square(d.lon - d.targetLon) < Square(NEAR))
    || (n > 0 && !FarFrom(WalkOf(g, d, n), d.targetLat, d.targetLon))
    || WalkOf(g, d, n + 1) == WalkOf(g, d, n)
  }

  // On a ride to d's target, at the corner of free cell c.
  predicate At(g: Grid, e: Driver, c: Cell, d: Driver) {
    && Navigating(e) && !Blocked(g, e) && Here(e) == c && e.lat == c.y * CELL_SIZE && e.lon == c.x * CELL_SIZE
    && e.targetLat == d.targetLat && e.targetLon == d.targetLon
  }

  // A ride that goes on puts the driver at the corner of the next cell.
  lemma RideTickReachesCorner(g: Grid, e: Driver, r: Rolls)
    requires CitySized(g) && DriverOk(g, e) && TickDriver(g, e, r).hasTarget
    ensures var e', next := TickDriver(g, e, r), NextStep(g, Here(e), Goal(e));
            e'.lat == next.y * CELL_SIZE && e'.lon == next.x * CELL_SIZE
  {
    BeforeMoveOk(g, e, r);
    RideStep(g, BeforeMove(g, e, r), r);
  }

  // One tick of a driver on a ride.
  lemma RideTick(g: Grid, e: Driver, r: Rolls)
    requires CitySized(g) && DriverOk(g, e) && Navigating(e)
    ensures var e' := TickDriver(g, e, r);
            && (e'.hasTarget <==> NoEarlyEnd(r) && !StopsAfter(g, e, 0))
            && (e'.hasTarget ==> At(g, e', WalkOf(g, e, 1), e))
  {
    TickDriverOk(g, e, r);
    WalkBegins(g, Here(e), Goal(e));
    if TickDriver(g, e, r).hasTarget {
      RideTickReachesCorner(g, e, r);
    }
  }

  // At a later stop of its walk a driver stops as one that starts there.
  lemma StopsOnTheWay(g: Grid, d: Driver, e: Driver, n: nat)
    requires n > 0 && At(g, e, WalkOf(g, d, n), d)
    ensures StopsAfter(g, e, 0) <==> StopsAfter(g, d, n)
    ensures WalkOf(g, e, 1) == WalkOf(g, d, n + 1)
  {
    WalkSplits(g, Here(d), Goal(d), n, 1);
    WalkBegins(g, Here(e), Goal(e));
  }

  // Neither the dice nor the walk have ended the ride.
  ghost predicate OnWalk(g: Grid, d: Driver, rolls: seq<Rolls>) {
    forall m: nat :: m < |rolls| ==> NoEarlyEnd(rolls[m]) && !StopsAfter(g, d, m)
  }

  lemma OnWalkBefore(g: Grid, d: Driver, rolls: seq<Rolls>)
    requires rolls != []
    ensures var n := |rolls| - 1;
            OnWalk(g, d, rolls) <==> OnWalk(g, d, rolls[..n]) && NoEarlyEnd(rolls[n]) && !StopsAfter(g, d, n)
  {
    var n := |rolls| - 1;
    assert forall m: nat :: m < n ==> rolls[..n][m] == rolls[m];
  }

  // A ride is still on exactly when no roll of the dice and no stop on its walk has ended
  // it, and then the driver is where its walk takes it.
  lemma {:induction false} RideIsOnIff(g: Grid, d: Driver, rolls: seq<Rolls>)
    requires CitySized(g) && DriverOk(g, d) && Navigating(d)
    ensures var e := AfterTicks(g, d, rolls);
            && (e.hasTarget <==> OnWalk(g, d, rolls))
            && (e.hasTarget && rolls != [] ==> At(g, e, WalkOf(g, d, |rolls|), d))
  {
    if rolls != [] {
      var n := |rolls| - 1;
      var e := AfterTicks(g, d, rolls[..n]);
      RideIsOnIff(g, d, rolls[..n]);
      OnWalkBefore(g, d, rolls);
      TicksKeepOk(g, d, rolls[..n]);
      if e.hasTarget {
        RideTick(g, e, rolls[n]);
        if n > 0 {
          StopsOnTheWay(g, d, e, n);
        }
      } else {
        TickDriverOk(g, e, rolls[n]);
      }
    }
  }

  predicate Calm(rolls: seq<Rolls>) {
    forall i :: 0 <= i < |rolls| ==> NoEarlyEnd(rolls[i])
  }

  ghost predicate NeverEnds(g: Grid, d: Driver) {
    forall rolls: seq<Rolls> :: Calm(rolls) ==> AfterTicks(g, d, rolls).hasTarget
  }

  // Two free cells out of range of the target that step to each other.
  predicate Trap(g: Grid, a: Cell, b: Cell, targetLat: int, targetLon: int) {
    && !IsObstacle(g, a) && !IsObstacle(g, b) && a != b
    && NextStep(g, a, CellOf(targetLat, targetLon)) == b && NextStep(g, b, CellOf(targetLat, targetLon)) == a
    && FarFrom(a, targetLat, targetLon) && FarFrom(b, targetLat, targetLon)
  }

  // The walk falls into a trap after n steps, without a stop before.
  predicate TrappedAfter(g: Grid, d: Driver, n: nat) {
    && (forall m: nat :: m <= n ==> !StopsAfter(g, d, m))
    && Trap(g, WalkOf(g, d, n), WalkOf(g, d, n + 1), d.targetLat, d.targetLon)
  }

  lemma NeverEndsIffNoStop(g: Grid, d: Driver)
    requires CitySized(g) && DriverOk(g, d) && Navigating(d)
    ensures NeverEnds(g, d) <==> forall m: nat :: !StopsAfter(g, d, m)
  {
    if NeverEnds(g, d) {
      forall m: nat
        ensures !StopsAfter(g, d, m)
      {
        var rolls := seq(m + 1, _ => Rolls(20, 0, 0, 0));
        assert Calm(rolls) && AfterTicks(g, d, rolls).hasTarget;
        RideIsOnIff(g, d, rolls);
      }
    } else {
      var rolls :| Calm(rolls) && !AfterTicks(g, d, rolls).hasTarget;
      RideIsOnIff(g, d, rolls);
    }
  }

  lemma TrapIsKept(g: Grid, d: Driver, n: nat, m: nat)
    requires TrappedAfter(g, d, n)
    ensures !StopsAfter(g, d, m)
  {
    hide NextStep;
    if m > n {
      WalkBegins(g, WalkOf(g, d, n + 1), Goal(d));
      WalkSplits(g, Here(d), Goal(d), n + 1, 1);
      PairIsKeptFrom(g, Here(d), Goal(d), n, m - n);
      PairIsKeptFrom(g, Here(d), Goal(d), n, m - n + 1);
    }
  }

  lemma NoStopMeansTrap(g: Grid, d: Driver) returns (n: nat)
    requires CitySized(g) && DriverOk(g, d) && Navigating(d)
    requires forall m: nat :: m < SettleTime(g) ==> !StopsAfter(g, d, m)
    ensures n + 1 < SettleTime(g) && TrappedAfter(g, d, n)
  {
    assert !StopsAfter(g, d, 0);
    var s, t := Here(d), Goal(d);
    TargetCellOnMap(g, d);
    RankIsBounded(g, s, t);
    var m := WalkSettles(g, s, t);
    NextStepIsGreedy(g, WalkOf(g, d, m), t);
    assert !StopsAfter(g, d, m) && WalkOf(g, d, m + 1) == NextStep(g, WalkOf(g, d, m), t);
    n := m + 1;
    WalkStaysFree(g, s, t, n);
    WalkStaysFree(g, s, t, n + 1);
    assert !StopsAfter(g, d, n) && !StopsAfter(g, d, n + 1);
    assert WalkOf(g, d, n + 2) == WalkOf(g, d, n);
  }

  // The exact condition. Without the early end by chance a ride never ends if and only if
  // its walk falls into a trap before it stops; and it does if and only if it has not
  // stopped within SettleTime ticks, which is 822 on the city map.
  lemma NeverEndsIffTrapped(g: Grid, d: Driver)
    requires CitySized(g) && DriverOk(g, d) && Navigating(d)
    ensures NeverEnds(g, d) <==> exists n: nat :: n < SettleTime(g) && TrappedAfter(g, d, n)
    ensures NeverEnds(g, d) <==> forall m: nat :: m < SettleTime(g) ==> !StopsAfter(g, d, m)
    ensures SettleTime(g) == 822
  {
    NeverEndsIffNoStop(g, d);
    if forall m: nat :: m < SettleTime(g) ==> !StopsAfter(g, d, m) {
      var n := NoStopMeansTrap(g, d);
      forall m: nat
        ensures !StopsAfter(g, d, m)
      {
        TrapIsKept(g, d, n, m);
      }
    }
    forall n: nat, m: nat | TrappedAfter(g, d, n)
      ensures !StopsAfter(g, d, m)
    {
      TrapIsKept(g, d, n, m);
    }
  }

  // ---------------------------------------------------------------------------
  // A driver in the fleet
  // ---------------------------------------------------------------------------

  // The rolls of slot i's ticks.
  function RollsOf(ops: seq<Op>, i: int): seq<Rolls>
    requires 0 <= i < MAX_DRIVERS
  {
    if ops == [] then []
    else
      var op := ops[|ops| - 1];
      RollsOf(ops[..|ops| - 1], i) + if op.TickOp? then [op.rolls[i]] else []
  }

  lemma {:induction false} NearestSkips(ds: seq<Driver>, n: nat, vipOnly: bool, i: int)
    requires n <= |ds| && 0 <= i < |ds| && !ds[i].isAvailable
    ensures Nearest(ds, n, vipOnly) != i
  {
    if n > 0 {
      NearestSkips(ds, n - 1, vipOnly, i);
    }
  }

  // A ride request never touches a driver that is on a ride.
  lemma RequestsSkipBusyDrivers(s: FleetState, client: int, rLat: nat, rLon: nat, i: int)
    requires WellFormed(s) && 0 <= i < s.count && !s.drivers[i].isAvailable
    ensures Ride(s, client, rLat, rLon).drivers[i] == s.drivers[i]
  {
    NearestSkips(s.drivers, s.count, true, i);
    NearestSkips(s.drivers, s.count, false, i);
  }

  lemma OnlyTicksMoveRiders(g: Grid, s: FleetState, op: Op, i: int)
    requires WellFormed(s) && 0 <= i < s.count && !s.drivers[i].isAvailable
    ensures Apply(g, s, op).drivers[i] == if op.TickOp? then TickDriver(g, s.drivers[i], op.rolls[i]) else s.drivers[i]
  {
    if op.RideOp? {
      RequestsSkipBusyDrivers(s, op.client, op.rLat, op.rLon, i);
    }
  }

  // Slot i is on one and the same ride all the way: a ride that ended would show, for the
  // state right after the tick that ends it is among those looked at.
  ghost predicate OnRideThroughout(g: Grid, s: FleetState, ops: seq<Op>, i: int)
    requires WellFormed(s) && 0 <= i < MAX_DRIVERS
  {
    forall m :: 0 <= m <= |ops| ==> Run(g, s, ops[..m]).drivers[i].hasTarget
  }

  ghost predicate Rider(g: Grid, s: FleetState, i: int) {
    CitySized(g) && Sound(g, s) && 0 <= i < s.count && Navigating(s.drivers[i])
  }

  lemma OnRideBefore(g: Grid, s: FleetState, ops: seq<Op>, i: int)
    requires WellFormed(s) && 0 <= i < MAX_DRIVERS && ops != []
    ensures OnRideThroughout(g, s, ops, i)
       <==> OnRideThroughout(g, s, ops[..|ops| - 1], i) && Run(g, s, ops).drivers[i].hasTarget
  {
    var before := ops[..|ops| - 1];
    assert ops[..|ops|] == ops;
    forall m | 0 <= m < |ops|
      ensures before[..m] == ops[..m]
    {}
    if OnRideThroughout(g, s, before, i) && Run(g, s, ops).drivers[i].hasTarget {
      forall m | 0 <= m <= |ops|
        ensures Run(g, s, ops[..m]).drivers[i].hasTarget
      {
        assert m < |ops| ==> Run(g, s, before[..m]).drivers[i].hasTarget;
      }
    }
    if OnRideThroughout(g, s, ops, i) {
      forall m | 0 <= m <= |before|
        ensures Run(g, s, before[..m]).drivers[i].hasTarget
      {
        assert Run(g, s, ops[..m]).drivers[i].hasTarget;
      }
      assert Run(g, s, ops[..|ops|]).drivers[i].hasTarget;
    }
  }

  // Rides, joins and rate checks between the ticks change nothing for a driver on a ride.
  lemma {:induction false} RiderFollowsTicks(g: Grid, s: FleetState, ops: seq<Op>, i: int)
    requires Rider(g, s, i)
    ensures OnRideThroughout(g, s, ops, i) <==> AfterTicks(g, s.drivers[i], RollsOf(ops, i)).hasTarget
    ensures OnRideThroughout(g, s, ops, i) ==> Run(g, s, ops).drivers[i] == AfterTicks(g, s.drivers[i], RollsOf(ops, i))
  {
    if ops == [] {
      assert ops[..0] == [];
    } else {
      var before, op := ops[..|ops| - 1], ops[|ops| - 1];
      var rolls := RollsOf(before, i);
      var d, e := s.drivers[i], AfterTicks(g, s.drivers[i], rolls);
      RiderFollowsTicks(g, s, before, i);
      OnRideBefore(g, s, ops, i);
      RunKeepsSound(g, s, before);
      RunOnlyAddsSlots(g, s, before);
      TicksKeepOk(g, d, rolls);
      if op.TickOp? {
        assert RollsOf(ops, i)[..|rolls|] == rolls;
        TickDriverOk(g, e, op.rolls[i]);
      } else {
        assert RollsOf(ops, i) == rolls;
      }
      if e.hasTarget {
        OnlyTicksMoveRiders(g, Run(g, s, before), op, i);
      }
    }
  }

  lemma {:induction false} RunOnlyAddsSlots(g: Grid, s: FleetState, ops: seq<Op>)
    requires WellFormed(s)
    ensures s.count <= Run(g, s, ops).count
  {
    if ops != [] {
      RunOnlyAddsSlots(g, s, ops[..|ops| - 1]);
      ApplyKeepsSlots(g, Run(g, s, ops[..|ops| - 1]), ops[|ops| - 1]);
    }
  }

  ghost predicate RideNeverEnds(g: Grid, s: FleetState, i: int)
    requires WellFormed(s) && 0 <= i < MAX_DRIVERS
  {
    forall ops: seq<Op> :: Calm(RollsOf(ops, i)) ==> OnRideThroughout(g, s, ops, i)
  }

  lemma {:induction false} TicksWithRolls(rolls: seq<Rolls>, i: int) returns (ops: seq<Op>)
    requires 0 <= i < MAX_DRIVERS
    ensures RollsOf(ops, i) == rolls
  {
    if rolls == [] {
      ops := [];
    } else {
      var n := |rolls| - 1;
      var before := TicksWithRolls(rolls[..n], i);
      ops := before + [TickOp(seq(MAX_DRIVERS, _ => rolls[n]))];
      assert ops[..|ops| - 1] == before;
      assert rolls == rolls[..n] + [rolls[n]];
    }
  }

  // The same over any run of the fleet: whatever came before, and whatever rides, joins
  // and rate checks come between the ticks. The ride is on exactly as long as neither the
  // dice nor the walk have ended it, and never ends, but for the dice, exactly when the
  // walk falls into a trap.
  lemma FleetRideIsOnIff(g: Grid, n: nat, mode: int, starts: seq<StartRolls>, before: seq<Op>, ops: seq<Op>, i: int)
    requires CitySized(g) && n <= MAX_DRIVERS && |starts| == n
    requires var s := Run(g, InitialFleet(n, mode, starts), before); 0 <= i < s.count && Navigating(s.drivers[i])
    ensures var s := Run(g, InitialFleet(n, mode, starts), before);
            var d, rolls := s.drivers[i], RollsOf(ops, i);
            && (OnRideThroughout(g, s, ops, i) <==> OnWalk(g, d, rolls))
            && (RideNeverEnds(g, s, i) <==> exists k: nat :: k < SettleTime(g) && TrappedAfter(g, d, k))
  {
    var s := Run(g, InitialFleet(n, mode, starts), before);
    var d := s.drivers[i];
    ReachableStatesAreSound(g, n, mode, starts, before);
    RiderFollowsTicks(g, s, ops, i);
    RideIsOnIff(g, d, RollsOf(ops, i));
    NeverEndsIffTrapped(g, d);
    if NeverEnds(g, d) {
      forall more: seq<Op> | Calm(RollsOf(more, i))
        ensures OnRideThroughout(g, s, more, i)
      {
        RiderFollowsTicks(g, s, more, i);
      }
    } else {
      var rolls: seq<Rolls> :| Calm(rolls) && !AfterTicks(g, d, rolls).hasTarget;
      var more := TicksWithRolls(rolls, i);
      RiderFollowsTicks(g, s, more, i);
      assert Calm(RollsOf(more, i)) && !OnRideThroughout(g, s, more, i);
    }
  }

  // ---------------------------------------------------------------------------
  // Rides that must end
  // ---------------------------------------------------------------------------

  // Every stop-free stretch of the walk leads to a cell from which it can come closer.
  ghost predicate CanComeCloser(g: Grid, d: Driver) {
    forall m: nat :: (forall k: nat :: k < m ==> !StopsAfter(g, d, k)) ==>
      WalkOf(g, d, m) == Goal(d) || Unblocked(g, WalkOf(g, d, m), Goal(d))
  }

  lemma {:induction false} WalkComesCloser(g: Grid, d: Driver, n: nat)
    requires CitySized(g) && InBounds(g, Goal(d)) && CanComeCloser(g, d)
    requires forall k: nat :: k < n ==> !StopsAfter(g, d, k)
    ensures Manhattan(WalkOf(g, d, n), Goal(d)) == Manhattan(Here(d), Goal(d)) - n
  {
    if n > 0 {
      WalkComesCloser(g, d, n - 1);
      var c := WalkOf(g, d, n - 1);
      assert !StopsAfter(g, d, n - 1) && WalkOf(g, d, n) == NextStep(g, c, Goal(d));
      assert c == Goal(d) || Unblocked(g, c, Goal(d));
      StepApproachesIffUnblocked(g, c, Goal(d));
    }
  }

  lemma WalkStopsInTime(g: Grid, d: Driver) returns (m: nat)
    requires CitySized(g) && InBounds(g, Goal(d)) && CanComeCloser(g, d)
    ensures m <= Manhattan(Here(d), Goal(d)) && StopsAfter(g, d, m)
  {
    m := Manhattan(Here(d), Goal(d));
    if k: nat :| k < m && StopsAfter(g, d, k) {
      m := k;
    } else {
      WalkComesCloser(g, d, m);
      assert WalkOf(g, d, m + 1) == NextStep(g, WalkOf(g, d, m), Goal(d));
    }
  }

  // A driver in the fleet that can come closer wherever its ride takes it ends the ride
  // within distance + 1 of its ticks.
  lemma UnblockedRideEnds(g: Grid, n: nat, mode: int, starts: seq<StartRolls>, before: seq<Op>, ops: seq<Op>, i: int)
    requires CitySized(g) && n <= MAX_DRIVERS && |starts| == n
    requires var s := Run(g, InitialFleet(n, mode, starts), before);
             && 0 <= i < s.count && Navigating(s.drivers[i]) && CanComeCloser(g, s.drivers[i])
             && |RollsOf(ops, i)| > Manhattan(Here(s.drivers[i]), Goal(s.drivers[i]))
    ensures !OnRideThroughout(g, Run(g, InitialFleet(n, mode, starts), before), ops, i)
  {
    var s := Run(g, InitialFleet(n, mode, starts), before);
    var d := s.drivers[i];
    ReachableStatesAreSound(g, n, mode, starts, before);
    TargetCellOnMap(g, d);
    FleetRideIsOnIff(g, n, mode, starts, before, ops, i);
    var m := WalkStopsInTime(g, d);
    assert StopsAfter(g, d, m) && m < |RollsOf(ops, i)|;
  }

  // ---------------------------------------------------------------------------
  // A ride that need not
  // ---------------------------------------------------------------------------

  lemma CityObstacles(c: Cell)
    ensures IsObstacle(CityGrid(), c) <==> !InBounds(CityGrid(), c) || CityWall(c)
  {}

  lemma StepIsFirstBest(g: Grid, s: Cell, t: Cell, k: nat)
    requires InBounds(g, t) && g.width + g.height <= NO_SCORE && s != t && k < 4
    requires !IsObstacle(g, Neighbour(s, k))
    requires forall j: nat :: j < 4 && j != k && !IsObstacle(g, Neighbour(s, j)) ==>
               Manhattan(Neighbour(s, k), t) < Manhattan(Neighbour(s, j), t)
                 || (Manhattan(Neighbour(s, k), t) == Manhattan(Neighbour(s, j), t) && k < j)
    ensures NextStep(g, s, t) == Neighbour(s, k)
  {
    BestDirectionIsBest(g, s, t, 4);
  }

  // The city map has a trap: west of the first building, on the way east. There is a way
  // around it; the step returned does not take it.
  lemma CityHasATrap()
    ensures CitySized(CityGrid()) && Trap(CityGrid(), Cell(4, 5), Cell(4, 4), 25, 179)
  {
    var g, t := CityGrid(), CellOf(25, 179);
    CityObstacles(Cell(4, 4));
    CityObstacles(Cell(4, 5));
    CityObstacles(Cell(5, 5));
    CityObstacles(Cell(5, 4));
    assert t == Cell(35, 5);
    StepIsFirstBest(g, Cell(4, 5), t, 0);
    StepIsFirstBest(g, Cell(4, 4), t, 1);
  }

  function TrappedStart(): FleetState {
    InitialFleet(1, 0, [StartRolls(25, 20, 0)])
  }

  function TrappedRider(): Driver {
    Assigned(StartDriver(0, StartRolls(25, 20, 0)), 25, 179)
  }

  lemma RiderStartsTrapped()
    ensures TrappedAfter(CityGrid(), TrappedRider(), 0)
  {
    var d := TrappedRider();
    CityHasATrap();
    CityObstacles(Cell(4, 5));
    assert Here(d) == Cell(4, 5) && Goal(d) == CellOf(25, 179);
    WalkBegins(CityGrid(), Cell(4, 5), Goal(d));
  }

  lemma FirstRequestMakesRider(client: int)
    ensures Run(CityGrid(), TrappedStart(), [RideOp(client, 25, 179)])
         == TrappedStart().(drivers := TrappedStart().drivers[0 := TrappedRider()], handled := 1, successes := 1, revenue := Fare(client))
  {
    var ops := [RideOp(client, 25, 179)];
    OnlyDriverIsChosen(TrappedStart(), IsVip(client));
    assert ops[..0] == [];
    assert Run(CityGrid(), TrappedStart(), ops[..0]) == TrappedStart();
  }

  // A fresh fleet can be sent into it: its only driver starts at the trap, the first
  // request gives it that target, and the ride never ends but for the dice, whatever
  // requests, joins, rate checks and ticks follow.
  lemma CityRideThatNeverEnds(client: int)
    ensures var s := Run(CityGrid(), TrappedStart(), [RideOp(client, 25, 179)]);
            s.count == 1 && Navigating(s.drivers[0]) && RideNeverEnds(CityGrid(), s, 0)
  {
    FirstRequestMakesRider(client);
    RiderStartsTrapped();
    FleetRideIsOnIff(CityGrid(), 1, 0, [StartRolls(25, 20, 0)], [RideOp(client, 25, 179)], [], 0);
    assert 0 < SettleTime(CityGrid());
  }

  // k cells from c in direction i.
  function Along(c: Cell, i: nat, k: int): Cell
    requires i < 4
  {
    match i
    case 0 => Cell(c.x, c.y - k)
    case 1 => Cell(c.x, c.y + k)
    case 2 => Cell(c.x - k, c.y)
    case _ => Cell(c.x + k, c.y)
  }

  lemma {:induction false} ReachAlong(g: Grid, s: Cell, c: Cell, n: int, i: nat, k: nat)
    requires i < 4 && Reachable(g, s, c, n)
    requires forall j :: 0 < j <= k ==> !IsObstacle(g, Along(c, i, j))
    ensures Reachable(g, s, Along(c, i, k), n + k)
  {
    if k > 0 {
      ReachAlong(g, s, c, n, i, k - 1);
      assert Neighbour(Along(c, i, k - 1), i) == Along(c, i, k);
      ExtendPath(g, s, Along(c, i, k - 1), n + k - 1, i);
    }
  }

  // The target of that trap can be reached: three cells up, along, and down again.
  lemma TrapHasAWayOut()
    ensures Reachable(CityGrid(), Cell(4, 5), CellOf(25, 179), 37)
  {
    var g, s := CityGrid(), Cell(4, 5);
    assert FreePath(g, [s], s, s);
    forall c: Cell | InBounds(g, c) && !CityWall(c)
      ensures !IsObstacle(g, c)
    {
      CityObstacles(c);
    }
    ReachAlong(g, s, s, 0, 0, 3);
    ReachAlong(g, s, Cell(4, 2), 3, 3, 31);
    ReachAlong(g, s, Cell(35, 2), 34, 1, 3);
  }

  lemma WallCannotBeReached(g: Grid, s: Cell, t: Cell)
    ensures IsObstacle(g, t) && s != t ==> forall n :: !Reachable(g, s, t, n)
  {
    forall p | FreePath(g, p, s, t) && s != t
      ensures !IsObstacle(g, t)
    {
      assert !IsObstacle(g, p[|p| - 1]);
    }
  }

  // A ride can draw a target in the river. No path leads there; the step returned is not
  // the start, but one towards it.
  lemma UnreachableTargetIsSteppedTowards()
    ensures var d := Assigned(StartDriver(0, StartRolls(0, 0, 0)), 35, 100);
            && (forall n :: !Reachable(CityGrid(), Here(d), Goal(d), n))
            && Here(d) == Cell(0, 0) && StepOf(CityGrid(), d) == NextStep(CityGrid(), Here(d), Goal(d)) == Cell(0, 1)
  {
    var g, s, t := CityGrid(), Cell(0, 0), Cell(20, 7);
    CityObstacles(t);
    CityObstacles(Cell(0, 1));
    CityObstacles(Cell(0, -1));
    CityObstacles(Cell(-1, 0));
    WallCannotBeReached(g, s, t);
    StepIsFirstBest(g, s, t, 1);
  }
}
