// What every run of the fleet keeps: the three driver modes, the fuel range, the zeroed
// slots, the positions, and the books.
module FleetInvariants {
  import opened GridMap
  import opened StepChooser
  import opened Fleet

  predicate CitySized(g: Grid) {
    g.width == MAP_WIDTH && g.height == MAP_HEIGHT
  }

  // ---------------------------------------------------------------------------
  // One driver
  // ---------------------------------------------------------------------------

  predicate Available(d: Driver) {
    d.isAvailable && !d.isRefueling && !d.hasTarget
  }

  predicate Navigating(d: Driver) {
    !d.isAvailable && !d.isRefueling && d.hasTarget
  }

  predicate Refuelling(d: Driver) {
    !d.isAvailable && d.isRefueling && !d.hasTarget
  }

  // Exactly one of the three: they exclude each other by definition.
  predicate InOneMode(d: Driver) {
    Available(d) || Navigating(d) || Refuelling(d)
  }

  predicate FuelOk(d: Driver) {
    0 <= d.fuel <= FULL_TANK && (d.isRefueling ==> d.fuel % 2 == 0 && d.fuel >= 2)
  }

  predicate OnMap(g: Grid, d: Driver) {
    InBounds(g, CellOf(d.lat, d.lon))
  }

  // A driver that joined and has not been ticked yet stands at zero degrees.
  predicate JustJoined(d: Driver) {
    d.lat == -BASE_LAT && d.lon == -BASE_LON
  }

  predicate TargetOk(d: Driver) {
    0 <= d.targetLat < 90 && 0 <= d.targetLon < 180
  }

  predicate DriverOk(g: Grid, d: Driver) {
    && InOneMode(d) && FuelOk(d)
    && (OnMap(g, d) || JustJoined(d))
    && (d.hasTarget ==> TargetOk(d))
  }

  // In offsets, the map is the open rectangle from -5 to its far edges: truncation puts
  // the offsets -4..-1 in the first row and column.
  lemma OnMapOffsets(g: Grid, d: Driver)
    requires CitySized(g)
    ensures OnMap(g, d) <==> -5 < d.lat < 100 && -5 < d.lon < 200
  {}

  lemma ClampChangesNothing(g: Grid, c: Cell)
    requires InBounds(g, c)
    ensures ClampCell(g, c) == c
  {}

  lemma TargetCellOnMap(g: Grid, d: Driver)
    requires CitySized(g) && TargetOk(d)
    ensures InBounds(g, CellOf(d.targetLat, d.targetLon))
  {}

  lemma RespawnedOk(g: Grid, d: Driver)
    requires CitySized(g) && DriverOk(g, d)
    ensures var d' := Respawned(g, d);
            && InOneMode(d') && FuelOk(d') && OnMap(g, d') && (d'.hasTarget ==> TargetOk(d'))
            && (d'.hasTarget <==> d.hasTarget && !Blocked(g, d))
            && (!Blocked(g, d) ==> d' == d)
  {
    OnMapOffsets(g, Respawned(g, d));
  }

  lemma TravelledOk(g: Grid, d: Driver, r: Rolls)
    requires CitySized(g) && InOneMode(d) && FuelOk(d) && OnMap(g, d) && (d.hasTarget ==> TargetOk(d))
    ensures var d' := Travelled(d, r);
            && InOneMode(d') && FuelOk(d') && OnMap(g, d') && (d'.hasTarget ==> TargetOk(d'))
            && (d'.hasTarget <==> d.hasTarget && !Arrives(d, r))
            && (d'.hasTarget ==> d' == d.(fuel := d'.fuel))
            && (!d.hasTarget ==> d' == d)
  {
    OnMapOffsets(g, d);
    OnMapOffsets(g, Travelled(d, r));
  }

  lemma RefuelledOk(g: Grid, d: Driver)
    requires InOneMode(d) && FuelOk(d)
    ensures var d' := Refuelled(d);
            && InOneMode(d') && FuelOk(d') && !Zombie(d')
            && (d'.hasTarget <==> d.hasTarget)
            && (d.hasTarget ==> d' == d)
            && d'.lat == d.lat && d'.lon == d.lon && d'.targetLat == d.targetLat && d'.targetLon == d.targetLon
  {}

  // The failsafe for a busy driver without a ride never fires.
  lemma ZombieBranchIsDead(g: Grid, d: Driver, r: Rolls)
    requires CitySized(g) && DriverOk(g, d)
    ensures !Zombie(Refuelled(Travelled(Respawned(g, d), r)))
  {
    RespawnedOk(g, d);
    TravelledOk(g, Respawned(g, d), r);
    RefuelledOk(g, Travelled(Respawned(g, d), r));
  }

  lemma BeforeMoveOk(g: Grid, d: Driver, r: Rolls)
    requires CitySized(g) && DriverOk(g, d)
    ensures var d' := BeforeMove(g, d, r);
            && InOneMode(d') && FuelOk(d') && OnMap(g, d') && (d'.hasTarget ==> TargetOk(d'))
            && (d'.hasTarget <==> d.hasTarget && !Blocked(g, d) && !Arrives(d, r))
            && (d'.hasTarget ==> d' == d.(fuel := d'.fuel))
  {
    RespawnedOk(g, d);
    TravelledOk(g, Respawned(g, d), r);
    RefuelledOk(g, Travelled(Respawned(g, d), r));
  }

  // A driver without a ride drifts by at most one cell width along each axis, or stays
  // where it is when the place drawn is a wall or off the map.
  lemma WalkStaysOnMap(g: Grid, d: Driver, r: Rolls)
    requires CitySized(g) && !d.hasTarget && InOneMode(d) && OnMap(g, d)
    ensures var d' := Moved(g, d, CellOf(d.lat, d.lon), r);
            var lat, lon := d.lat + [-5, 0, 5][r.walkLat % 3], d.lon + [-5, 0, 5][r.walkLon % 3];
            && OnMap(g, d') && d' == d.(lat := d'.lat, lon := d'.lon)
            && (if IsObstacle(g, CellOf(lat, lon)) then d' == d else d'.lat == lat && d'.lon == lon && !Blocked(g, d'))
  {}

  lemma CellOfCorner(c: Cell)
    requires c.x >= 0 && c.y >= 0
    ensures CellOf(c.y * CELL_SIZE, c.x * CELL_SIZE) == c
  {}

  lemma RideStep(g: Grid, d: Driver, r: Rolls)
    requires CitySized(g) && Navigating(d) && OnMap(g, d) && TargetOk(d)
    ensures var cell, target := CellOf(d.lat, d.lon), CellOf(d.targetLat, d.targetLon);
            var d' := Moved(g, d, cell, r);
            && StepOf(g, d) == NextStep(g, cell, target)
            && (NextStep(g, cell, target) == cell ==> d' == d.(hasTarget := false, isAvailable := true))
            && (NextStep(g, cell, target) != cell ==>
                  && CellOf(d'.lat, d'.lon) == NextStep(g, cell, target) && !Blocked(g, d') && OnMap(g, d')
                  && d'.lat == 5 * NextStep(g, cell, target).y && d'.lon == 5 * NextStep(g, cell, target).x
                  && Manhattan(cell, CellOf(d'.lat, d'.lon)) == 1
                  && d' == d.(lat := d'.lat, lon := d'.lon))
  {
    var cell, target := CellOf(d.lat, d.lon), CellOf(d.targetLat, d.targetLon);
    TargetCellOnMap(g, d);
    ClampChangesNothing(g, cell);
    ClampChangesNothing(g, target);
    NextStepIsGreedy(g, cell, target);
    StepApproachesIffUnblocked(g, cell, target);
    if NextStep(g, cell, target) != cell {
      CellOfCorner(NextStep(g, cell, target));
    }
  }

  datatype End = Arrived | Respawn | Stuck | None

  // How a tick ends the driver's ride, read off the state before the tick.
  function EndOf(g: Grid, d: Driver, r: Rolls): End {
    if !d.hasTarget then None
    else if Blocked(g, d) then Respawn
    else if Arrives(d, r) then Arrived
    else if NextStep(g, CellOf(d.lat, d.lon), CellOf(d.targetLat, d.targetLon)) == CellOf(d.lat, d.lon) then Stuck
    else None
  }

  // One tick of one driver: it keeps the driver sound and puts it on the map; it never
  // starts a ride, and ends one exactly for the reason EndOf gives; a driver still on its
  // ride has moved to a free neighbouring cell with its target unchanged.
  lemma TickDriverOk(g: Grid, d: Driver, r: Rolls)
    requires CitySized(g) && DriverOk(g, d)
    ensures var d' := TickDriver(g, d, r);
            && DriverOk(g, d') && OnMap(g, d')
            && (d'.hasTarget <==> d.hasTarget && EndOf(g, d, r) == None)
            && (d'.hasTarget ==>
                  && OnMap(g, d) && !Blocked(g, d') && Manhattan(CellOf(d.lat, d.lon), CellOf(d'.lat, d'.lon)) == 1
                  && CellOf(d'.lat, d'.lon) == NextStep(g, CellOf(d.lat, d.lon), CellOf(d.targetLat, d.targetLon))
                  && d'.targetLat == d.targetLat && d'.targetLon == d.targetLon)
            && d'.id == d.id && d'.rating == d.rating && d'.rides == d.rides
  {
    var d1 := BeforeMove(g, d, r);
    BeforeMoveOk(g, d, r);
    if d1.hasTarget {
      RideStep(g, d1, r);
    } else {
      WalkStaysOnMap(g, d1, r);
      assert Moved(g, d1, CellOf(d.lat, d.lon), r) == Moved(g, d1, CellOf(d1.lat, d1.lon), r);
    }
  }

  function Burnt(d: Driver, r: Rolls): int {
    if d.fuel > 0 && r.burn % 100 < 10 then d.fuel - 1 else d.fuel
  }

  // What a tick does to the fuel of a driver on a ride: it may burn one unit, and a ride
  // that arrives on an empty tank turns straight into refuelling. A driver that gets
  // stuck is handed back without a look at its tank.
  lemma FuelOverARideTick(g: Grid, d: Driver, r: Rolls)
    requires CitySized(g) && DriverOk(g, d) && Navigating(d) && !Blocked(g, d)
    ensures var d' := TickDriver(g, d, r);
            && (EndOf(g, d, r) == None ==> Navigating(d') && d'.fuel == Burnt(d, r))
            && (EndOf(g, d, r) == Stuck ==> Available(d') && d'.fuel == Burnt(d, r))
            && (EndOf(g, d, r) == Arrived ==>
                  if Burnt(d, r) == 0 then Refuelling(d') && d'.fuel == 2 else Available(d') && d'.fuel == Burnt(d, r))
  {
    var d1 := BeforeMove(g, d, r);
    BeforeMoveOk(g, d, r);
    if d1.hasTarget {
      RideStep(g, d1, r);
    } else {
      WalkStaysOnMap(g, d1, r);
      assert Moved(g, d1, CellOf(d.lat, d.lon), r) == Moved(g, d1, CellOf(d1.lat, d1.lon), r);
    }
  }

  // A ride arrives within a hundredth of a degree, or by the dice.
  lemma ArrivalRule(d: Driver, r: Rolls)
    ensures var lat, lon := d.lat - d.targetLat, d.lon - d.targetLon;
            Arrives(d, r) <==> lat * lat + lon * lon < 100 * 100 || r.arrive % 100 < 20
  {}

  // Where a tick begins to move a driver without a ride: at the base after a respawn, at
  // the target after an arrival.
  function SetDown(g: Grid, d: Driver, r: Rolls): (int, int) {
    if Blocked(g, d) then (0, 0)
    else if EndOf(g, d, r) == Arrived then (d.targetLat, d.targetLon)
    else (d.lat, d.lon)
  }

  lemma SetDownBeforeMove(g: Grid, d: Driver, r: Rolls)
    requires CitySized(g) && DriverOk(g, d)
    ensures var d' := BeforeMove(g, d, r); (d'.lat, d'.lon) == SetDown(g, d, r)
  {}

  // Where a tick leaves a driver: on a ride that goes on, at the corner of the next cell;
  // stuck, where it was; in every other case at the place it was set down, shifted by the
  // drift drawn, or at that place itself when the drift ends on a wall or off the map.
  lemma TickPlace(g: Grid, d: Driver, r: Rolls)
    requires CitySized(g) && DriverOk(g, d)
    ensures var d', next := TickDriver(g, d, r), NextStep(g, CellOf(d.lat, d.lon), CellOf(d.targetLat, d.targetLon));
            var place := SetDown(g, d, r);
            var lat, lon := place.0 + [-5, 0, 5][r.walkLat % 3], place.1 + [-5, 0, 5][r.walkLon % 3];
            (d'.lat, d'.lon)
            == if d'.hasTarget then (5 * next.y, 5 * next.x)
               else if EndOf(g, d, r) == Stuck then (d.lat, d.lon)
               else if IsObstacle(g, CellOf(lat, lon)) then place
               else (lat, lon)
  {
    var d1 := BeforeMove(g, d, r);
    BeforeMoveOk(g, d, r);
    SetDownBeforeMove(g, d, r);
    hide Moved, BeforeMove, NextStep, Arrives, Blocked, IsObstacle;
    if d1.hasTarget {
      RideStep(g, d1, r);
    } else {
      WalkStaysOnMap(g, d1, r);
      assert Moved(g, d1, CellOf(d.lat, d.lon), r) == Moved(g, d1, CellOf(d1.lat, d1.lon), r);
    }
  }

  // What a respawn makes of a driver: available with the fuel it has, or refuelling if it
  // has none.
  lemma RespawnOverATick(g: Grid, d: Driver, r: Rolls)
    requires CitySized(g) && DriverOk(g, d) && Blocked(g, d)
    ensures var d' := TickDriver(g, d, r);
            if d.fuel == 0 then Refuelling(d') && d'.fuel == 2 else Available(d') && d'.fuel == d.fuel
  {
    BeforeMoveOk(g, d, r);
    WalkStaysOnMap(g, BeforeMove(g, d, r), r);
  }

  // Whatever state a driver is in, the failsafe leaves nobody busy without a ride.
  lemma NobodyIsLeftIdle(g: Grid, d: Driver, r: Rolls)
    ensures !Zombie(BeforeMove(g, d, r))
  {}
}
