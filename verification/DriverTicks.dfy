// One driver over many ticks, and how long refuelling takes.
module DriverTicks {
  import opened GridMap
  import opened Fleet
  import opened FleetInvariants

  function AfterTicks(g: Grid, d: Driver, rolls: seq<Rolls>): Driver {
    if rolls == [] then d
    else TickDriver(g, AfterTicks(g, d, rolls[..|rolls| - 1]), rolls[|rolls| - 1])
  }

  function Here(d: Driver): Cell {
    CellOf(d.lat, d.lon)
  }

  function Goal(d: Driver): Cell {
    CellOf(d.targetLat, d.targetLon)
  }

  lemma {:induction false} TicksKeepOk(g: Grid, d: Driver, rolls: seq<Rolls>)
    requires CitySized(g) && DriverOk(g, d)
    ensures DriverOk(g, AfterTicks(g, d, rolls))
  {
    if rolls != [] {
      TicksKeepOk(g, d, rolls[..|rolls| - 1]);
      TickDriverOk(g, AfterTicks(g, d, rolls[..|rolls| - 1]), rolls[|rolls| - 1]);
    }
  }

  // ---------------------------------------------------------------------------
  // Refuelling
  // ---------------------------------------------------------------------------

  lemma RefuelStep(g: Grid, d: Driver, r: Rolls)
    requires CitySized(g) && DriverOk(g, d) && !d.hasTarget && !Blocked(g, d)
    ensures var d' := TickDriver(g, d, r);
            && !Blocked(g, d')
            && (d.isAvailable && d.fuel > 0 ==> Available(d') && d'.fuel == d.fuel)
            && (d.isAvailable && d.fuel == 0 ==> Refuelling(d') && d'.fuel == 2)
            && (d.isRefueling && d.fuel < FULL_TANK ==> Refuelling(d') && d'.fuel == d.fuel + 2)
            && (d.isRefueling && d.fuel == FULL_TANK ==> Available(d') && d'.fuel == FULL_TANK)
  {
    BeforeMoveOk(g, d, r);
    WalkStaysOnMap(g, BeforeMove(g, d, r), r);
  }

  // An idle driver with an empty tank, standing on a free cell, is refuelling after one
  // tick, gains 2 a tick, and is available with a full tank after exactly six.
  lemma {:induction false} RefuellingTakesSixTicks(g: Grid, d: Driver, rolls: seq<Rolls>)
    requires CitySized(g) && DriverOk(g, d) && Available(d) && d.fuel == 0 && !Blocked(g, d)
    requires |rolls| <= 6
    ensures var e := AfterTicks(g, d, rolls);
            && !Blocked(g, e)
            && (0 < |rolls| < 6 ==> Refuelling(e) && e.fuel == 2 * |rolls|)
            && (|rolls| == 6 ==> Available(e) && e.fuel == FULL_TANK)
  {
    if rolls != [] {
      var before := rolls[..|rolls| - 1];
      RefuellingTakesSixTicks(g, d, before);
      TicksKeepOk(g, d, before);
      RefuelStep(g, AfterTicks(g, d, before), rolls[|rolls| - 1]);
    }
  }

  // On a wall cell, which a ride can end on, the respawn cuts refuelling short: the
  // driver comes back available with what it has.
  lemma RespawnCutsRefuelling(g: Grid, d: Driver, r: Rolls)
    requires CitySized(g) && DriverOk(g, d) && Refuelling(d) && Blocked(g, d)
    ensures Available(TickDriver(g, d, r)) && TickDriver(g, d, r).fuel == d.fuel
  {
    BeforeMoveOk(g, d, r);
  }
}
