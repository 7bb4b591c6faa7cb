// Safety and bookkeeping over whole runs: any number of ride requests, joins, rate checks
// and ticks, in any order, from a fresh start.
module FleetRuns {
  import opened GridMap
  import opened Fleet
  import opened Dispatch
  import opened FleetInvariants

  // ---------------------------------------------------------------------------
  // Sound states
  // ---------------------------------------------------------------------------

  ghost predicate Sound(g: Grid, s: FleetState) {
    && WellFormed(s)
    && (forall i :: 0 <= i < s.count ==> DriverOk(g, s.drivers[i]))
    && (forall i :: s.count <= i < MAX_DRIVERS ==> s.drivers[i] == UNUSED)
  }

  lemma StartIsSound(g: Grid, n: nat, mode: int, rolls: seq<StartRolls>)
    requires CitySized(g) && n <= MAX_DRIVERS && |rolls| == n
    ensures Sound(g, InitialFleet(n, mode, rolls))
  {
    forall i: nat | i < n
      ensures DriverOk(g, StartDriver(i, rolls[i]))
    {
      OnMapOffsets(g, StartDriver(i, rolls[i]));
    }
  }

  lemma JoinedIsOk(g: Grid, id: int)
    ensures DriverOk(g, UNUSED.(id := id, isAvailable := true, fuel := FULL_TANK))
  {}

  lemma AssignedIsOk(g: Grid, d: Driver, rLat: nat, rLon: nat)
    requires DriverOk(g, d) && Eligible(d, false)
    ensures DriverOk(g, Assigned(d, rLat, rLon)) && Available(d) && Navigating(Assigned(d, rLat, rLon))
  {}

  lemma ChosenIsEligible(s: FleetState, isVip: bool)
    requires WellFormed(s) && Choose(s, isVip) != -1
    ensures Eligible(s.drivers[Choose(s, isVip)], false)
  {
    NearestIsNearest(s.drivers, s.count, true);
    NearestIsNearest(s.drivers, s.count, false);
  }

  // Only an available driver with fuel is assigned; it comes out navigating, one unit of
  // fuel down, to a target on the map.
  lemma RideKeepsSound(g: Grid, s: FleetState, client: int, rLat: nat, rLon: nat)
    requires Sound(g, s)
    ensures Sound(g, Ride(s, client, rLat, rLon))
    ensures var k := Choose(s, IsVip(client));
            k != -1 ==>
              var d, d' := s.drivers[k], Ride(s, client, rLat, rLon).drivers[k];
              Available(d) && d.fuel > 0 && Navigating(d') && d'.fuel == d.fuel - 1 && TargetOk(d')
  {
    var k := Choose(s, IsVip(client));
    if k != -1 {
      ChosenIsEligible(s, IsVip(client));
      AssignedIsOk(g, s.drivers[k], rLat, rLon);
    }
  }

  lemma TickKeepsSound(g: Grid, s: FleetState, rolls: TickRolls)
    requires CitySized(g) && Sound(g, s)
    ensures Sound(g, Tick(g, s, rolls))
    ensures forall i :: 0 <= i < s.count ==> OnMap(g, Tick(g, s, rolls).drivers[i])
    ensures forall i :: 0 <= i < s.count && Navigating(Tick(g, s, rolls).drivers[i]) ==> !Blocked(g, Tick(g, s, rolls).drivers[i])
  {
    forall i | 0 <= i < s.count
      ensures var d' := TickDriver(g, s.drivers[i], rolls[i]);
              DriverOk(g, d') && OnMap(g, d') && (Navigating(d') ==> !Blocked(g, d'))
    {
      TickDriverOk(g, s.drivers[i], rolls[i]);
    }
  }

  lemma ApplyKeepsSound(g: Grid, s: FleetState, op: Op)
    requires CitySized(g) && Sound(g, s)
    ensures Sound(g, Apply(g, s, op))
  {
    match op
    case RideOp(client, rLat, rLon) => RideKeepsSound(g, s, client, rLat, rLon);
    case JoinOp(id) => JoinedIsOk(g, id);
    case RateOp(client, now) =>
    case TickOp(rolls) => TickKeepsSound(g, s, rolls);
  }

  lemma {:induction false} RunKeepsSound(g: Grid, s: FleetState, ops: seq<Op>)
    requires CitySized(g) && Sound(g, s)
    ensures Sound(g, Run(g, s, ops))
  {
    if ops != [] {
      RunKeepsSound(g, s, ops[..|ops| - 1]);
      ApplyKeepsSound(g, Run(g, s, ops[..|ops| - 1]), ops[|ops| - 1]);
    }
  }

  // Every reachable state is sound: each used driver is in exactly one mode with fuel in
  // 0..10 (even and at least 2 while refuelling), and each unused slot is still zero.
  lemma ReachableStatesAreSound(g: Grid, n: nat, mode: int, rolls: seq<StartRolls>, ops: seq<Op>)
    requires CitySized(g) && n <= MAX_DRIVERS && |rolls| == n
    ensures Sound(g, Run(g, InitialFleet(n, mode, rolls), ops))
  {
    StartIsSound(g, n, mode, rolls);
    RunKeepsSound(g, InitialFleet(n, mode, rolls), ops);
  }

  // And right after any tick of any run every driver stands on the map, those still on a
  // ride on a free cell.
  lemma EveryTickLeavesDriversOnMap(g: Grid, n: nat, mode: int, starts: seq<StartRolls>, ops: seq<Op>, rolls: TickRolls, i: int)
    requires CitySized(g) && n <= MAX_DRIVERS && |starts| == n
    requires 0 <= i < Run(g, InitialFleet(n, mode, starts), ops).count
    ensures var d := Run(g, InitialFleet(n, mode, starts), ops + [TickOp(rolls)]).drivers[i];
            OnMap(g, d) && InOneMode(d) && (d.hasTarget ==> !Blocked(g, d))
  {
    var s := Run(g, InitialFleet(n, mode, starts), ops);
    assert (ops + [TickOp(rolls)])[..|ops|] == ops;
    ReachableStatesAreSound(g, n, mode, starts, ops);
    TickDriverOk(g, s.drivers[i], rolls[i]);
  }

  lemma SquareGrows(a: int, b: nat)
    requires 0 <= a + b && a <= b
    ensures Square(a) <= Square(b)
  {
    var m := if a < 0 then -a else a;
    assert Square(a) == m * m;
    assert m * m <= m * b <= b * b;
  }

  lemma SoundDriversAreInReach(g: Grid, d: Driver)
    requires CitySized(g) && DriverOk(g, d)
    ensures InReach(d)
  {
    OnMapOffsets(g, d);
    SquareGrows(d.lat, BASE_LAT);
    SquareGrows(d.lon, BASE_LON);
    assert Square(BASE_LAT) + Square(BASE_LON) < Square(UNREACHED);
  }

  // In a sound state every driver is within reach of the searches, so a request finds
  // nobody exactly when nobody is free and fuelled.
  lemma NobodyFoundMeansNobodyFree(g: Grid, s: FleetState, isVip: bool)
    requires CitySized(g) && Sound(g, s)
    ensures Choose(s, isVip) == -1 <==> forall i :: 0 <= i < s.count ==> !(Available(s.drivers[i]) && s.drivers[i].fuel > 0)
  {
    ChoiceIsNearest(s, isVip);
    forall i | 0 <= i < s.count
      ensures Candidate(s.drivers[i], false) <==> Available(s.drivers[i]) && s.drivers[i].fuel > 0
    {
      SoundDriversAreInReach(g, s.drivers[i]);
    }
  }

  lemma OnlyDriverIsChosen(s: FleetState, isVip: bool)
    requires WellFormed(s) && s.count == 1 && s.mode == 0
    requires Eligible(s.drivers[0], false) && -5 < s.drivers[0].lat < 100 && -5 < s.drivers[0].lon < 200
    ensures Choose(s, isVip) == 0
  {
    SquareGrows(s.drivers[0].lat, 100);
    SquareGrows(s.drivers[0].lon, 200);
    assert Square(100) + Square(200) < Square(UNREACHED);
    assert Nearest(s.drivers, 0, false) == -1;
  }

  // What a request does, all of it: one driver goes on a ride to the target drawn, where it
  // stands; the counters go up by the ride and its fare; and nothing else changes.
  lemma RideInFull(s: FleetState, client: int, rLat: nat, rLon: nat)
    requires WellFormed(s)
    ensures var k, s' := Choose(s, IsVip(client)), Ride(s, client, rLat, rLon);
            if k == -1 then s' == s
            else
              var d := s.drivers[k];
              && s'.drivers[k] == Driver(d.id, d.lat, d.lon, false, d.rides + 1, d.fuel - 1, d.isRefueling, d.rating, true, rLat % 90, rLon % 180)
              && (forall j :: 0 <= j < MAX_DRIVERS && j != k ==> s'.drivers[j] == s.drivers[j])
              && s'.handled == s.handled + 1 && s'.successes == s.successes + 1
              && s'.revenue == s.revenue + (if client <= 10 then 150 else 100)
              && s'.count == s.count && s'.mode == s.mode && s'.lastSeen == s.lastSeen && s'.reqCount == s.reqCount
  {}

  // A join into a sound fleet of fewer than 256 drivers: the next slot gets an available
  // driver with that id and a full tank, unrated and at zero degrees; nothing else changes.
  lemma JoinInFull(g: Grid, s: FleetState, id: int)
    requires Sound(g, s)
    ensures var s' := Join(s, id);
            if s.count == 256 then s' == s
            else
              && s'.count == s.count + 1
              && s'.drivers[s.count] == Driver(id, -250330, -1215654, true, 0, 10, false, 0, false, -250330, -1215654)
              && (forall j :: 0 <= j < MAX_DRIVERS && j != s.count ==> s'.drivers[j] == s.drivers[j])
              && s'.handled == s.handled && s'.successes == s.successes && s'.revenue == s.revenue
              && s'.mode == s.mode && s'.lastSeen == s.lastSeen && s'.reqCount == s.reqCount
  {}

  // A fresh fleet: ids from 1001 on, places within 99 units north and east of the base, full
  // tanks, and ratings of 4.9 or 5.0 for the first two drivers and of 3.5 to 4.9 for the
  // rest.
  lemma FreshDriver(n: nat, mode: int, rolls: seq<StartRolls>, i: nat)
    requires n <= MAX_DRIVERS && |rolls| == n && i < n
    ensures var s, d := InitialFleet(n, mode, rolls), InitialFleet(n, mode, rolls).drivers[i];
            && s.count == n && s.mode == mode
            && d.id == 1001 + i && d.isAvailable && !d.isRefueling && !d.hasTarget && d.fuel == 10 && d.rides == 0
            && 0 <= d.lat < 100 && (rolls[i].lat - d.lat) % 100 == 0 && 0 <= d.lon < 100 && (rolls[i].lon - d.lon) % 100 == 0
            && (if i < 2 then d.rating == (if rolls[i].rating % 2 == 0 then 49 else 50)
                else 35 <= d.rating < 50 && (rolls[i].rating - (d.rating - 35)) % 15 == 0)
  {}

  lemma SquareAtMost(a: int)
    requires 0 <= a <= 99
    ensures a * a <= 99 * 99
  {}

  // So in a fresh fleet in smart mode the first VIP always gets a driver rated 4.8 or more.
  lemma FirstVipIsServedWell(n: nat, rolls: seq<StartRolls>, client: int)
    requires 0 < n <= MAX_DRIVERS && |rolls| == n && client <= 10
    ensures var s := InitialFleet(n, 1, rolls);
            var k := Choose(s, IsVip(client));
            k != -1 && s.drivers[k].rating >= 48
  {
    var s := InitialFleet(n, 1, rolls);
    FreshDriver(n, 1, rolls, 0);
    hide InitialFleet, Choose, Nearest;
    var d := s.drivers[0];
    assert d.lat * d.lat <= 99 * 99 && d.lon * d.lon <= 99 * 99 by {
      SquareAtMost(d.lat);
      SquareAtMost(d.lon);
    }
    assert Takeable(d, true);
    RequestInCoordinates(s, client);
    NearestInCoordinates(s.drivers, s.count, true);
  }

  // ---------------------------------------------------------------------------
  // What never changes
  // ---------------------------------------------------------------------------

  // Once a slot is in use, its id and rating stay; slots are never given back; the
  // dispatch mode stays.
  ghost predicate SlotsStay(s: FleetState, s': FleetState)
    requires WellFormed(s) && WellFormed(s')
  {
    && s.count <= s'.count && s'.mode == s.mode
    && forall i :: 0 <= i < s.count ==> s'.drivers[i].id == s.drivers[i].id && s'.drivers[i].rating == s.drivers[i].rating
  }

  lemma TickKeepsIdentity(g: Grid, d: Driver, r: Rolls)
    ensures TickDriver(g, d, r).id == d.id && TickDriver(g, d, r).rating == d.rating && TickDriver(g, d, r).rides == d.rides
  {}

  lemma ApplyKeepsSlots(g: Grid, s: FleetState, op: Op)
    requires WellFormed(s)
    ensures SlotsStay(s, Apply(g, s, op))
  {
    if op.TickOp? {
      forall i | 0 <= i < s.count
        ensures TickDriver(g, s.drivers[i], op.rolls[i]).id == s.drivers[i].id
        ensures TickDriver(g, s.drivers[i], op.rolls[i]).rating == s.drivers[i].rating
      {
        TickKeepsIdentity(g, s.drivers[i], op.rolls[i]);
      }
    }
  }

  // ---------------------------------------------------------------------------
  // The books
  // ---------------------------------------------------------------------------

  // Kept beside the run: how many rides of each slot have ended, and how many rides
  // went to VIPs.
  datatype Ledger = Ledger(ended: seq<int>, vips: int)

  function NewLedger(): Ledger {
    Ledger(seq(MAX_DRIVERS, _ => 0), 0)
  }

  function Record(g: Grid, s: FleetState, l: Ledger, op: Op): (l': Ledger)
    requires WellFormed(s) && |l.ended| == MAX_DRIVERS
    ensures |l'.ended| == MAX_DRIVERS
  {
    match op
    case RideOp(client, _, _) =>
      if Choose(s, IsVip(client)) != -1 && IsVip(client) then l.(vips := l.vips + 1) else l
    case TickOp(rolls) =>
      l.(ended := seq(MAX_DRIVERS, i requires 0 <= i < MAX_DRIVERS =>
                    if i < s.count && EndOf(g, s.drivers[i], rolls[i]) != End.None then l.ended[i] + 1 else l.ended[i]))
    case _ => l
  }

  function RunLedger(g: Grid, s: FleetState, l: Ledger, ops: seq<Op>): (l': Ledger)
    requires WellFormed(s) && |l.ended| == MAX_DRIVERS
    ensures |l'.ended| == MAX_DRIVERS
  {
    if ops == [] then l
    else Record(g, Run(g, s, ops[..|ops| - 1]), RunLedger(g, s, l, ops[..|ops| - 1]), ops[|ops| - 1])
  }

  function Underway(d: Driver): int {
    if d.hasTarget then 1 else 0
  }

  function TotalRides(ds: seq<Driver>): int {
    if ds == [] then 0 else TotalRides(ds[..|ds| - 1]) + ds[|ds| - 1].rides
  }

  function TotalUnderway(ds: seq<Driver>): int {
    if ds == [] then 0 else TotalUnderway(ds[..|ds| - 1]) + Underway(ds[|ds| - 1])
  }

  function Total(ns: seq<int>): int {
    if ns == [] then 0 else Total(ns[..|ns| - 1]) + ns[|ns| - 1]
  }

  // Slot by slot: a driver's rides are those that ended and the one it may be on. In all:
  // rides, successes and handled requests agree, and the revenue is what they earned.
  ghost predicate Balanced(s: FleetState, l: Ledger) {
    && |s.drivers| == |l.ended| == MAX_DRIVERS
    && (forall i :: 0 <= i < MAX_DRIVERS ==> s.drivers[i].rides == l.ended[i] + Underway(s.drivers[i]))
    && TotalRides(s.drivers) == s.successes == s.handled
    && s.revenue == 100 * s.successes + 50 * l.vips
  }

  lemma {:induction false} TotalRidesAfterUpdate(ds: seq<Driver>, k: nat, d: Driver)
    requires k < |ds|
    ensures TotalRides(ds[k := d]) == TotalRides(ds) - ds[k].rides + d.rides
  {
    var n := |ds| - 1;
    if k < n {
      TotalRidesAfterUpdate(ds[..n], k, d);
      assert ds[k := d][..n] == ds[..n][k := d];
    } else {
      assert ds[k := d][..n] == ds[..n];
    }
  }

  lemma {:induction false} TotalRidesOfSameRides(a: seq<Driver>, b: seq<Driver>)
    requires |a| == |b| && forall i :: 0 <= i < |a| ==> a[i].rides == b[i].rides
    ensures TotalRides(a) == TotalRides(b)
  {
    if a != [] {
      TotalRidesOfSameRides(a[..|a| - 1], b[..|b| - 1]);
    }
  }

  lemma {:induction false} TotalSplits(ds: seq<Driver>, ended: seq<int>)
    requires |ds| == |ended| && forall i :: 0 <= i < |ds| ==> ds[i].rides == ended[i] + Underway(ds[i])
    ensures TotalRides(ds) == Total(ended) + TotalUnderway(ds)
  {
    if ds != [] {
      TotalSplits(ds[..|ds| - 1], ended[..|ended| - 1]);
    }
  }

  lemma {:induction false} TotalOfZeros(ds: seq<Driver>)
    requires forall i :: 0 <= i < |ds| ==> ds[i].rides == 0
    ensures TotalRides(ds) == 0
  {
    if ds != [] {
      TotalOfZeros(ds[..|ds| - 1]);
    }
  }

  lemma RideKeepsBalance(g: Grid, s: FleetState, l: Ledger, client: int, rLat: nat, rLon: nat)
    requires Sound(g, s) && Balanced(s, l)
    ensures Balanced(Ride(s, client, rLat, rLon), Record(g, s, l, RideOp(client, rLat, rLon)))
  {
    var k := Choose(s, IsVip(client));
    if k != -1 {
      ChosenIsEligible(s, IsVip(client));
      AssignedIsOk(g, s.drivers[k], rLat, rLon);
      TotalRidesAfterUpdate(s.drivers, k, Assigned(s.drivers[k], rLat, rLon));
    }
  }

  lemma JoinKeepsBalance(g: Grid, s: FleetState, l: Ledger, id: int)
    requires Sound(g, s) && Balanced(s, l)
    ensures Balanced(Join(s, id), l)
  {
    TotalRidesOfSameRides(s.drivers, Join(s, id).drivers);
  }

  lemma TickKeepsBalance(g: Grid, s: FleetState, l: Ledger, rolls: TickRolls)
    requires CitySized(g) && Sound(g, s) && Balanced(s, l)
    ensures Balanced(Tick(g, s, rolls), Record(g, s, l, TickOp(rolls)))
  {
    var s', l' := Tick(g, s, rolls), Record(g, s, l, TickOp(rolls));
    forall i | 0 <= i < MAX_DRIVERS
      ensures s'.drivers[i].rides == s.drivers[i].rides == l'.ended[i] + Underway(s'.drivers[i])
    {
      if i < s.count {
        TickDriverOk(g, s.drivers[i], rolls[i]);
      }
    }
    TotalRidesOfSameRides(s.drivers, s'.drivers);
  }

  lemma {:induction false} RunKeepsBalance(g: Grid, s: FleetState, l: Ledger, ops: seq<Op>)
    requires CitySized(g) && Sound(g, s) && Balanced(s, l)
    ensures Balanced(Run(g, s, ops), RunLedger(g, s, l, ops))
  {
    if ops != [] {
      var before := ops[..|ops| - 1];
      var s1, l1 := Run(g, s, before), RunLedger(g, s, l, before);
      RunKeepsSound(g, s, before);
      RunKeepsBalance(g, s, l, before);
      match ops[|ops| - 1]
      case RideOp(client, rLat, rLon) => RideKeepsBalance(g, s1, l1, client, rLat, rLon);
      case JoinOp(id) => JoinKeepsBalance(g, s1, l1, id);
      case RateOp(client, now) =>
      case TickOp(rolls) => TickKeepsBalance(g, s1, l1, rolls);
    }
  }

  // Over every run: each driver has at most one ride underway, and all its other rides
  // have ended by arrival, respawn or getting stuck; successes are the rides ended plus
  // the rides underway; revenue is 100 a ride and 50 more for a VIP.
  lemma BooksBalance(g: Grid, n: nat, mode: int, rolls: seq<StartRolls>, ops: seq<Op>)
    requires CitySized(g) && n <= MAX_DRIVERS && |rolls| == n
    ensures var s0 := InitialFleet(n, mode, rolls);
            var s, l := Run(g, s0, ops), RunLedger(g, s0, NewLedger(), ops);
            && Balanced(s, l)
            && s.successes == s.handled == Total(l.ended) + TotalUnderway(s.drivers)
  {
    var s0 := InitialFleet(n, mode, rolls);
    StartIsSound(g, n, mode, rolls);
    TotalOfZeros(s0.drivers);
    RunKeepsBalance(g, s0, NewLedger(), ops);
    TotalSplits(Run(g, s0, ops).drivers, RunLedger(g, s0, NewLedger(), ops).ended);
  }
}
