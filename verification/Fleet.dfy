// The shared state and its four critical sections, as functions on values: the ride
// request (ride_service.c), the driver join (coordinator.c), the rate limiter
// (resource_service.c) and the monitor tick (map_monitor.c).
//
// Positions are exact: offsets from the base corner in units of 1e-4 degree. Ratings are
// in tenths. Each call of rand() is a number supplied from outside.
module Fleet {
  import opened GridMap
  import opened StepChooser

  const MAX_DRIVERS: nat := 256
  const MAX_CLIENTS: nat := 2000
  const VIP_LAST_ID: int := 10
  const VIP_RATING: int := 48
  const MAX_PER_SECOND: int := 3
  const FULL_TANK: int := 10

  // 25.0330 and 121.5654 degrees.
  const BASE_LAT: int := 250330
  const BASE_LON: int := 1215654

  // 0.01 degree, within which a ride counts as arrived, and the 1000000 degrees that
  // both driver searches start from.
  const NEAR: int := 100
  const UNREACHED: int := 10_000_000_000

  datatype Driver = Driver(
    id: int, lat: int, lon: int, isAvailable: bool, rides: int, fuel: int, isRefueling: bool,
    rating: int, hasTarget: bool, targetLat: int, targetLon: int)

  // An unused slot: every byte zero, so zero degrees everywhere.
  const UNUSED: Driver :=
    Driver(0, -BASE_LAT, -BASE_LON, false, 0, 0, false, 0, false, -BASE_LAT, -BASE_LON)

  datatype FleetState = FleetState(
    drivers: seq<Driver>, count: int, handled: int, successes: int, revenue: int,
    lastSeen: seq<int>, reqCount: seq<int>, mode: int)

  predicate WellFormed(s: FleetState) {
    && |s.drivers| == MAX_DRIVERS && 0 <= s.count <= MAX_DRIVERS
    && |s.lastSeen| == MAX_CLIENTS && |s.reqCount| == MAX_CLIENTS
  }

  // ---------------------------------------------------------------------------
  // Start (server_main.c)
  // ---------------------------------------------------------------------------

  datatype StartRolls = StartRolls(lat: nat, lon: nat, rating: nat)

  function StartDriver(i: nat, r: StartRolls): Driver {
    Driver(1000 + i + 1, r.lat % 100, r.lon % 100, true, 0, FULL_TANK, false,
           if i < 2 then 49 + r.rating % 2 else 35 + r.rating % 15,
           false, -BASE_LAT, -BASE_LON)
  }

  function InitialFleet(n: nat, mode: int, rolls: seq<StartRolls>): (s: FleetState)
    requires n <= MAX_DRIVERS && |rolls| == n
    ensures WellFormed(s)
  {
    FleetState(seq(MAX_DRIVERS, i requires 0 <= i < MAX_DRIVERS => if i < n then StartDriver(i, rolls[i]) else UNUSED),
          n, 0, 0, 0, seq(MAX_CLIENTS, _ => 0), seq(MAX_CLIENTS, _ => 0), mode)
  }

  // ---------------------------------------------------------------------------
  // Choosing a driver (dispatch_algorithms.c)
  // ---------------------------------------------------------------------------

  function Square(n: int): int {
    n * n
  }

  // Squared distance from the base corner.
  function DistSq(d: Driver): int {
    Square(d.lat) + Square(d.lon)
  }

  predicate Eligible(d: Driver, vipOnly: bool) {
    d.isAvailable && !d.isRefueling && d.fuel > 0 && (vipOnly ==> d.rating >= VIP_RATING)
  }

  // The first driver of least distance among the first n eligible ones, or -1.
  function Nearest(ds: seq<Driver>, n: nat, vipOnly: bool): (k: int)
    requires n <= |ds|
    ensures -1 <= k < n
  {
    if n == 0 then -1
    else
      var k := Nearest(ds, n - 1, vipOnly);
      if Eligible(ds[n - 1], vipOnly) && DistSq(ds[n - 1]) < (if k == -1 then Square(UNREACHED) else DistSq(ds[k]))
      then n - 1 else k
  }

  function ChooseSmart(ds: seq<Driver>, n: nat, isVip: bool): (k: int)
    requires n <= |ds|
    ensures -1 <= k < n
  {
    if isVip && Nearest(ds, n, true) != -1 then Nearest(ds, n, true) else Nearest(ds, n, false)
  }

  function Choose(s: FleetState, isVip: bool): (k: int)
    requires WellFormed(s)
    ensures -1 <= k < s.count
  {
    if s.mode == 0 then Nearest(s.drivers, s.count, false) else ChooseSmart(s.drivers, s.count, isVip)
  }

  // ---------------------------------------------------------------------------
  // The ride request (ride_service.c)
  // ---------------------------------------------------------------------------

  predicate IsVip(client: int) {
    client <= VIP_LAST_ID
  }

  function Fare(client: int): int {
    100 + if IsVip(client) then 50 else 0
  }

  function Assigned(d: Driver, rLat: nat, rLon: nat): Driver {
    d.(isAvailable := false, rides := d.rides + 1, fuel := d.fuel - 1, hasTarget := true,
       targetLat := rLat % 90, targetLon := rLon % 180)
  }

  function Ride(s: FleetState, client: int, rLat: nat, rLon: nat): (s': FleetState)
    requires WellFormed(s)
    ensures WellFormed(s')
  {
    var k := Choose(s, IsVip(client));
    if k == -1 then s
    else s.(drivers := s.drivers[k := Assigned(s.drivers[k], rLat, rLon)], handled := s.handled + 1,
            successes := s.successes + 1, revenue := s.revenue + Fare(client))
  }

  datatype Reply = Confirmed(id: int, rating: int, distSq: int, smart: bool) | NoDrivers

  // What the request answers: the driver as it was chosen.
  function RideReply(s: FleetState, client: int): Reply
    requires WellFormed(s)
  {
    var k := Choose(s, IsVip(client));
    if k == -1 then NoDrivers
    else Confirmed(s.drivers[k].id, s.drivers[k].rating, DistSq(s.drivers[k]), s.mode == 1)
  }

  // ---------------------------------------------------------------------------
  // The driver join (coordinator.c) and the rate limiter (resource_service.c)
  // ---------------------------------------------------------------------------

  function Join(s: FleetState, id: int): (s': FleetState)
    requires WellFormed(s)
    ensures WellFormed(s')
  {
    if s.count == MAX_DRIVERS then s
    else s.(count := s.count + 1,
            drivers := s.drivers[s.count := s.drivers[s.count].(id := id, isAvailable := true, fuel := FULL_TANK)])
  }

  predicate Limited(client: int) {
    0 < client < MAX_CLIENTS
  }

  function RateCheck(s: FleetState, client: int, now: int): (s': FleetState)
    requires WellFormed(s)
    ensures WellFormed(s')
  {
    if !Limited(client) then s
    else if s.lastSeen[client] == now then s.(reqCount := s.reqCount[client := s.reqCount[client] + 1])
    else s.(lastSeen := s.lastSeen[client := now], reqCount := s.reqCount[client := 1])
  }

  // The verdict, read off the state the check leaves behind.
  predicate Spam(s: FleetState, client: int)
    requires WellFormed(s)
  {
    Limited(client) && s.reqCount[client] > MAX_PER_SECOND
  }

  // ---------------------------------------------------------------------------
  // The monitor tick (map_monitor.c)
  // ---------------------------------------------------------------------------

  datatype Rolls = Rolls(arrive: nat, burn: nat, walkLat: nat, walkLon: nat)

  // One record per slot; a tick uses those of the slots in use.
  type TickRolls = r: seq<Rolls> | |r| == MAX_DRIVERS witness seq(MAX_DRIVERS, _ => Rolls(0, 0, 0, 0))

  predicate Blocked(g: Grid, d: Driver) {
    IsObstacle(g, CellOf(d.lat, d.lon))
  }

  function Respawned(g: Grid, d: Driver): Driver {
    if Blocked(g, d)
    then d.(lat := 0, lon := 0, hasTarget := false, isAvailable := true, isRefueling := false)
    else d
  }

  predicate Arrives(d: Driver, r: Rolls) {
    Square(d.lat - d.targetLat) + Square(d.lon - d.targetLon) < Square(NEAR) || r.arrive % 100 < 20
  }

  function Travelled(d: Driver, r: Rolls): Driver {
    if !d.hasTarget then d
    else
      var d' := if Arrives(d, r)
                then d.(hasTarget := false, isAvailable := true, isRefueling := false, lat := d.targetLat, lon := d.targetLon)
                else d;
      if d'.fuel > 0 && r.burn % 100 < 10 then d'.(fuel := d'.fuel - 1) else d'
  }

  function Refuelled(d: Driver): Driver {
    var d' := if d.isAvailable && d.fuel <= 0 && !d.isRefueling
              then d.(isRefueling := true, isAvailable := false, hasTarget := false)
              else d;
    if !d'.isRefueling then d'
    else if d'.fuel < FULL_TANK then d'.(fuel := d'.fuel + 2)
    else d'.(isRefueling := false, isAvailable := true)
  }

  predicate Zombie(d: Driver) {
    !d.isAvailable && !d.isRefueling && !d.hasTarget
  }

  function Revived(d: Driver): Driver {
    if Zombie(d) then d.(isAvailable := true) else d
  }

  function StepOf(g: Grid, d: Driver): Cell {
    NextStep(g, ClampCell(g, CellOf(d.lat, d.lon)), ClampCell(g, CellOf(d.targetLat, d.targetLon)))
  }

  // `cell` is the cell the driver was in when its tick began.
  function Moved(g: Grid, d: Driver, cell: Cell, r: Rolls): Driver {
    if d.hasTarget && !d.isRefueling then
      var next := StepOf(g, d);
      if next == cell then d.(hasTarget := false, isAvailable := true)
      else d.(lat := next.y * CELL_SIZE, lon := next.x * CELL_SIZE)
    else if d.isAvailable || d.isRefueling then
      var d' := d.(lat := d.lat + (r.walkLat % 3 - 1) * CELL_SIZE, lon := d.lon + (r.walkLon % 3 - 1) * CELL_SIZE);
      if Blocked(g, d') then d else d'
    else d
  }

  function BeforeMove(g: Grid, d: Driver, r: Rolls): Driver {
    Revived(Refuelled(Travelled(Respawned(g, d), r)))
  }

  function TickDriver(g: Grid, d: Driver, r: Rolls): Driver {
    Moved(g, BeforeMove(g, d, r), CellOf(d.lat, d.lon), r)
  }

  function Tick(g: Grid, s: FleetState, rolls: TickRolls): (s': FleetState)
    requires WellFormed(s)
    ensures WellFormed(s')
  {
    s.(drivers := seq(MAX_DRIVERS, i requires 0 <= i < MAX_DRIVERS =>
                        if i < s.count then TickDriver(g, s.drivers[i], rolls[i]) else s.drivers[i]))
  }

  // ---------------------------------------------------------------------------
  // Runs
  // ---------------------------------------------------------------------------

  datatype Op =
    | RideOp(client: int, rLat: nat, rLon: nat)
    | JoinOp(id: int)
    | RateOp(client: int, now: int)
    | TickOp(rolls: TickRolls)

  function Apply(g: Grid, s: FleetState, op: Op): (s': FleetState)
    requires WellFormed(s)
    ensures WellFormed(s')
  {
    match op
    case RideOp(client, rLat, rLon) => Ride(s, client, rLat, rLon)
    case JoinOp(id) => Join(s, id)
    case RateOp(client, now) => RateCheck(s, client, now)
    case TickOp(rolls) => Tick(g, s, rolls)
  }

  // The state after a sequence of critical sections.
  function Run(g: Grid, s: FleetState, ops: seq<Op>): (s': FleetState)
    requires WellFormed(s)
    ensures WellFormed(s')
  {
    if ops == [] then s else Apply(g, Run(g, s, ops[..|ops| - 1]), ops[|ops| - 1])
  }
}
