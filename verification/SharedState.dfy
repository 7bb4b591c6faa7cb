// The shared memory block and the code that changes it in place (server_main.c,
// dispatch_algorithms.c, ride_service.c, resource_service.c, coordinator.c,
// map_monitor.c). Each method is one critical section, proved to have the effect that
// module Fleet gives it.
module SharedStateBlock {
  import opened GridMap
  import opened AStar
  import opened StepChooser
  import opened Fleet

  class SharedState {
    const drivers: array<Driver>
    var driverCount: int
    var totalHandled: int
    var totalSuccesses: int
    var totalRevenue: int
    const clientLastSeen: array<int>
    const clientReqCount: array<int>
    var dispatchMode: int

    ghost predicate Valid()
      reads this
    {
      && drivers.Length == MAX_DRIVERS && 0 <= driverCount <= MAX_DRIVERS
      && clientLastSeen.Length == MAX_CLIENTS && clientReqCount.Length == MAX_CLIENTS
      && clientLastSeen != clientReqCount
    }

    ghost function Model(): (s: FleetState)
      reads this, drivers, clientLastSeen, clientReqCount
      requires Valid()
      ensures WellFormed(s)
    {
      FleetState(drivers[..], driverCount, totalHandled, totalSuccesses, totalRevenue,
                  clientLastSeen[..], clientReqCount[..], dispatchMode)
    }

    // A fresh start: the block is zeroed, then the first n drivers are set up.
    constructor (n: nat, mode: int, rolls: seq<StartRolls>)
      requires n <= MAX_DRIVERS && |rolls| == n
      ensures Valid() && Model() == InitialFleet(n, mode, rolls)
      ensures fresh(drivers) && fresh(clientLastSeen) && fresh(clientReqCount)
    {
      drivers := new Driver[MAX_DRIVERS](_ => UNUSED);
      clientLastSeen := new int[MAX_CLIENTS](_ => 0);
      clientReqCount := new int[MAX_CLIENTS](_ => 0);
      driverCount, dispatchMode := n, mode;
      totalHandled, totalSuccesses, totalRevenue := 0, 0, 0;
      new;
      for i := 0 to n
        modifies drivers
        invariant forall k :: 0 <= k < MAX_DRIVERS ==> drivers[k] == if k < i then StartDriver(k, rolls[k]) else UNUSED
      {
        var d := drivers[i].(id := 1000 + i + 1, isAvailable := true);
        d := d.(lat := rolls[i].lat % 100, lon := rolls[i].lon % 100);
        d := d.(fuel := FULL_TANK, isRefueling := false, hasTarget := false);
        d := d.(targetLat := -BASE_LAT, targetLon := -BASE_LON);
        if i < 2 {
          d := d.(rating := 49 + rolls[i].rating % 2);
        } else {
          d := d.(rating := 35 + rolls[i].rating % 15);
        }
        drivers[i] := d;
      }
      assert drivers[..] == InitialFleet(n, mode, rolls).drivers;
    }

    method FindDriverBasic() returns (bestIndex: int)
      requires Valid()
      ensures bestIndex == Nearest(drivers[..], driverCount, false)
    {
      bestIndex := -1;
      var minDist := Square(UNREACHED);
      for i := 0 to driverCount
        invariant bestIndex == Nearest(drivers[..], i, false)
        invariant minDist == if bestIndex == -1 then Square(UNREACHED) else DistSq(drivers[bestIndex])
      {
        var d := drivers[i];
        if d.isAvailable && !d.isRefueling && d.fuel > 0 {
          var dist := DistSq(d);
          if dist < minDist {
            minDist := dist;
            bestIndex := i;
          }
        }
      }
    }

    method FindDriverSmart(isVip: bool) returns (bestIndex: int)
      requires Valid()
      ensures bestIndex == ChooseSmart(drivers[..], driverCount, isVip)
    {
      bestIndex := -1;
      var minDist := Square(UNREACHED);
      if isVip {
        for i := 0 to driverCount
          invariant bestIndex == Nearest(drivers[..], i, true)
          invariant minDist == if bestIndex == -1 then Square(UNREACHED) else DistSq(drivers[bestIndex])
        {
          var d := drivers[i];
          if d.isAvailable && !d.isRefueling && d.fuel > 0 {
            if d.rating >= VIP_RATING {
              var dist := DistSq(d);
              if dist < minDist {
                minDist := dist;
                bestIndex := i;
              }
            }
          }
        }
        if bestIndex != -1 {
          return;
        }
      }
      bestIndex := FindDriverBasic();
    }

    method HandleRideRequest(client: int, rLat: nat, rLon: nat) returns (reply: Reply)
      requires Valid()
      modifies this, drivers
      ensures Valid() && Model() == Ride(old(Model()), client, rLat, rLon)
      ensures reply == RideReply(old(Model()), client)
    {
      var isVip := client <= VIP_LAST_ID;
      var bestIndex;
      if dispatchMode == 0 {
        bestIndex := FindDriverBasic();
      } else {
        bestIndex := FindDriverSmart(isVip);
      }
      if bestIndex != -1 {
        var d := drivers[bestIndex].(isAvailable := false);
        d := d.(rides := d.rides + 1);
        d := d.(fuel := d.fuel - 1);
        d := d.(hasTarget := true);
        d := d.(targetLat := rLat % 90);
        d := d.(targetLon := rLon % 180);
        drivers[bestIndex] := d;
        totalHandled := totalHandled + 1;
        totalSuccesses := totalSuccesses + 1;
        var fare := 100 + if isVip then 50 else 0;
        totalRevenue := totalRevenue + fare;
        reply := Confirmed(d.id, d.rating, DistSq(d), dispatchMode == 1);
      } else {
        reply := NoDrivers;
      }
    }

    method CheckAndUpdateRateLimit(client: int, now: int) returns (isSpam: bool)
      requires Valid()
      modifies clientLastSeen, clientReqCount
      ensures Valid() && Model() == RateCheck(old(Model()), client, now)
      ensures isSpam == Spam(Model(), client)
    {
      if client <= 0 || client >= MAX_CLIENTS {
        return false;
      }
      isSpam := false;
      if clientLastSeen[client] == now {
        clientReqCount[client] := clientReqCount[client] + 1;
      } else {
        clientLastSeen[client] := now;
        clientReqCount[client] := 1;
      }
      if clientReqCount[client] > MAX_PER_SECOND {
        isSpam := true;
      }
    }

    method ProcessDriverJoin(id: int)
      requires Valid()
      modifies this`driverCount, drivers
      ensures Valid() && Model() == Join(old(Model()), id)
    {
      if driverCount < MAX_DRIVERS {
        var idx := driverCount;
        driverCount := driverCount + 1;
        drivers[idx] := drivers[idx].(id := id);
        drivers[idx] := drivers[idx].(isAvailable := true);
        drivers[idx] := drivers[idx].(fuel := FULL_TANK);
      }
    }

    // The last part of a driver's tick: one step of the ride, or a random walk.
    method MoveOne(g: Grid, before: Driver, cell: Cell, r: Rolls) returns (d: Driver)
      requires g.width > 0 && g.height > 0
      ensures d == Moved(g, before, cell, r)
    {
      d := before;
      if d.hasTarget && !d.isRefueling {
        var next := GetNextStep(g, d.lat, d.lon, d.targetLat, d.targetLon, MAX_OPEN_NODES, MAX_STEPS);
        if next == cell {
          d := d.(hasTarget := false, isAvailable := true);
        } else {
          d := d.(lat := next.y * CELL_SIZE, lon := next.x * CELL_SIZE);
        }
      } else if d.isAvailable || d.isRefueling {
        var oldLat, oldLon := d.lat, d.lon;
        d := d.(lat := d.lat + (r.walkLat % 3 - 1) * CELL_SIZE);
        d := d.(lon := d.lon + (r.walkLon % 3 - 1) * CELL_SIZE);
        if IsObstacle(g, CellOf(d.lat, d.lon)) {
          d := d.(lat := oldLat, lon := oldLon);
        }
      }
    }

    // The body of the monitor's loop over the drivers.
    method TickOne(g: Grid, i: int, r: Rolls)
      requires Valid() && 0 <= i < driverCount
      requires g.width > 0 && g.height > 0
      modifies drivers
      ensures drivers[..] == old(drivers[..])[i := TickDriver(g, old(drivers[i]), r)]
    {
      var d := drivers[i];
      var cell := CellOf(d.lat, d.lon);
      ghost var d0 := d;
      if IsObstacle(g, cell) || cell.x < 0 || cell.x >= g.width || cell.y < 0 || cell.y >= g.height {
        d := d.(lat := 0, lon := 0);
        d := d.(hasTarget := false, isAvailable := true, isRefueling := false);
      }
      ghost var d1 := Respawned(g, d0);
      assert d == d1;
      if d.hasTarget {
        var arrived := Square(d.lat - d.targetLat) + Square(d.lon - d.targetLon) < Square(NEAR);
        if !arrived && r.arrive % 100 < 20 {
          arrived := true;
        }
        if arrived {
          d := d.(hasTarget := false, isAvailable := true, isRefueling := false);
          d := d.(lat := d.targetLat, lon := d.targetLon);
        }
        if d.fuel > 0 && r.burn % 100 < 10 {
          d := d.(fuel := d.fuel - 1);
        }
      }
      ghost var d2 := Travelled(d1, r);
      assert d == d2;
      if d.isAvailable && d.fuel <= 0 && !d.isRefueling {
        d := d.(isRefueling := true, isAvailable := false, hasTarget := false);
      }
      if d.isRefueling {
        if d.fuel < FULL_TANK {
          d := d.(fuel := d.fuel + 2);
        } else {
          d := d.(isRefueling := false, isAvailable := true);
        }
      }
      ghost var d3 := Refuelled(d2);
      assert d == d3;
      if !d.isAvailable && !d.isRefueling && !d.hasTarget {
        d := d.(isAvailable := true);
      }
      ghost var d4 := Revived(d3);
      assert d == d4;
      d := MoveOne(g, d, cell, r);
      drivers[i] := d;
    }

    method MonitorTick(g: Grid, rolls: TickRolls)
      requires Valid() && g.width > 0 && g.height > 0
      modifies drivers
      ensures Valid() && Model() == Tick(g, old(Model()), rolls)
    {
      ghost var before := Model();
      for i := 0 to driverCount
        invariant forall k :: 0 <= k < MAX_DRIVERS ==>
                    drivers[k] == if k < i then TickDriver(g, before.drivers[k], rolls[k]) else before.drivers[k]
      {
        TickOne(g, i, rolls[i]);
      }
      assert drivers[..] == Tick(g, before, rolls).drivers;
    }
  }
}
