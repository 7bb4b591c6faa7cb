// What the driver searches choose (src/server/dispatch_algorithms.c).
module Dispatch {
  import opened Fleet

  // Within the distance both searches start from.
  predicate InReach(d: Driver) {
    DistSq(d) < Square(UNREACHED)
  }

  predicate Candidate(d: Driver, vipOnly: bool) {
    Eligible(d, vipOnly) && InReach(d)
  }

  // k is the lowest index of a nearest candidate among the first n drivers.
  ghost predicate IsNearest(ds: seq<Driver>, n: nat, vipOnly: bool, k: int)
    requires n <= |ds|
  {
    && 0 <= k < n && Candidate(ds[k], vipOnly)
    && forall j :: 0 <= j < n && Candidate(ds[j], vipOnly) ==>
         DistSq(ds[k]) <= DistSq(ds[j]) && (j < k ==> DistSq(ds[k]) < DistSq(ds[j]))
  }

  lemma {:induction false} NearestIsNearest(ds: seq<Driver>, n: nat, vipOnly: bool)
    requires n <= |ds|
    ensures var k := Nearest(ds, n, vipOnly);
            && (k == -1 <==> forall j :: 0 <= j < n ==> !Candidate(ds[j], vipOnly))
            && (k != -1 ==> IsNearest(ds, n, vipOnly, k))
  {
    if n > 0 {
      NearestIsNearest(ds, n - 1, vipOnly);
    }
  }

  // The choice of a request: nobody exactly when no driver is a candidate; for a VIP in
  // smart mode the nearest candidate rated 4.8 or better whenever there is one; in every
  // other case the nearest candidate.
  lemma ChoiceIsNearest(s: FleetState, isVip: bool)
    requires WellFormed(s)
    ensures var k := Choose(s, isVip);
            var vipOnly := s.mode != 0 && isVip && exists j :: 0 <= j < s.count && Candidate(s.drivers[j], true);
            && (k == -1 <==> forall j :: 0 <= j < s.count ==> !Candidate(s.drivers[j], false))
            && (k != -1 ==> IsNearest(s.drivers, s.count, vipOnly, k))
  {
    NearestIsNearest(s.drivers, s.count, true);
    NearestIsNearest(s.drivers, s.count, false);
    assert forall j :: 0 <= j < s.count && Candidate(s.drivers[j], true) ==> Candidate(s.drivers[j], false);
  }

  // ---------------------------------------------------------------------------
  // In coordinates
  // ---------------------------------------------------------------------------

  // Free, fuelled, within a million degrees of the base, and for a VIP's first choice rated
  // 4.8 or better.
  predicate Takeable(d: Driver, vipOnly: bool) {
    && d.isAvailable && !d.isRefueling && d.fuel > 0 && (vipOnly ==> d.rating >= 48)
    && d.lat * d.lat + d.lon * d.lon < 10_000_000_000 * 10_000_000_000
  }

  lemma CandidatesAreTakeable(d: Driver, vipOnly: bool)
    ensures Candidate(d, vipOnly) <==> Takeable(d, vipOnly)
    ensures DistSq(d) == d.lat * d.lat + d.lon * d.lon
  {}

  lemma NearestInCoordinates(ds: seq<Driver>, n: nat, vipOnly: bool)
    requires n <= |ds|
    ensures var k := Nearest(ds, n, vipOnly);
            && (k == -1 <==> forall j :: 0 <= j < n ==> !Takeable(ds[j], vipOnly))
            && (k != -1 ==>
                  && Takeable(ds[k], vipOnly)
                  && forall j :: 0 <= j < n && Takeable(ds[j], vipOnly) ==>
                       var near, far := ds[k].lat * ds[k].lat + ds[k].lon * ds[k].lon, ds[j].lat * ds[j].lat + ds[j].lon * ds[j].lon;
                       near <= far && (j < k ==> near < far))
  {
    NearestIsNearest(ds, n, vipOnly);
    forall j | 0 <= j < n
      ensures Candidate(ds[j], vipOnly) <==> Takeable(ds[j], vipOnly)
      ensures DistSq(ds[j]) == ds[j].lat * ds[j].lat + ds[j].lon * ds[j].lon
    {
      CandidatesAreTakeable(ds[j], vipOnly);
    }
  }

  // A VIP is a client with an id up to 10; what it is answered is the chosen driver as it
  // is, with its squared distance from the base.
  lemma RequestInCoordinates(s: FleetState, client: int)
    requires WellFormed(s)
    ensures var k := Choose(s, IsVip(client));
            var vipOnly := s.mode != 0 && client <= 10 && exists j :: 0 <= j < s.count && Takeable(s.drivers[j], true);
            && k == Nearest(s.drivers, s.count, vipOnly)
            && (if k == -1 then RideReply(s, client) == NoDrivers
                else
                  var d := s.drivers[k];
                  RideReply(s, client) == Confirmed(d.id, d.rating, d.lat * d.lat + d.lon * d.lon, s.mode == 1))
  {
    NearestInCoordinates(s.drivers, s.count, true);
  }
}
