// The rate limiter against the full history of calls
// (src/server/resource_service.c, lines 59-87).
module RateLimit {
  import opened GridMap
  import opened Fleet

  // The calls in the order the lock admitted them.
  datatype Call = Call(client: int, now: int)

  function AfterCalls(s: FleetState, calls: seq<Call>): (s': FleetState)
    requires WellFormed(s)
    ensures WellFormed(s')
  {
    if calls == [] then s
    else
      var c := calls[|calls| - 1];
      RateCheck(AfterCalls(s, calls[..|calls| - 1]), c.client, c.now)
  }

  // The verdict on a call that comes after `calls`.
  predicate IsBlocked(s: FleetState, calls: seq<Call>, c: Call)
    requires WellFormed(s)
  {
    Spam(AfterCalls(s, calls + [c]), c.client)
  }

  predicate Fresh(s: FleetState)
    requires WellFormed(s)
  {
    forall i :: 0 <= i < MAX_CLIENTS ==> s.lastSeen[i] == 0 && s.reqCount[i] == 0
  }

  lemma StartIsFresh(n: nat, mode: int, rolls: seq<StartRolls>)
    requires n <= MAX_DRIVERS && |rolls| == n
    ensures Fresh(InitialFleet(n, mode, rolls))
  {}

  // How many calls the client made in second t.
  function CallsIn(calls: seq<Call>, client: int, t: int): nat {
    if calls == [] then 0
    else
      var c := calls[|calls| - 1];
      CallsIn(calls[..|calls| - 1], client, t) + if c.client == client && c.now == t then 1 else 0
  }

  // How many of the client's most recent calls, without a break, were in second t.
  function RunIn(calls: seq<Call>, client: int, t: int): nat {
    if calls == [] then 0
    else
      var c := calls[|calls| - 1];
      if c.client != client then RunIn(calls[..|calls| - 1], client, t)
      else if c.now == t then RunIn(calls[..|calls| - 1], client, t) + 1
      else 0
  }

  // The two arrays hold the second and the length of the run the client is in.
  lemma {:induction false} ArraysHoldTheRun(s: FleetState, calls: seq<Call>, client: int)
    requires WellFormed(s) && Fresh(s) && Limited(client)
    ensures var s' := AfterCalls(s, calls);
            && s'.reqCount[client] == RunIn(calls, client, s'.lastSeen[client])
            && forall t :: t != s'.lastSeen[client] ==> RunIn(calls, client, t) == 0
  {
    if calls != [] {
      ArraysHoldTheRun(s, calls[..|calls| - 1], client);
    }
  }

  // For any clock readings: a call is blocked exactly when the client's last three calls
  // before it, at least, were in the same second as it.
  lemma BlockedIffRun(s: FleetState, calls: seq<Call>, c: Call)
    requires WellFormed(s) && Fresh(s)
    ensures IsBlocked(s, calls, c) <==> 0 < c.client < 2000 && RunIn(calls, c.client, c.now) >= 3
  {
    if Limited(c.client) {
      assert (calls + [c])[..|calls|] == calls;
      ArraysHoldTheRun(s, calls, c.client);
    }
  }

  // The client's own readings never go back.
  predicate Monotone(calls: seq<Call>, client: int) {
    forall i, j :: 0 <= i < j < |calls| && calls[i].client == client && calls[j].client == client ==>
      calls[i].now <= calls[j].now
  }

  lemma {:induction false} NoLaterCalls(calls: seq<Call>, client: int, t: int)
    requires forall i :: 0 <= i < |calls| && calls[i].client == client ==> calls[i].now < t
    ensures CallsIn(calls, client, t) == 0
  {
    if calls != [] {
      NoLaterCalls(calls[..|calls| - 1], client, t);
    }
  }

  lemma {:induction false} RunIsAllWhenMonotone(calls: seq<Call>, client: int, t: int)
    requires Monotone(calls, client)
    requires forall i :: 0 <= i < |calls| && calls[i].client == client ==> calls[i].now <= t
    ensures RunIn(calls, client, t) == CallsIn(calls, client, t)
  {
    if calls != [] {
      var before, c := calls[..|calls| - 1], calls[|calls| - 1];
      RunIsAllWhenMonotone(before, client, t);
      if c.client == client && c.now < t {
        NoLaterCalls(before, client, t);
      }
    }
  }

  // When the client's readings do not go back, a call is blocked exactly when the client
  // has already made three calls in that second.
  lemma BlockedIffThreeInSecond(s: FleetState, calls: seq<Call>, c: Call)
    requires WellFormed(s) && Fresh(s) && Monotone(calls + [c], c.client)
    ensures IsBlocked(s, calls, c) <==> 0 < c.client < 2000 && CallsIn(calls, c.client, c.now) >= 3
  {
    BlockedIffRun(s, calls, c);
    var all := calls + [c];
    assert all[|calls|] == c;
    forall i | 0 <= i < |calls| && calls[i].client == c.client
      ensures calls[i].now <= c.now
    {
      assert all[i] == calls[i];
    }
    forall i, j | 0 <= i < j < |calls| && calls[i].client == c.client && calls[j].client == c.client
      ensures calls[i].now <= calls[j].now
    {
      assert all[i] == calls[i] && all[j] == calls[j];
    }
    RunIsAllWhenMonotone(calls, c.client, c.now);
  }

  // Calls let through for a client in second t.
  function AllowedIn(s: FleetState, calls: seq<Call>, client: int, t: int): nat
    requires WellFormed(s)
  {
    if calls == [] then 0
    else
      var before, c := calls[..|calls| - 1], calls[|calls| - 1];
      AllowedIn(s, before, client, t) + if c.client == client && c.now == t && !IsBlocked(s, before, c) then 1 else 0
  }

  // The lengths of the client's unbroken runs of calls in second t, oldest first.
  function RunsIn(calls: seq<Call>, client: int, t: int): seq<nat> {
    if calls == [] then []
    else
      var before, c := calls[..|calls| - 1], calls[|calls| - 1];
      var runs := RunsIn(before, client, t);
      if c.client != client || c.now != t then runs
      else if RunIn(before, client, t) == 0 || runs == [] then runs + [1]
      else runs[..|runs| - 1] + [runs[|runs| - 1] + 1]
  }

  function Capped(n: nat): nat {
    if n < 3 then n else 3
  }

  function Sum(runs: seq<nat>): nat {
    if runs == [] then 0 else Sum(runs[..|runs| - 1]) + runs[|runs| - 1]
  }

  function SumCapped(runs: seq<nat>): nat {
    if runs == [] then 0 else SumCapped(runs[..|runs| - 1]) + Capped(runs[|runs| - 1])
  }

  lemma SumsSplit(runs: seq<nat>, n: nat)
    ensures Sum(runs + [n]) == Sum(runs) + n && SumCapped(runs + [n]) == SumCapped(runs) + Capped(n)
  {
    assert (runs + [n])[..|runs|] == runs;
  }

  // The run under way is the last of the runs, and the runs make up all the calls.
  lemma {:induction false} RunsAreTheCalls(calls: seq<Call>, client: int, t: int)
    ensures var runs := RunsIn(calls, client, t);
            && (RunIn(calls, client, t) > 0 ==> runs != [] && runs[|runs| - 1] == RunIn(calls, client, t))
            && Sum(runs) == CallsIn(calls, client, t)
  {
    if calls != [] {
      var before := calls[..|calls| - 1];
      var runs := RunsIn(before, client, t);
      RunsAreTheCalls(before, client, t);
      SumsSplit(runs, 1);
      if runs != [] {
        SumsSplit(runs[..|runs| - 1], runs[|runs| - 1] + 1);
      }
    }
  }

  lemma LastRunGrows(runs: seq<nat>)
    requires runs != []
    ensures var n := |runs| - 1;
            SumCapped(runs[..n] + [runs[n] + 1]) == SumCapped(runs) + if runs[n] < 3 then 1 else 0
  {
    var before, last := runs[..|runs| - 1], runs[|runs| - 1];
    SumsSplit(before, last);
    SumsSplit(before, last + 1);
    hide Sum, SumCapped;
    assert before + [last] == runs;
  }

  // For any clock readings: of each unbroken run in a second, the first three calls are
  // let through and no others.
  lemma {:induction false} AllowedByRuns(s: FleetState, calls: seq<Call>, client: int, t: int)
    requires WellFormed(s) && Fresh(s) && Limited(client)
    ensures AllowedIn(s, calls, client, t) == SumCapped(RunsIn(calls, client, t))
  {
    if calls != [] {
      var before, c := calls[..|calls| - 1], calls[|calls| - 1];
      var runs := RunsIn(before, client, t);
      AllowedByRuns(s, before, client, t);
      if c.client == client && c.now == t {
        RunsAreTheCalls(before, client, t);
        BlockedIffRun(s, before, c);
        SumsSplit(runs, 1);
        hide Fresh, Limited, IsBlocked, RunIn, Sum, SumCapped;
        if runs != [] {
          LastRunGrows(runs);
        }
      }
    }
  }

  // Readings that do not go back make one run of a second, or none.
  lemma {:induction false} MonotoneMakesOneRun(calls: seq<Call>, client: int, t: int)
    requires Monotone(calls, client)
    ensures |RunsIn(calls, client, t)| <= 1
  {
    if calls != [] {
      var before, c := calls[..|calls| - 1], calls[|calls| - 1];
      MonotoneMakesOneRun(before, client, t);
      if c.client == client && c.now == t {
        RunIsAllWhenMonotone(before, client, t);
        RunsAreTheCalls(before, client, t);
        NoRunsWithoutCalls(before, client, t);
      }
    }
  }

  lemma {:induction false} NoRunsWithoutCalls(calls: seq<Call>, client: int, t: int)
    ensures RunsIn(calls, client, t) == [] <==> CallsIn(calls, client, t) == 0
  {
    if calls != [] {
      NoRunsWithoutCalls(calls[..|calls| - 1], client, t);
    }
  }

  // So with such readings at most three calls of a client are let through in one second,
  // and no call is refused while fewer have been made.
  lemma AllowedIsCapped(s: FleetState, calls: seq<Call>, client: int, t: int)
    requires WellFormed(s) && Fresh(s) && Limited(client) && Monotone(calls, client)
    ensures AllowedIn(s, calls, client, t) == Capped(CallsIn(calls, client, t))
  {
    AllowedByRuns(s, calls, client, t);
    MonotoneMakesOneRun(calls, client, t);
    RunsAreTheCalls(calls, client, t);
    var runs := RunsIn(calls, client, t);
    if runs != [] {
      assert runs[..0] == [];
    }
  }

  // The promise of at most three a second is kept exactly when the client makes no more
  // than three calls in that second, or makes them all in one unbroken run.
  lemma PromiseKeptIff(s: FleetState, calls: seq<Call>, client: int, t: int)
    requires WellFormed(s) && Fresh(s) && Limited(client)
    ensures AllowedIn(s, calls, client, t) <= 3 <==> CallsIn(calls, client, t) <= 3 || |RunsIn(calls, client, t)| <= 1
  {
    AllowedByRuns(s, calls, client, t);
    RunsAreTheCalls(calls, client, t);
    CappedSums(calls, client, t);
  }

  lemma {:induction false} RunsArePositive(calls: seq<Call>, client: int, t: int)
    ensures forall i :: 0 <= i < |RunsIn(calls, client, t)| ==> RunsIn(calls, client, t)[i] > 0
  {
    if calls != [] {
      RunsArePositive(calls[..|calls| - 1], client, t);
    }
  }

  lemma {:induction false} SumCappedBounds(runs: seq<nat>)
    requires forall i :: 0 <= i < |runs| ==> runs[i] > 0
    ensures |runs| <= SumCapped(runs) <= Sum(runs)
    ensures SumCapped(runs) < Sum(runs) ==> SumCapped(runs) >= 3 + |runs| - 1
  {
    if runs != [] {
      SumCappedBounds(runs[..|runs| - 1]);
    }
  }

  lemma CappedSums(calls: seq<Call>, client: int, t: int)
    ensures var runs := RunsIn(calls, client, t);
            SumCapped(runs) <= 3 <==> Sum(runs) <= 3 || |runs| <= 1
  {
    var runs := RunsIn(calls, client, t);
    RunsArePositive(calls, client, t);
    SumCappedBounds(runs);
    if |runs| == 1 {
      assert runs[..0] == [];
    }
  }

  // Nothing enforces either: a reading taken before the lock may arrive late, and then a
  // fourth call in the same second is let through.
  lemma LateReadingSlipsThrough(s: FleetState)
    requires WellFormed(s) && Fresh(s)
    ensures var calls := [Call(1, 5), Call(1, 5), Call(1, 5), Call(1, 6)];
            CallsIn(calls, 1, 5) == 3 && !IsBlocked(s, calls, Call(1, 5))
  {
    var c := Call(1, 5);
    var one, two, three := [c], [c, c], [c, c, c];
    var calls := [c, c, c, Call(1, 6)];
    assert one[..0] == [] && two[..1] == one && three[..2] == two && calls[..3] == three;
    assert CallsIn(one, 1, 5) == 1 && CallsIn(two, 1, 5) == 2 && CallsIn(three, 1, 5) == 3;
    BlockedIffRun(s, calls, c);
  }

  // The other critical sections leave the limiter alone: over a whole run of the system
  // its arrays are those of the calls among the sections.
  function CallsOf(ops: seq<Op>): seq<Call> {
    if ops == [] then []
    else
      var op := ops[|ops| - 1];
      CallsOf(ops[..|ops| - 1]) + if op.RateOp? then [Call(op.client, op.now)] else []
  }

  predicate SameArrays(s: FleetState, s': FleetState) {
    s.lastSeen == s'.lastSeen && s.reqCount == s'.reqCount
  }

  lemma SectionOnArrays(g: Grid, s: FleetState, s': FleetState, op: Op)
    requires WellFormed(s) && WellFormed(s') && SameArrays(s, s')
    ensures SameArrays(Apply(g, s, op), if op.RateOp? then RateCheck(s', op.client, op.now) else s')
  {}

  lemma {:induction false} RunLimitsByCallsAlone(g: Grid, s: FleetState, ops: seq<Op>)
    requires WellFormed(s)
    ensures Run(g, s, ops).lastSeen == AfterCalls(s, CallsOf(ops)).lastSeen
    ensures Run(g, s, ops).reqCount == AfterCalls(s, CallsOf(ops)).reqCount
  {
    hide Apply, RateCheck;
    if ops != [] {
      var before, op := ops[..|ops| - 1], ops[|ops| - 1];
      RunLimitsByCallsAlone(g, s, before);
      SectionOnArrays(g, Run(g, s, before), AfterCalls(s, CallsOf(before)), op);
      if op.RateOp? {
        assert CallsOf(ops)[..|CallsOf(before)|] == CallsOf(before);
      } else {
        assert CallsOf(ops) == CallsOf(before);
      }
    }
  }
}
