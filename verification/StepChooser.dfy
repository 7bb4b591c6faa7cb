// The greedy half of get_next_step_astar (src/server/pathfinding.c, lines 50-62 and
// 126-152): the step it returns, and why the search does not matter for it.
module StepChooser {
  import opened GridMap
  import opened AStar
  import opened SearchLoop

  // Index of the first free neighbour of least distance to t among the first n, or -1.
  function BestDirection(g: Grid, s: Cell, t: Cell, n: nat): (k: int)
    requires n <= 4
    ensures -1 <= k < n
  {
    if n == 0 then -1
    else
      var k := BestDirection(g, s, t, n - 1);
      var c := Neighbour(s, n - 1);
      if !IsObstacle(g, c) && Manhattan(c, t) < (if k == -1 then NO_SCORE else Manhattan(Neighbour(s, k), t))
      then n - 1 else k
  }

  function NextStep(g: Grid, s: Cell, t: Cell): Cell {
    if s == t || BestDirection(g, s, t, 4) == -1 then s else Neighbour(s, BestDirection(g, s, t, 4))
  }

  lemma {:induction false} BestDirectionIsBest(g: Grid, s: Cell, t: Cell, n: nat)
    requires n <= 4 && InBounds(g, t) && g.width + g.height <= NO_SCORE
    ensures var k := BestDirection(g, s, t, n);
            && (k == -1 <==> forall j: nat :: j < n ==> IsObstacle(g, Neighbour(s, j)))
            && (k != -1 ==>
                  && !IsObstacle(g, Neighbour(s, k))
                  && (forall j: nat :: j < n && !IsObstacle(g, Neighbour(s, j)) ==>
                        && Manhattan(Neighbour(s, k), t) <= Manhattan(Neighbour(s, j), t)
                        && (j < k ==> Manhattan(Neighbour(s, k), t) < Manhattan(Neighbour(s, j), t))))
  {
    if n > 0 {
      BestDirectionIsBest(g, s, t, n - 1);
    }
  }

  // The step is the start, at the target or when walled in; otherwise the first free
  // neighbour of least distance to the target.
  lemma NextStepIsGreedy(g: Grid, s: Cell, t: Cell)
    requires InBounds(g, t) && g.width + g.height <= NO_SCORE
    ensures var next := NextStep(g, s, t);
            && (next == s <==> s == t || forall j: nat :: j < 4 ==> IsObstacle(g, Neighbour(s, j)))
            && (next != s ==>
                  exists k: nat :: k < 4 && next == Neighbour(s, k) && !IsObstacle(g, next)
                    && forall j: nat :: j < 4 && !IsObstacle(g, Neighbour(s, j)) ==>
                         && Manhattan(next, t) <= Manhattan(Neighbour(s, j), t)
                         && (j < k ==> Manhattan(next, t) < Manhattan(Neighbour(s, j), t)))
  {
    BestDirectionIsBest(g, s, t, 4);
  }

  // The same in coordinates: up, down, left and right are tried in this order.
  lemma StepInCoordinates(g: Grid, s: Cell, t: Cell)
    requires InBounds(g, t) && g.width + g.height <= 999999 && s != t
    ensures var next, four := NextStep(g, s, t), [Cell(s.x, s.y - 1), Cell(s.x, s.y + 1), Cell(s.x - 1, s.y), Cell(s.x + 1, s.y)];
            if forall j :: 0 <= j < 4 ==> IsObstacle(g, four[j]) then next == s
            else exists k :: 0 <= k < 4 && next == four[k] && !IsObstacle(g, next)
                   && forall j :: 0 <= j < 4 && !IsObstacle(g, four[j]) ==>
                        Apart(next, t) <= Apart(four[j], t) && (j < k ==> Apart(next, t) < Apart(four[j], t))
  {
    var four := [Cell(s.x, s.y - 1), Cell(s.x, s.y + 1), Cell(s.x - 1, s.y), Cell(s.x + 1, s.y)];
    assert forall j: nat :: j < 4 ==> four[j] == Neighbour(s, j);
    assert forall j :: 0 <= j < 4 ==> Apart(four[j], t) == Manhattan(four[j], t);
    NextStepIsGreedy(g, s, t);
  }

  // A free neighbour lies on the side of the target.
  predicate Unblocked(g: Grid, s: Cell, t: Cell) {
    || (t.x < s.x && !IsObstacle(g, Cell(s.x - 1, s.y)))
    || (t.x > s.x && !IsObstacle(g, Cell(s.x + 1, s.y)))
    || (t.y < s.y && !IsObstacle(g, Cell(s.x, s.y - 1)))
    || (t.y > s.y && !IsObstacle(g, Cell(s.x, s.y + 1)))
  }

  lemma UnblockedMeansCloserNeighbour(g: Grid, s: Cell, t: Cell)
    ensures Unblocked(g, s, t) <==>
            exists j: nat :: j < 4 && !IsObstacle(g, Neighbour(s, j)) && Manhattan(Neighbour(s, j), t) == Manhattan(s, t) - 1
  {
    if Unblocked(g, s, t) {
      var j: nat :=
        if t.x < s.x && !IsObstacle(g, Neighbour(s, 2)) then 2
        else if t.x > s.x && !IsObstacle(g, Neighbour(s, 3)) then 3
        else if t.y < s.y && !IsObstacle(g, Neighbour(s, 0)) then 0
        else 1;
      assert !IsObstacle(g, Neighbour(s, j)) && Manhattan(Neighbour(s, j), t) == Manhattan(s, t) - 1;
    }
  }

  lemma NeighbourDistance(s: Cell, t: Cell, j: nat)
    requires j < 4
    ensures Manhattan(s, Neighbour(s, j)) == 1
    ensures Manhattan(Neighbour(s, j), t) == Manhattan(s, t) - 1 || Manhattan(Neighbour(s, j), t) == Manhattan(s, t) + 1
  {}

  // A step changes the distance by exactly one, and shortens it exactly when a
  // neighbour on the side of the target is free. Otherwise the driver stays where it
  // is or walks away from the target, whatever the search found.
  lemma StepApproachesIffUnblocked(g: Grid, s: Cell, t: Cell)
    requires InBounds(g, t) && g.width + g.height <= NO_SCORE
    ensures var next := NextStep(g, s, t);
            && (Manhattan(next, t) == Manhattan(s, t) - 1 <==> Unblocked(g, s, t))
            && (next != s ==> Manhattan(s, next) == 1)
            && (next != s && !Unblocked(g, s, t) ==> Manhattan(next, t) == Manhattan(s, t) + 1)
  {
    NextStepIsGreedy(g, s, t);
    UnblockedMeansCloserNeighbour(g, s, t);
    var next := NextStep(g, s, t);
    if next != s {
      var k: nat :| k < 4 && next == Neighbour(s, k) && !IsObstacle(g, next);
      NeighbourDistance(s, t, k);
    }
  }

  method GetNextStep(g: Grid, startLat: int, startLon: int, targetLat: int, targetLon: int, cap: nat, budget: nat)
    returns (next: Cell)
    requires g.width > 0 && g.height > 0 && cap > 0
    ensures next == NextStep(g, ClampCell(g, CellOf(startLat, startLon)), ClampCell(g, CellOf(targetLat, targetLon)))
  {
    var s := ClampCell(g, CellOf(startLat, startLon));
    var t := ClampCell(g, CellOf(targetLat, targetLon));
    if s == t {
      return s;
    }
    var _ := Search(g, s, t, cap, budget);

    var dx, dy := [0, 0, -1, 1], [-1, 1, 0, 0];
    var bestDir, minScore := -1, NO_SCORE;
    for i := 0 to 4
      invariant bestDir == BestDirection(g, s, t, i)
      invariant minScore == if bestDir == -1 then NO_SCORE else Manhattan(Neighbour(s, bestDir), t)
    {
      var c := Cell(s.x + dx[i], s.y + dy[i]);
      assert c == Neighbour(s, i);
      if InBounds(g, c) {
        if !IsObstacle(g, c) {
          var score := Manhattan(c, t);
          if score < minScore {
            minScore := score;
            bestDir := i;
          }
        }
      }
    }
    if bestDir != -1 {
      return Cell(s.x + dx[bestDir], s.y + dy[bestDir]);
    }
    return s;
  }
}
