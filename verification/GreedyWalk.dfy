// Where repeated greedy steps lead (src/server/pathfinding.c, lines 126-151): to the
// target, to a walled-in cell, or to two cells that step to each other.
module GreedyWalk {
  import opened GridMap
  import opened AStar
  import opened StepChooser

  predicate GoodGrid(g: Grid, t: Cell) {
    InBounds(g, t) && g.width + g.height <= NO_SCORE
  }

  // The cell after n steps.
  function Walk(g: Grid, s: Cell, t: Cell, n: nat): Cell {
    if n == 0 then s else NextStep(g, Walk(g, s, t, n - 1), t)
  }

  lemma WalkBegins(g: Grid, s: Cell, t: Cell)
    ensures Walk(g, s, t, 0) == s && Walk(g, s, t, 1) == NextStep(g, s, t)
  {
    assert Walk(g, s, t, 1) == NextStep(g, Walk(g, s, t, 0), t);
  }

  lemma {:induction false} WalkSplits(g: Grid, s: Cell, t: Cell, m: nat, n: nat)
    ensures Walk(g, s, t, m + n) == Walk(g, Walk(g, s, t, m), t, n)
  {
    if n > 0 {
      WalkSplits(g, s, t, m, n - 1);
    }
  }

  lemma {:induction false} WalkStaysFree(g: Grid, s: Cell, t: Cell, n: nat)
    requires GoodGrid(g, t) && !IsObstacle(g, s)
    ensures !IsObstacle(g, Walk(g, s, t, n))
  {
    if n > 0 {
      WalkStaysFree(g, s, t, n - 1);
      NextStepIsGreedy(g, Walk(g, s, t, n - 1), t);
    }
  }

  // The neighbour one row nearer the target is free. The step then goes there, because
  // up and down are tried before left and right.
  predicate RowOpen(g: Grid, s: Cell, t: Cell) {
    || (t.y < s.y && !IsObstacle(g, Cell(s.x, s.y - 1)))
    || (t.y > s.y && !IsObstacle(g, Cell(s.x, s.y + 1)))
  }

  // Rows to go first, then whether the next row is open, then columns to go.
  function Rank(g: Grid, s: Cell, t: Cell): nat {
    Abs(s.y - t.y) * (g.width + 1) + if RowOpen(g, s, t) then 0 else 1 + Abs(s.x - t.x)
  }

  lemma {:induction false} TimesGrows(a: nat, b: nat, w: nat)
    requires a < b
    ensures a * w + w <= b * w
    decreases b
  {
    assert b * w == (b - 1) * w + w;
    if a < b - 1 {
      TimesGrows(a, b - 1, w);
    }
  }

  lemma RowsOutweighColumns(g: Grid, s: Cell, t: Cell, next: Cell)
    requires InBounds(g, t) && InBounds(g, next) && Abs(next.y - t.y) < Abs(s.y - t.y)
    ensures Rank(g, next, t) < Rank(g, s, t)
  {
    TimesGrows(Abs(next.y - t.y), Abs(s.y - t.y), g.width + 1);
  }

  // With the next row open, the step is into it.
  lemma OpenRowIsTaken(g: Grid, s: Cell, t: Cell)
    requires GoodGrid(g, t) && RowOpen(g, s, t)
    ensures var next := NextStep(g, s, t); Abs(next.y - t.y) < Abs(s.y - t.y) && !IsObstacle(g, next)
  {
    var k: nat := if t.y < s.y then 0 else 1;
    BestDirectionIsBest(g, s, t, 4);
    assert !IsObstacle(g, Neighbour(s, k)) && Manhattan(Neighbour(s, k), t) == Manhattan(s, t) - 1;
  }

  // Otherwise a step that comes closer is along the row.
  lemma CloserStepAlongRow(g: Grid, s: Cell, t: Cell)
    requires GoodGrid(g, t) && !RowOpen(g, s, t) && Unblocked(g, s, t)
    ensures var next := NextStep(g, s, t); next.y == s.y && Abs(next.x - t.x) < Abs(s.x - t.x)
  {
    StepApproachesIffUnblocked(g, s, t);
    NextStepIsGreedy(g, s, t);
  }

  // A step away that leaves the row comes straight back; one along the row comes back
  // too, unless it has found the next row open.
  lemma StepAwayComesBack(g: Grid, s: Cell, t: Cell)
    requires GoodGrid(g, t) && !IsObstacle(g, s) && NextStep(g, s, t) != s && !Unblocked(g, s, t)
    ensures var next := NextStep(g, s, t);
            NextStep(g, next, t) == s || (next.y == s.y && RowOpen(g, next, t))
  {
    var next := NextStep(g, s, t);
    StepApproachesIffUnblocked(g, s, t);
    NextStepIsGreedy(g, s, t);
    var k: nat :| k < 4 && next == Neighbour(s, k) && !IsObstacle(g, next);
    var back: nat := match k case 0 => 1 case 1 => 0 case 2 => 3 case _ => 2;
    assert Neighbour(next, back) == s;
    if k < 2 || !RowOpen(g, next, t) {
      BestDirectionIsBest(g, next, t, 4);
      forall j: nat | j < 4 && j != back && !IsObstacle(g, Neighbour(next, j))
        ensures Manhattan(Neighbour(next, j), t) > Manhattan(s, t) || j > back
      {
        NeighbourDistance(next, t, j);
      }
    }
  }

  lemma StepSettlesOrDescends(g: Grid, s: Cell, t: Cell)
    requires GoodGrid(g, t) && !IsObstacle(g, s)
    ensures var next := NextStep(g, s, t);
            next == s || NextStep(g, next, t) == s || Rank(g, next, t) < Rank(g, s, t)
  {
    var next := NextStep(g, s, t);
    if next != s {
      WalkStaysFree(g, s, t, 1);
      if RowOpen(g, s, t) {
        OpenRowIsTaken(g, s, t);
        RowsOutweighColumns(g, s, t, next);
      } else if Unblocked(g, s, t) {
        CloserStepAlongRow(g, s, t);
      } else {
        StepAwayComesBack(g, s, t);
      }
    }
  }

  // Every walk over free cells stops at its target or walled in, or meets two cells that
  // step to each other, after at most Rank steps.
  lemma {:induction false} WalkSettles(g: Grid, s: Cell, t: Cell) returns (n: nat)
    requires GoodGrid(g, t) && !IsObstacle(g, s)
    ensures n <= Rank(g, s, t)
    ensures var c := Walk(g, s, t, n);
            || c == t
            || (forall j: nat :: j < 4 ==> IsObstacle(g, Neighbour(c, j)))
            || (Walk(g, s, t, n + 1) != c && Walk(g, s, t, n + 2) == c)
    decreases Rank(g, s, t)
  {
    var next := NextStep(g, s, t);
    NextStepIsGreedy(g, s, t);
    StepSettlesOrDescends(g, s, t);
    if next == s || NextStep(g, next, t) == s {
      n := 0;
      assert Walk(g, s, t, 1) == next && Walk(g, s, t, 2) == NextStep(g, Walk(g, s, t, 1), t);
    } else {
      WalkStaysFree(g, s, t, 1);
      var m := WalkSettles(g, next, t);
      n := m + 1;
      assert Walk(g, s, t, 1) == next;
      WalkSplits(g, s, t, 1, m);
      WalkSplits(g, s, t, 1, m + 1);
      WalkSplits(g, s, t, 1, m + 2);
    }
  }

  function SettleTime(g: Grid): nat {
    g.height * (g.width + 1) + 2
  }

  lemma RankIsBounded(g: Grid, s: Cell, t: Cell)
    requires InBounds(g, s) && InBounds(g, t)
    ensures Rank(g, s, t) + 2 < SettleTime(g)
  {
    TimesGrows(Abs(s.y - t.y), g.height, g.width + 1);
  }

  // And two cells that step to each other are never left.
  lemma {:induction false} PairIsKept(g: Grid, s: Cell, t: Cell, n: nat)
    requires NextStep(g, NextStep(g, s, t), t) == s
    ensures Walk(g, s, t, n) == if n % 2 == 0 then s else NextStep(g, s, t)
  {
    if n > 0 {
      PairIsKept(g, s, t, n - 1);
    }
  }

  lemma PairIsKeptFrom(g: Grid, s: Cell, t: Cell, m: nat, n: nat)
    requires Walk(g, s, t, m + 2) == Walk(g, s, t, m)
    ensures Walk(g, s, t, m + n) == if n % 2 == 0 then Walk(g, s, t, m) else Walk(g, s, t, m + 1)
  {
    var a := Walk(g, s, t, m);
    WalkBegins(g, a, t);
    WalkSplits(g, s, t, m, 1);
    WalkSplits(g, s, t, m, 2);
    WalkSplits(g, s, t, m, n);
    PairIsKept(g, a, t, n);
  }
}
