// The A* loop of get_next_step_astar (src/server/pathfinding.c, lines 64-124).
//
// `RunSearch` is the loop on values; module SearchLoop has the loop in place, over the open
// buffer and the closed matrix, proved to compute it. Duplicate entries are kept, cells
// are closed when they are taken rather than when they are pushed, and a closed cell that
// is taken again is expanded again, all as in the source.
module AStar {
  import opened GridMap

  const MAX_OPEN_NODES: nat := MAP_WIDTH * MAP_HEIGHT * 5
  const MAX_STEPS: nat := 3000
  const NO_SCORE: int := 999999

  // ---------------------------------------------------------------------------
  // Paths
  // ---------------------------------------------------------------------------

  // A walk of single steps from s to t. Every cell after the first one is free; the
  // first may be a wall, because the search never tests the cell it starts on.
  ghost predicate FreePath(g: Grid, p: seq<Cell>, s: Cell, t: Cell) {
    && |p| > 0 && p[0] == s && p[|p| - 1] == t
    && forall i :: 0 < i < |p| ==> !IsObstacle(g, p[i]) && Manhattan(p[i - 1], p[i]) == 1
  }

  ghost predicate Reachable(g: Grid, s: Cell, t: Cell, n: int) {
    exists p :: FreePath(g, p, s, t) && |p| == n + 1
  }

  ghost predicate AtLeast(g: Grid, s: Cell, t: Cell, n: int) {
    forall p :: FreePath(g, p, s, t) ==> n <= |p| - 1
  }

  ghost predicate IsShortest(g: Grid, s: Cell, t: Cell, n: int) {
    Reachable(g, s, t, n) && AtLeast(g, s, t, n)
  }

  lemma ExtendPath(g: Grid, s: Cell, c: Cell, n: int, i: nat)
    requires i < 4 && Reachable(g, s, c, n) && !IsObstacle(g, Neighbour(c, i))
    ensures Reachable(g, s, Neighbour(c, i), n + 1)
  {
    var p :| FreePath(g, p, s, c) && |p| == n + 1;
    assert FreePath(g, p + [Neighbour(c, i)], s, Neighbour(c, i));
  }

  // The heuristic is consistent: it falls by at most one per step.
  lemma {:induction false} HeuristicAlongPath(g: Grid, p: seq<Cell>, s: Cell, c: Cell, t: Cell, i: nat)
    requires FreePath(g, p, s, c) && i < |p|
    ensures Manhattan(p[i], t) <= Manhattan(c, t) + |p| - 1 - i
    decreases |p| - i
  {
    if i < |p| - 1 {
      HeuristicAlongPath(g, p, s, c, t, i + 1);
      assert Manhattan(p[i], p[i + 1]) == 1;
    }
  }

  // ---------------------------------------------------------------------------
  // The search, on values
  // ---------------------------------------------------------------------------

  datatype Node = Node(cell: Cell, gCost: int, hCost: int, fCost: int, parent: int)

  function MakeNode(c: Cell, gCost: int, t: Cell): Node {
    Node(c, gCost, Manhattan(c, t), gCost + Manhattan(c, t), -1)
  }

  // `dropped` records that the full buffer made the search skip a neighbour.
  datatype SearchState = SearchState(open: seq<Node>, closed: set<Cell>, dropped: bool)

  datatype Outcome =
    | AtTarget(cost: int)  // the target was taken from the open list
    | Exhausted            // the open list ran empty
    | OutOfSteps           // the step budget ran out first
    | NoCandidate          // no entry scored below NO_SCORE

  // Index of the first entry of least score among the first n, or -1.
  function Lowest(open: seq<Node>, n: nat): (k: int)
    requires n <= |open|
    ensures -1 <= k < n
  {
    if n == 0 then -1
    else
      var k := Lowest(open, n - 1);
      if open[n - 1].fCost < (if k == -1 then NO_SCORE else open[k].fCost) then n - 1 else k
  }

  // Removal overwrites the entry with the last one.
  function RemoveAt(open: seq<Node>, k: nat): seq<Node>
    requires k < |open|
  {
    open[k := open[|open| - 1]][..|open| - 1]
  }

  // One neighbour of the cell just taken.
  function Visit(g: Grid, t: Cell, cap: nat, st: SearchState, gCost: int, c: Cell): SearchState {
    if IsObstacle(g, c) || c in st.closed then st
    else if |st.open| >= cap then st.(dropped := true)
    else st.(open := st.open + [MakeNode(c, gCost, t)])
  }

  // The first n neighbours. The loop in the source stops at the first dropped neighbour;
  // carrying on would not differ, since the buffer stays full.
  function Expand(g: Grid, t: Cell, cap: nat, st: SearchState, cur: Node, n: nat): SearchState
    requires n <= 4
  {
    if n == 0 then st
    else Visit(g, t, cap, Expand(g, t, cap, st, cur, n - 1), cur.gCost + 1, Neighbour(cur.cell, n - 1))
  }

  function Take(st: SearchState, k: nat): SearchState
    requires k < |st.open|
  {
    SearchState(RemoveAt(st.open, k), st.closed + {st.open[k].cell}, st.dropped)
  }

  // One pass of the loop that does not end it.
  function Pass(g: Grid, t: Cell, cap: nat, st: SearchState, k: nat): SearchState
    requires k < |st.open|
  {
    Expand(g, t, cap, Take(st, k), st.open[k], 4)
  }

  function RunSearch(g: Grid, t: Cell, cap: nat, steps: nat, st: SearchState): (SearchState, Outcome)
    decreases steps
  {
    if st.open == [] then (st, Exhausted)
    else if steps == 0 then (st, OutOfSteps)
    else
      var k := Lowest(st.open, |st.open|);
      if k == -1 then (st, NoCandidate)
      else
        if st.open[k].cell == t then (Take(st, k), AtTarget(st.open[k].gCost))
        else RunSearch(g, t, cap, steps - 1, Pass(g, t, cap, st, k))
  }

  function SearchOutcome(g: Grid, t: Cell, cap: nat, steps: nat, st: SearchState): Outcome {
    RunSearch(g, t, cap, steps, st).1
  }

  function Start(s: Cell, t: Cell): SearchState {
    SearchState([MakeNode(s, 0, t)], {}, false)
  }
}
