// The search over its buffer and its closed matrix, in place (src/server/pathfinding.c,
// lines 64-124).
module SearchLoop {
  import opened GridMap
  import opened AStar
  import opened SearchOptimality
  import opened SearchBounds

  // ---------------------------------------------------------------------------
  // The search, in place
  // ---------------------------------------------------------------------------

  ghost predicate Marks(g: Grid, closed: array2<bool>, cells: set<Cell>)
    reads closed
  {
    && closed.Length0 == g.height && closed.Length1 == g.width
    && forall x, y :: 0 <= x < g.width && 0 <= y < g.height ==> (closed[y, x] <==> Cell(x, y) in cells)
  }

  method FindLowest(openList: array<Node>, openCount: nat) returns (currentIndex: int)
    requires openCount <= openList.Length
    ensures currentIndex == Lowest(openList[..openCount], openCount)
  {
    var lowestF := NO_SCORE;
    currentIndex := -1;
    for i := 0 to openCount
      invariant currentIndex == Lowest(openList[..openCount], i)
      invariant lowestF == if currentIndex == -1 then NO_SCORE else openList[currentIndex].fCost
    {
      if openList[i].fCost < lowestF {
        lowestF := openList[i].fCost;
        currentIndex := i;
      }
    }
  }

  // Once the buffer is full, visiting more neighbours adds nothing.
  lemma {:induction false} FullStaysFull(g: Grid, t: Cell, st: SearchState, cap: nat, cur: Node, m: nat, n: nat)
    requires m <= n <= 4 && |Expand(g, t, cap, st, cur, m).open| >= cap
    ensures Expand(g, t, cap, st, cur, n).open == Expand(g, t, cap, st, cur, m).open
    decreases n
  {
    if m < n {
      FullStaysFull(g, t, st, cap, cur, m, n - 1);
    }
  }

  method ExpandNeighbours(g: Grid, t: Cell, openList: array<Node>, count: nat, closed: array2<bool>,
                          current: Node, ghost st: SearchState)
    returns (openCount: nat)
    requires count <= openList.Length && openList[..count] == st.open && Marks(g, closed, st.closed)
    modifies openList
    ensures openCount <= openList.Length
    ensures openList[..openCount] == Expand(g, t, openList.Length, st, current, 4).open
  {
    var dx, dy := [0, 0, -1, 1], [-1, 1, 0, 0];
    openCount := count;
    for i := 0 to 4
      invariant openCount <= openList.Length
      invariant Expand(g, t, openList.Length, st, current, i).closed == st.closed
      invariant openList[..openCount] == Expand(g, t, openList.Length, st, current, i).open
    {
      var c := Cell(current.cell.x + dx[i], current.cell.y + dy[i]);
      assert c == Neighbour(current.cell, i);
      if InBounds(g, c) && !IsObstacle(g, c) && !closed[c.y, c.x] {
        if openCount >= openList.Length {
          FullStaysFull(g, t, st, openList.Length, current, i, 4);
          break;
        }
        openList[openCount] := MakeNode(c, current.gCost + 1, t);
        openCount := openCount + 1;
      }
    }
  }

  ghost predicate AllInBounds(g: Grid, open: seq<Node>) {
    forall n :: n in open ==> InBounds(g, n.cell)
  }

  // One pass moves the search on: same goal, one step less.
  lemma OnePass(g: Grid, t: Cell, cap: nat, steps: nat, st: SearchState, k: nat, st': SearchState, goal: Outcome)
    requires st.open != [] && AllInBounds(g, st.open) && |st.open| <= cap
    requires steps > 0 && k == Lowest(st.open, |st.open|) && st.open[k].cell != t
    requires st' == Pass(g, t, cap, st, k) && SearchOutcome(g, t, cap, steps, st) == goal
    ensures st'.closed == Take(st, k).closed && |st'.open| <= cap && AllInBounds(g, st'.open)
    ensures SearchOutcome(g, t, cap, steps - 1, st') == goal
  {
    RemoveAtKeepsTheOthers(st.open, k);
    ExpandFits(g, t, cap, Take(st, k), st.open[k], 4);
    ExpandAddsChildren(g, t, cap, Take(st, k), st.open[k], 4);
  }

  method TakeEntry(g: Grid, openList: array<Node>, count: nat, closed: array2<bool>, k: nat, ghost st: SearchState)
    returns (current: Node, openCount: nat)
    requires k < count <= openList.Length && openList[..count] == st.open && Marks(g, closed, st.closed)
    requires InBounds(g, st.open[k].cell)
    modifies openList, closed
    ensures current == st.open[k] && openCount == count - 1
    ensures openList[..openCount] == Take(st, k).open && Marks(g, closed, Take(st, k).closed)
  {
    current := openList[k];
    openList[k] := openList[count - 1];
    openCount := count - 1;
    closed[current.cell.y, current.cell.x] := true;
  }

  // The body of the loop: it either ends the search or moves it on by one pass.
  method LoopBody(g: Grid, t: Cell, openList: array<Node>, count: nat, closed: array2<bool>, steps: nat, ghost st: SearchState)
    returns (outcome: Outcome, stop: bool, openCount: nat, ghost next: SearchState)
    requires 0 < count <= openList.Length && openList[..count] == st.open
    requires Marks(g, closed, st.closed) && AllInBounds(g, st.open) && steps > 0
    modifies openList, closed
    ensures stop ==> outcome == SearchOutcome(g, t, openList.Length, steps, st)
    ensures !stop ==>
              && openCount <= openList.Length && openList[..openCount] == next.open
              && Marks(g, closed, next.closed) && AllInBounds(g, next.open)
              && SearchOutcome(g, t, openList.Length, steps - 1, next) == SearchOutcome(g, t, openList.Length, steps, st)
  {
    stop, openCount, next := true, count, st;
    var currentIndex := FindLowest(openList, openCount);
    if currentIndex == -1 {
      outcome := NoCandidate;
      return;
    }
    var current;
    current, openCount := TakeEntry(g, openList, openCount, closed, currentIndex, st);
    if current.cell == t {
      outcome := AtTarget(current.gCost);
      return;
    }
    openCount := ExpandNeighbours(g, t, openList, openCount, closed, current, Take(st, currentIndex));
    stop, outcome, next := false, NoCandidate, Pass(g, t, openList.Length, st, currentIndex);
    OnePass(g, t, openList.Length, steps, st, currentIndex, next, SearchOutcome(g, t, openList.Length, steps, st));
  }

  lemma LoopStops(g: Grid, t: Cell, cap: nat, steps: nat, st: SearchState)
    ensures st.open == [] ==> SearchOutcome(g, t, cap, steps, st) == Exhausted
    ensures st.open != [] && steps == 0 ==> SearchOutcome(g, t, cap, steps, st) == OutOfSteps
  {}

  // The loop over the open buffer and the closed matrix computes `RunSearch`.
  method Search(g: Grid, s: Cell, t: Cell, cap: nat, budget: nat) returns (outcome: Outcome)
    requires InBounds(g, s) && cap > 0
    ensures outcome == SearchOutcome(g, t, cap, budget, Start(s, t))
  {
    hide SearchOutcome;
    var openList := new Node[cap](_ => MakeNode(s, 0, t));
    var closed := new bool[g.height, g.width]((_, _) => false);
    var openCount: nat := 1;
    var steps := budget;
    ghost var st := Start(s, t);
    ghost var goal := SearchOutcome(g, t, cap, budget, st);
    while openCount > 0 && steps > 0
      invariant openCount <= cap && openList[..openCount] == st.open
      invariant Marks(g, closed, st.closed) && AllInBounds(g, st.open)
      invariant SearchOutcome(g, t, cap, steps, st) == goal
      decreases steps
    {
      var stop;
      outcome, stop, openCount, st := LoopBody(g, t, openList, openCount, closed, steps, st);
      if stop {
        return;
      }
      steps := steps - 1;
    }
    LoopStops(g, t, cap, steps, st);
    outcome := if openCount == 0 then Exhausted else OutOfSteps;
  }
}
