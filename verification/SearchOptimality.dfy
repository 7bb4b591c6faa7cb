// What the search establishes: its costs are those of shortest paths, and when it has run
// out of entries there is no path (src/server/pathfinding.c, lines 64-124).
module SearchOptimality {
  import opened GridMap
  import opened AStar

  // ---------------------------------------------------------------------------
  // What the search establishes
  // ---------------------------------------------------------------------------

  lemma {:induction false} LowestIsLeast(open: seq<Node>, n: nat)
    requires n <= |open|
    ensures var k := Lowest(open, n);
            && (k == -1 ==> forall j :: 0 <= j < n ==> open[j].fCost >= NO_SCORE)
            && (k != -1 ==>
                  && open[k].fCost < NO_SCORE
                  && (forall j :: 0 <= j < n ==> open[k].fCost <= open[j].fCost)
                  && (forall j :: 0 <= j < k ==> open[k].fCost < open[j].fCost))
  {
    if n > 0 {
      LowestIsLeast(open, n - 1);
    }
  }

  // The entry taken has the least cost so far plus Manhattan distance to go.
  lemma TakenHasLeastEstimate(open: seq<Node>, t: Cell)
    requires forall j :: 0 <= j < |open| ==> open[j] == MakeNode(open[j].cell, open[j].gCost, t)
    ensures var k := Lowest(open, |open|);
            if k == -1 then forall j :: 0 <= j < |open| ==> open[j].gCost + Apart(open[j].cell, t) >= 999999
            else forall j :: 0 <= j < |open| ==>
                   var taken, other := open[k].gCost + Apart(open[k].cell, t), open[j].gCost + Apart(open[j].cell, t);
                   taken <= other && (j < k ==> taken < other)
  {
    LowestIsLeast(open, |open|);
    assert forall j :: 0 <= j < |open| ==> open[j].fCost == open[j].gCost + Apart(open[j].cell, t);
  }

  lemma RemoveAtKeepsTheOthers(open: seq<Node>, k: nat)
    requires k < |open|
    ensures var r := RemoveAt(open, k);
            && |r| == |open| - 1
            && (forall j :: 0 <= j < |r| ==> r[j] == open[if j == k then |open| - 1 else j] && r[j] in open)
            && (forall j :: 0 <= j < |open| && j != k ==> open[j] in r)
  {
    var r := RemoveAt(open, k);
    forall j | 0 <= j < |open| && j != k
      ensures open[j] in r
    {
      assert open[j] == r[if j == |open| - 1 then k else j];
    }
  }

  // Every entry carries the length of a real path to its cell.
  ghost predicate GoodNode(g: Grid, s: Cell, t: Cell, n: Node) {
    n == MakeNode(n.cell, n.gCost, t) && InBounds(g, n.cell) && Reachable(g, s, n.cell, n.gCost)
  }

  ghost predicate Offers(open: seq<Node>, c: Cell, most: int) {
    exists n :: n in open && n.cell == c && n.gCost <= most
  }

  // `best` gives, for every closed cell, the cost it was first taken with.
  ghost predicate Covered(st: SearchState, best: map<Cell, int>, c: Cell, most: int) {
    c in best || Offers(st.open, c, most)
  }

  // Free neighbours of c from the i-th on need not be covered yet; all others are.
  ghost predicate NeighboursCovered(g: Grid, st: SearchState, best: map<Cell, int>, c: Cell, upTo: nat)
    requires c in best && upTo <= 4
  {
    forall i: nat :: i < upTo && !IsObstacle(g, Neighbour(c, i)) ==>
      Covered(st, best, Neighbour(c, i), best[c] + 1)
  }

  ghost predicate Optimal(g: Grid, s: Cell, best: map<Cell, int>) {
    forall c :: c in best ==> AtLeast(g, s, c, best[c])
  }

  // The invariant, while the neighbours of `hole` are covered up to index i only.
  ghost predicate InvariantUpTo(g: Grid, s: Cell, t: Cell, st: SearchState, best: map<Cell, int>, hole: Cell, i: nat)
    requires i <= 4
  {
    && best.Keys == st.closed
    && (forall n :: n in st.open ==> GoodNode(g, s, t, n))
    && (!st.dropped ==>
          && Optimal(g, s, best)
          && Covered(st, best, s, 0)
          && (forall c :: c in best && c != hole ==> NeighboursCovered(g, st, best, c, 4))
          && (hole in best ==> NeighboursCovered(g, st, best, hole, i)))
  }

  ghost predicate Invariant(g: Grid, s: Cell, t: Cell, st: SearchState, best: map<Cell, int>) {
    InvariantUpTo(g, s, t, st, best, s, 4)
  }

  // Along any free path to a cell that is not closed, some entry is no more expensive
  // than the path.
  lemma FrontierOnPath(g: Grid, s: Cell, t: Cell, st: SearchState, best: map<Cell, int>, p: seq<Cell>, c: Cell)
    returns (i: nat, n: Node)
    requires Invariant(g, s, t, st, best) && !st.dropped
    requires FreePath(g, p, s, c) && c !in st.closed
    ensures i < |p| && n in st.open && n.cell == p[i] && n.gCost <= i
  {
    i := 0;
    while p[i] in st.closed
      invariant i < |p| && forall j :: 0 <= j < i ==> p[j] in st.closed
      decreases |p| - i
    {
      i := i + 1;
    }
    if i == 0 {
      assert Offers(st.open, s, 0);
      n :| n in st.open && n.cell == s && n.gCost <= 0;
    } else {
      var c' := p[i - 1];
      assert FreePath(g, p[..i], s, c');
      assert AtLeast(g, s, c', best[c']);
      NeighboursAreTheStepsOfLengthOne(c', p[i]);
      var k: nat :| k < 4 && p[i] == Neighbour(c', k);
      assert NeighboursCovered(g, st, best, c', 4);
      assert Covered(st, best, p[i], best[c'] + 1);
      n :| n in st.open && n.cell == p[i] && n.gCost <= best[c'] + 1;
    }
  }

  // The first entry taken for a cell has the length of a shortest path to it.
  lemma FirstTakenIsShortest(g: Grid, s: Cell, t: Cell, st: SearchState, best: map<Cell, int>, k: nat)
    requires Invariant(g, s, t, st, best) && !st.dropped
    requires k == Lowest(st.open, |st.open|) && st.open[k].cell !in st.closed
    ensures IsShortest(g, s, st.open[k].cell, st.open[k].gCost)
  {
    var cur := st.open[k];
    LowestIsLeast(st.open, |st.open|);
    assert GoodNode(g, s, t, cur);
    forall p | FreePath(g, p, s, cur.cell)
      ensures cur.gCost <= |p| - 1
    {
      var i, n := FrontierOnPath(g, s, t, st, best, p, cur.cell);
      HeuristicAlongPath(g, p, s, cur.cell, t, i);
      assert GoodNode(g, s, t, n);
    }
  }

  lemma TakeKeepsInvariant(g: Grid, s: Cell, t: Cell, st: SearchState, best: map<Cell, int>, k: nat)
    returns (best': map<Cell, int>)
    requires Invariant(g, s, t, st, best)
    requires k == Lowest(st.open, |st.open|)
    ensures best' == if st.open[k].cell in best then best else best[st.open[k].cell := st.open[k].gCost]
    ensures InvariantUpTo(g, s, t, Take(st, k), best', st.open[k].cell, if st.open[k].cell in best then 4 else 0)
  {
    var cur := st.open[k];
    var st' := Take(st, k);
    best' := if cur.cell in best then best else best[cur.cell := cur.gCost];
    RemoveAtKeepsTheOthers(st.open, k);
    if !st.dropped {
      if cur.cell !in best {
        FirstTakenIsShortest(g, s, t, st, best, k);
      } else {
        assert GoodNode(g, s, t, cur);
        assert AtLeast(g, s, cur.cell, best[cur.cell]);
      }
      assert Optimal(g, s, best');
      forall c, most | Covered(st, best, c, most)
        ensures Covered(st', best', c, most)
      {
        if c !in best' {
          var n :| n in st.open && n.cell == c && n.gCost <= most;
          assert n in st'.open;
        }
      }
      forall c | c in best' && c != cur.cell
        ensures NeighboursCovered(g, st', best', c, 4)
      {
        assert NeighboursCovered(g, st, best, c, 4);
      }
    }
  }

  lemma PushKeepsInvariant(g: Grid, s: Cell, t: Cell, st: SearchState, best: map<Cell, int>, hole: Cell, i: nat, n: Node)
    requires i <= 4 && InvariantUpTo(g, s, t, st, best, hole, i) && GoodNode(g, s, t, n)
    ensures InvariantUpTo(g, s, t, st.(open := st.open + [n]), best, hole, i)
  {
    var st' := st.(open := st.open + [n]);
    if !st.dropped {
      forall c, most | Covered(st, best, c, most)
        ensures Covered(st', best, c, most)
      {
        if c !in best {
          var m :| m in st.open && m.cell == c && m.gCost <= most;
          assert m in st'.open;
        }
      }
      forall c | c in best && c != hole
        ensures NeighboursCovered(g, st', best, c, 4)
      {
        assert NeighboursCovered(g, st, best, c, 4);
      }
    }
  }

  // Visiting the i-th neighbour of the cell just taken covers it.
  lemma VisitKeepsInvariant(g: Grid, s: Cell, t: Cell, cap: nat, st: SearchState, best: map<Cell, int>, cur: Node, i: nat)
    requires i < 4 && GoodNode(g, s, t, cur) && cur.cell in best
    requires InvariantUpTo(g, s, t, st, best, cur.cell, i)
    requires best[cur.cell] == cur.gCost || InvariantUpTo(g, s, t, st, best, cur.cell, 4)
    ensures var st' := Visit(g, t, cap, st, cur.gCost + 1, Neighbour(cur.cell, i));
            && InvariantUpTo(g, s, t, st', best, cur.cell, i + 1)
            && (best[cur.cell] == cur.gCost || InvariantUpTo(g, s, t, st', best, cur.cell, 4))
  {
    var c := Neighbour(cur.cell, i);
    if !IsObstacle(g, c) && c !in st.closed && |st.open| < cap {
      var n := MakeNode(c, cur.gCost + 1, t);
      ExtendPath(g, s, cur.cell, cur.gCost, i);
      PushKeepsInvariant(g, s, t, st, best, cur.cell, i, n);
      if best[cur.cell] == cur.gCost {
        var st' := st.(open := st.open + [n]);
        assert n in st'.open;
        assert Covered(st', best, c, best[cur.cell] + 1);
      } else {
        PushKeepsInvariant(g, s, t, st, best, cur.cell, 4, n);
      }
    }
  }

  lemma {:induction false} ExpandKeepsInvariant(g: Grid, s: Cell, t: Cell, cap: nat, st: SearchState, best: map<Cell, int>, cur: Node, n: nat)
    requires n <= 4 && GoodNode(g, s, t, cur) && cur.cell in best
    requires InvariantUpTo(g, s, t, st, best, cur.cell, 0)
    requires best[cur.cell] == cur.gCost || InvariantUpTo(g, s, t, st, best, cur.cell, 4)
    ensures var st' := Expand(g, t, cap, st, cur, n);
            && InvariantUpTo(g, s, t, st', best, cur.cell, n)
            && (best[cur.cell] == cur.gCost || InvariantUpTo(g, s, t, st', best, cur.cell, 4))
  {
    if n > 0 {
      ExpandKeepsInvariant(g, s, t, cap, st, best, cur, n - 1);
      VisitKeepsInvariant(g, s, t, cap, Expand(g, t, cap, st, cur, n - 1), best, cur, n - 1);
    }
  }

  lemma StartHasInvariant(g: Grid, s: Cell, t: Cell)
    requires InBounds(g, s)
    ensures Invariant(g, s, t, Start(s, t), map[])
  {
    assert FreePath(g, [s], s, s);
    assert MakeNode(s, 0, t) in Start(s, t).open;
  }

  lemma PassKeepsInvariant(g: Grid, s: Cell, t: Cell, cap: nat, st: SearchState, best: map<Cell, int>, k: nat)
    returns (best': map<Cell, int>)
    requires Invariant(g, s, t, st, best) && k == Lowest(st.open, |st.open|)
    ensures Invariant(g, s, t, Pass(g, t, cap, st, k), best')
  {
    var cur := st.open[k];
    assert GoodNode(g, s, t, cur);
    best' := TakeKeepsInvariant(g, s, t, st, best, k);
    ExpandKeepsInvariant(g, s, t, cap, Take(st, k), best', cur, 4);
  }

  lemma {:induction false} RunSearchFromInvariant(g: Grid, s: Cell, t: Cell, cap: nat, steps: nat, st: SearchState, best: map<Cell, int>)
    requires Invariant(g, s, t, st, best) && t !in st.closed
    ensures var (end, outcome) := RunSearch(g, t, cap, steps, st);
            && (st.dropped ==> end.dropped)
            && (outcome.AtTarget? ==> Reachable(g, s, t, outcome.cost))
            && (outcome.AtTarget? && !end.dropped ==> AtLeast(g, s, t, outcome.cost))
            && (outcome.Exhausted? && !end.dropped ==> forall n :: !Reachable(g, s, t, n))
    decreases steps
  {
    var k := Lowest(st.open, |st.open|);
    if st.open == [] {
      if !st.dropped {
        NothingLeftMeansNoPath(g, s, t, st, best);
      }
    } else if steps > 0 && k != -1 {
      assert GoodNode(g, s, t, st.open[k]);
      if st.open[k].cell != t {
        var best' := PassKeepsInvariant(g, s, t, cap, st, best, k);
        ExpandFits(g, t, cap, Take(st, k), st.open[k], 4);
        RunSearchFromInvariant(g, s, t, cap, steps - 1, Pass(g, t, cap, st, k), best');
      } else if !st.dropped {
        FirstTakenIsShortest(g, s, t, st, best, k);
      }
    }
  }

  lemma NothingLeftMeansNoPath(g: Grid, s: Cell, t: Cell, st: SearchState, best: map<Cell, int>)
    requires Invariant(g, s, t, st, best) && !st.dropped && st.open == [] && t !in st.closed
    ensures forall n :: !Reachable(g, s, t, n)
  {
    forall n | Reachable(g, s, t, n)
      ensures false
    {
      var p :| FreePath(g, p, s, t) && |p| == n + 1;
      var i, e := FrontierOnPath(g, s, t, st, best, p, t);
    }
  }

  // Expanding closes nothing, adds at most four entries, never runs past the buffer, and
  // drops a neighbour only when the buffer is full.
  lemma {:induction false} ExpandFits(g: Grid, t: Cell, cap: nat, st: SearchState, cur: Node, n: nat)
    requires n <= 4
    ensures var st' := Expand(g, t, cap, st, cur, n);
            && st'.closed == st.closed
            && (st.dropped ==> st'.dropped)
            && |st.open| <= |st'.open| <= |st.open| + n
            && (|st.open| <= cap ==> |st'.open| <= cap)
            && (|st.open| + n <= cap ==> st'.dropped == st.dropped)
  {
    if n > 0 {
      ExpandFits(g, t, cap, st, cur, n - 1);
    }
  }

  // Optimality and sound exhaustion, for every map, pair of cells, buffer and budget.
  lemma SearchIsOptimal(g: Grid, s: Cell, t: Cell, cap: nat, steps: nat)
    requires InBounds(g, s)
    ensures var (end, outcome) := RunSearch(g, t, cap, steps, Start(s, t));
            && (outcome.AtTarget? ==> Reachable(g, s, t, outcome.cost))
            && (outcome.AtTarget? && !end.dropped ==> IsShortest(g, s, t, outcome.cost))
            && (outcome.Exhausted? && !end.dropped ==> forall n :: !Reachable(g, s, t, n))
  {
    StartHasInvariant(g, s, t);
    RunSearchFromInvariant(g, s, t, cap, steps, Start(s, t), map[]);
  }
}
