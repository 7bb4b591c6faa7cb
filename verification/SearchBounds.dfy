// How far the search goes: its costs stay small, its buffer suffices, and it settles
// (src/server/pathfinding.c, lines 64-124).
module SearchBounds {
  import opened GridMap
  import opened AStar
  import opened SearchOptimality

  // ---------------------------------------------------------------------------
  // Costs stay small, and the search settles
  // ---------------------------------------------------------------------------

  ghost function Block(width: nat, height: nat): set<Cell> {
    set x, y | 0 <= x < width && 0 <= y < height :: Cell(x, y)
  }

  ghost function Column(x: int, height: nat): set<Cell> {
    set y | 0 <= y < height :: Cell(x, y)
  }

  ghost function Cells(g: Grid): set<Cell> {
    Block(g.width, g.height)
  }

  lemma {:induction false} ColumnCount(x: int, height: nat)
    ensures |Column(x, height)| == height
  {
    if height == 0 {
      assert Column(x, height) == {};
    } else {
      ColumnCount(x, height - 1);
      assert Column(x, height) == Column(x, height - 1) + {Cell(x, height - 1)};
    }
  }

  lemma BlockSplits(width: nat, height: nat)
    requires width > 0
    ensures Block(width, height) == Block(width - 1, height) + Column(width - 1, height)
    ensures Block(width - 1, height) !! Column(width - 1, height)
  {}

  lemma {:induction false} BlockCount(width: nat, height: nat)
    ensures |Block(width, height)| == width * height
  {
    if width == 0 {
      assert Block(width, height) == {};
    } else {
      BlockSplits(width, height);
      BlockCount(width - 1, height);
      ColumnCount(width - 1, height);
      assert (width - 1) * height + height == width * height;
    }
  }

  lemma SubsetCount<T>(a: set<T>, b: set<T>)
    requires a <= b
    ensures |a| <= |b|
  {
    assert b == a + (b - a);
  }

  // A cell is pushed only while it is not closed, and its parent is closed by then. So
  // the cells behind an entry are distinct closed cells, and there are gCost of them.
  ghost predicate Modest(g: Grid, t: Cell, closed: set<Cell>, n: Node) {
    n == MakeNode(n.cell, n.gCost, t) && InBounds(g, n.cell) && n.gCost <= |closed - {n.cell}|
  }

  ghost predicate AllModest(g: Grid, t: Cell, open: seq<Node>, closed: set<Cell>) {
    closed <= Cells(g) && forall n :: n in open ==> Modest(g, t, closed, n)
  }

  ghost predicate Child(g: Grid, t: Cell, closed: set<Cell>, cur: Node, n: Node) {
    n == MakeNode(n.cell, cur.gCost + 1, t) && InBounds(g, n.cell) && n.cell !in closed
  }

  lemma {:induction false} ExpandAddsChildren(g: Grid, t: Cell, cap: nat, st: SearchState, cur: Node, n: nat)
    requires n <= 4
    ensures var st' := Expand(g, t, cap, st, cur, n);
            && st'.closed == st.closed
            && forall m :: m in st'.open ==> m in st.open || Child(g, t, st.closed, cur, m)
  {
    if n > 0 {
      ExpandAddsChildren(g, t, cap, st, cur, n - 1);
    }
  }

  lemma TakeKeepsModest(g: Grid, t: Cell, st: SearchState, k: nat)
    requires AllModest(g, t, st.open, st.closed) && k < |st.open|
    ensures AllModest(g, t, Take(st, k).open, Take(st, k).closed)
    ensures st.open[k].gCost <= |Take(st, k).closed - {st.open[k].cell}|
  {
    var st' := Take(st, k);
    var c := st.open[k].cell;
    assert Modest(g, t, st.closed, st.open[k]);
    assert st'.closed - {c} == st.closed - {c};
    RemoveAtKeepsTheOthers(st.open, k);
    forall n | n in st'.open
      ensures Modest(g, t, st'.closed, n)
    {
      assert Modest(g, t, st.closed, n);
      SubsetCount(st.closed - {n.cell}, st'.closed - {n.cell});
    }
  }

  lemma PassKeepsModest(g: Grid, t: Cell, cap: nat, st: SearchState, k: nat)
    requires AllModest(g, t, st.open, st.closed) && k < |st.open|
    ensures AllModest(g, t, Pass(g, t, cap, st, k).open, Pass(g, t, cap, st, k).closed)
  {
    var cur := st.open[k];
    var st1, st2 := Take(st, k), Pass(g, t, cap, st, k);
    TakeKeepsModest(g, t, st, k);
    ExpandAddsChildren(g, t, cap, st1, cur, 4);
    forall n | n in st2.open
      ensures Modest(g, t, st2.closed, n)
    {
      if n !in st1.open {
        assert st1.closed - {n.cell} == st1.closed == (st1.closed - {cur.cell}) + {cur.cell};
      }
    }
  }

  lemma ModestScore(g: Grid, t: Cell, st: SearchState, n: Node)
    requires InBounds(g, t) && AllModest(g, t, st.open, st.closed) && n in st.open
    requires g.width * g.height + g.width + g.height <= NO_SCORE
    ensures n.fCost < NO_SCORE
  {
    assert Modest(g, t, st.closed, n);
    BlockCount(g.width, g.height);
    SubsetCount(st.closed - {n.cell}, Cells(g));
    assert n.hCost <= g.width + g.height - 2;
  }

  lemma {:induction false} SomeEntryQualifies(g: Grid, t: Cell, cap: nat, steps: nat, st: SearchState)
    requires InBounds(g, t) && AllModest(g, t, st.open, st.closed)
    requires g.width * g.height + g.width + g.height <= NO_SCORE
    ensures !RunSearch(g, t, cap, steps, st).1.NoCandidate?
    decreases steps
  {
    if st.open != [] {
      var k := Lowest(st.open, |st.open|);
      LowestIsLeast(st.open, |st.open|);
      ModestScore(g, t, st, st.open[0]);
      if steps > 0 && st.open[k].cell != t {
        PassKeepsModest(g, t, cap, st, k);
        SomeEntryQualifies(g, t, cap, steps - 1, Pass(g, t, cap, st, k));
      }
    }
  }

  // The loop never leaves by the "no candidate" break, whatever the budget.
  lemma NoCandidateIsUnreachable(g: Grid, s: Cell, t: Cell, cap: nat, steps: nat)
    requires InBounds(g, s) && InBounds(g, t)
    requires g.width * g.height + g.width + g.height <= NO_SCORE
    ensures !RunSearch(g, t, cap, steps, Start(s, t)).1.NoCandidate?
  {
    SomeEntryQualifies(g, t, cap, steps, Start(s, t));
  }

  // How many entries sit on closed cells. Taking one of those closes nothing new.
  ghost function Stale(open: seq<Node>, closed: set<Cell>): nat {
    if open == [] then 0
    else Stale(open[..|open| - 1], closed) + if open[|open| - 1].cell in closed then 1 else 0
  }

  lemma {:induction false} StaleAtMostAll(open: seq<Node>, closed: set<Cell>)
    ensures Stale(open, closed) <= |open|
  {
    if open != [] {
      StaleAtMostAll(open[..|open| - 1], closed);
    }
  }

  lemma {:induction false} StaleAfterUpdate(open: seq<Node>, closed: set<Cell>, k: nat, n: Node)
    requires k < |open|
    ensures Stale(open[k := n], closed) + (if open[k].cell in closed then 1 else 0)
         == Stale(open, closed) + (if n.cell in closed then 1 else 0)
  {
    var last := |open| - 1;
    if k < last {
      StaleAfterUpdate(open[..last], closed, k, n);
      assert open[k := n][..last] == open[..last][k := n];
    } else {
      assert open[k := n][..last] == open[..last];
    }
  }

  lemma {:induction false} ExpandAddsNothingStale(g: Grid, t: Cell, cap: nat, st: SearchState, cur: Node, n: nat)
    requires n <= 4
    ensures var st' := Expand(g, t, cap, st, cur, n);
            st'.closed == st.closed && Stale(st'.open, st.closed) == Stale(st.open, st.closed)
  {
    if n > 0 {
      ExpandAddsNothingStale(g, t, cap, st, cur, n - 1);
      var before, after := Expand(g, t, cap, st, cur, n - 1).open, Expand(g, t, cap, st, cur, n).open;
      if |after| > |before| {
        assert after[..|after| - 1] == before;
      }
    }
  }

  // Steps that suffice with `unclosed` cells left, `size` entries and `stale` stale ones.
  ghost function Enough(unclosed: nat, size: nat, stale: nat): nat
    decreases unclosed, stale
  {
    1 + (if stale > 0 then Enough(unclosed, size + 3, stale - 1) else 0)
      + (if unclosed > 0 then Enough(unclosed - 1, size + 3, size + 3) else 0)
  }

  lemma {:induction false} EnoughGrows(unclosed: nat, size: nat, stale: nat, size': nat, stale': nat)
    requires size <= size' && stale <= stale'
    ensures Enough(unclosed, size, stale) <= Enough(unclosed, size', stale')
    decreases unclosed, stale
  {
    if stale > 0 {
      EnoughGrows(unclosed, size + 3, stale - 1, size' + 3, stale' - 1);
    }
    if unclosed > 0 {
      EnoughGrows(unclosed - 1, size + 3, size + 3, size' + 3, size' + 3);
    }
  }

  ghost function StepsFor(g: Grid, st: SearchState): nat {
    Enough(|Cells(g) - st.closed|, |st.open|, Stale(st.open, st.closed))
  }

  lemma TakeStaleEntry(g: Grid, t: Cell, cap: nat, st: SearchState, k: nat)
    requires k < |st.open| && st.open[k].cell in st.closed
    ensures var st' := Pass(g, t, cap, st, k);
            && st'.closed == st.closed
            && |st'.open| <= |st.open| + 3
            && Stale(st'.open, st'.closed) == Stale(st.open, st.closed) - 1
  {
    var st1 := Take(st, k);
    var last := st.open[|st.open| - 1];
    assert st1.closed == st.closed;
    ExpandFits(g, t, cap, st1, st.open[k], 4);
    ExpandAddsNothingStale(g, t, cap, st1, st.open[k], 4);
    StaleAfterUpdate(st.open, st.closed, k, last);
    assert st.open[k := last][|st.open| - 1] == last;
  }

  lemma TakeNewCell(g: Grid, t: Cell, cap: nat, st: SearchState, k: nat)
    requires k < |st.open| && st.open[k].cell in Cells(g) - st.closed
    ensures var st' := Pass(g, t, cap, st, k);
            && |Cells(g) - st'.closed| == |Cells(g) - st.closed| - 1
            && |st'.open| <= |st.open| + 3
            && Stale(st'.open, st'.closed) <= |st.open| + 3
  {
    var c := st.open[k].cell;
    var st' := Pass(g, t, cap, st, k);
    ExpandFits(g, t, cap, Take(st, k), st.open[k], 4);
    assert Cells(g) - st'.closed == (Cells(g) - st.closed) - {c};
    StaleAtMostAll(st'.open, st'.closed);
  }

  // One pass of the loop body uses up at least one of the steps that suffice.
  lemma PassNeedsFewer(g: Grid, t: Cell, cap: nat, st: SearchState, k: nat)
    requires k < |st.open| && st.open[k].cell in Cells(g)
    ensures StepsFor(g, Pass(g, t, cap, st, k)) < StepsFor(g, st)
  {
    var u, o, c := |Cells(g) - st.closed|, |st.open|, Stale(st.open, st.closed);
    var st' := Pass(g, t, cap, st, k);
    var c' := Stale(st'.open, st'.closed);
    if st.open[k].cell in st.closed {
      TakeStaleEntry(g, t, cap, st, k);
      EnoughGrows(u, |st'.open|, c', o + 3, c - 1);
    } else {
      TakeNewCell(g, t, cap, st, k);
      EnoughGrows(u - 1, |st'.open|, c', o + 3, o + 3);
    }
  }

  lemma {:induction false} SearchSettles(g: Grid, t: Cell, cap: nat, steps: nat, st: SearchState)
    requires AllModest(g, t, st.open, st.closed) && steps >= StepsFor(g, st)
    ensures !RunSearch(g, t, cap, steps, st).1.OutOfSteps?
    decreases steps
  {
    var k := Lowest(st.open, |st.open|);
    if st.open != [] && k != -1 && st.open[k].cell != t {
      assert Modest(g, t, st.closed, st.open[k]);
      PassNeedsFewer(g, t, cap, st, k);
      PassKeepsModest(g, t, cap, st, k);
      SearchSettles(g, t, cap, steps - 1, Pass(g, t, cap, st, k));
    }
  }

  // The open list stays inside its buffer, and a buffer of 3 * steps + 1 entries is
  // never full when a neighbour is due.
  lemma {:induction false} OpenListFits(g: Grid, t: Cell, cap: nat, steps: nat, st: SearchState)
    requires |st.open| <= cap
    ensures |RunSearch(g, t, cap, steps, st).0.open| <= cap
    ensures !st.dropped && |st.open| + 3 * steps <= cap ==> !RunSearch(g, t, cap, steps, st).0.dropped
    decreases steps
  {
    var k := Lowest(st.open, |st.open|);
    if st.open != [] && steps > 0 && k != -1 && st.open[k].cell != t {
      ExpandFits(g, t, cap, Take(st, k), st.open[k], 4);
      OpenListFits(g, t, cap, steps - 1, Pass(g, t, cap, st, k));
    }
  }

  // Given enough steps, and a buffer that holds what they can push, the search decides
  // reachability, and finds the length of a shortest path when there is one.
  lemma SearchDecidesReachability(g: Grid, s: Cell, t: Cell, cap: nat, steps: nat)
    requires InBounds(g, s) && InBounds(g, t)
    requires g.width * g.height + g.width + g.height <= NO_SCORE
    requires steps >= Enough(g.width * g.height, 1, 0) && cap >= 3 * steps + 1
    ensures var outcome := RunSearch(g, t, cap, steps, Start(s, t)).1;
            || (outcome.AtTarget? && IsShortest(g, s, t, outcome.cost))
            || (outcome.Exhausted? && forall n :: !Reachable(g, s, t, n))
  {
    BlockCount(g.width, g.height);
    assert Cells(g) - {} == Cells(g);
    assert Stale(Start(s, t).open, {}) == 0;
    SearchSettles(g, t, cap, steps, Start(s, t));
    NoCandidateIsUnreachable(g, s, t, cap, steps);
    OpenListFits(g, t, cap, steps, Start(s, t));
    SearchIsOptimal(g, s, t, cap, steps);
  }
}
