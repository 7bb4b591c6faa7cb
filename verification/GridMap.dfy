// The grid map (src/server/pathfinding.c, lines 8-47): cells, walls, the city map and
// the map from positions to cells.
module GridMap {
  const MAP_WIDTH: nat := 40
  const MAP_HEIGHT: nat := 20

  // Positions are offsets from the base corner in units of 1e-4 degree; a grid cell is
  // five of them wide (SCALE_FACTOR is 2000 cells per degree).
  const CELL_SIZE: int := 5

  datatype Cell = Cell(x: int, y: int)

  // A map is its size and the set of its walls.
  datatype Grid = Grid(width: nat, height: nat, walls: set<Cell>)

  predicate InBounds(g: Grid, c: Cell) {
    0 <= c.x < g.width && 0 <= c.y < g.height
  }

  predicate IsObstacle(g: Grid, c: Cell) {
    !InBounds(g, c) || c in g.walls
  }

  function Abs(n: int): nat {
    if n < 0 then -n else n
  }

  function Manhattan(a: Cell, b: Cell): nat {
    Abs(a.x - b.x) + Abs(a.y - b.y)
  }

  // The same distance, by cases.
  function Apart(a: Cell, b: Cell): int {
    (if a.x < b.x then b.x - a.x else a.x - b.x) + (if a.y < b.y then b.y - a.y else a.y - b.y)
  }

  // The i-th neighbour, in the order both loops try them: up, down, left, right.
  function Neighbour(c: Cell, i: nat): Cell
    requires i < 4
  {
    match i
    case 0 => Cell(c.x, c.y - 1)
    case 1 => Cell(c.x, c.y + 1)
    case 2 => Cell(c.x - 1, c.y)
    case _ => Cell(c.x + 1, c.y)
  }

  lemma NeighboursAreTheStepsOfLengthOne(a: Cell, b: Cell)
    ensures Manhattan(a, b) == 1 <==> exists i: nat :: i < 4 && b == Neighbour(a, i)
  {
    if Manhattan(a, b) == 1 {
      var i: nat := if b.y < a.y then 0 else if b.y > a.y then 1 else if b.x < a.x then 2 else 3;
      assert b == Neighbour(a, i);
    }
  }

  // C's integer division truncates toward zero.
  function TruncDiv(a: int, b: int): int
    requires b > 0
  {
    if a >= 0 then a / b else -((-a) / b)
  }

  function CellOf(lat: int, lon: int): Cell {
    Cell(TruncDiv(lon, CELL_SIZE), TruncDiv(lat, CELL_SIZE))
  }

  // Rows and columns are five offsets wide, except the first, which also has the offsets
  // from -4 to -1.
  lemma CellOfPlace(lat: int, lon: int)
    ensures var c := CellOf(lat, lon);
            && (lat >= 0 ==> 5 * c.y <= lat < 5 * c.y + 5) && (lat <= 0 ==> 5 * c.y - 5 < lat <= 5 * c.y)
            && (lon >= 0 ==> 5 * c.x <= lon < 5 * c.x + 5) && (lon <= 0 ==> 5 * c.x - 5 < lon <= 5 * c.x)
  {}

  function Clamp(n: int, size: nat): int {
    if n < 0 then 0 else if n >= size then size - 1 else n
  }

  function ClampCell(g: Grid, c: Cell): Cell {
    Cell(Clamp(c.x, g.width), Clamp(c.y, g.height))
  }

  // Clamping takes a cell to the nearest one of the grid, which for a cell of the grid is
  // itself.
  lemma ClampIsNearest(g: Grid, c: Cell, other: Cell)
    requires g.width > 0 && g.height > 0 && 0 <= other.x < g.width && 0 <= other.y < g.height
    ensures var n := ClampCell(g, c);
            && 0 <= n.x < g.width && 0 <= n.y < g.height
            && Abs(c.x - n.x) <= Abs(c.x - other.x) && Abs(c.y - n.y) <= Abs(c.y - other.y)
  {}

  // ---------------------------------------------------------------------------
  // The city map
  // ---------------------------------------------------------------------------

  // One river and two buildings.
  predicate CityWall(c: Cell) {
    || (c.x == 20 && 5 <= c.y < 15)
    || (5 <= c.x < 10 && 3 <= c.y < 7)
    || (30 <= c.x < 35 && 12 <= c.y < 16)
  }

  function CityGrid(): Grid {
    Grid(MAP_WIDTH, MAP_HEIGHT,
         set x, y | 0 <= x < MAP_WIDTH && 0 <= y < MAP_HEIGHT && CityWall(Cell(x, y)) :: Cell(x, y))
  }

  function Open(n: nat): (r: string)
    ensures |r| == n && forall i :: 0 <= i < n ==> r[i] == '.'
  {
    seq(n, _ => '.')
  }

  function Wall(n: nat): (r: string)
    ensures |r| == n && forall i :: 0 <= i < n ==> r[i] == '#'
  {
    seq(n, _ => '#')
  }

  // The city, drawn row by row.
  function CityRow(y: int): string {
    if 3 <= y < 5 then Open(5) + Wall(5) + Open(30)
    else if 5 <= y < 7 then Open(5) + Wall(5) + Open(10) + Wall(1) + Open(19)
    else if 7 <= y < 12 then Open(20) + Wall(1) + Open(19)
    else if 12 <= y < 15 then Open(20) + Wall(1) + Open(9) + Wall(5) + Open(5)
    else if y == 15 then Open(30) + Wall(5) + Open(5)
    else Open(40)
  }

  lemma CityIsAsDrawn(x: int, y: int)
    requires 0 <= x < 40 && 0 <= y < 20
    ensures |CityRow(y)| == 40 && (IsObstacle(CityGrid(), Cell(x, y)) <==> CityRow(y)[x] == '#')
  {
    assert IsObstacle(CityGrid(), Cell(x, y)) <==> CityWall(Cell(x, y)) by { hide CityRow; }
  }

  function Load(a: array2<int>): Grid
    reads a
  {
    Grid(a.Length1, a.Length0, set x, y | 0 <= x < a.Length1 && 0 <= y < a.Length0 && a[y, x] != 0 :: Cell(x, y))
  }

  method FillRectangle(a: array2<int>, x0: nat, x1: nat, y0: nat, y1: nat)
    requires x0 <= x1 <= a.Length1 && y0 <= y1 <= a.Length0
    modifies a
    ensures forall x, y :: 0 <= x < a.Length1 && 0 <= y < a.Length0 ==>
              a[y, x] == if x0 <= x < x1 && y0 <= y < y1 then 1 else old(a[y, x])
  {
    for j := y0 to y1
      invariant forall x, y :: 0 <= x < a.Length1 && 0 <= y < a.Length0 ==>
                  a[y, x] == if x0 <= x < x1 && y0 <= y < j then 1 else old(a[y, x])
    {
      for i := x0 to x1
        invariant forall x, y :: 0 <= x < a.Length1 && 0 <= y < a.Length0 ==>
                    a[y, x] == if (x0 <= x < x1 && y0 <= y < j) || (x0 <= x < i && y == j) then 1 else old(a[y, x])
      {
        a[j, i] := 1;
      }
    }
  }

  method InitMapObstacles(a: array2<int>)
    requires a.Length0 == MAP_HEIGHT && a.Length1 == MAP_WIDTH
    modifies a
    ensures Load(a) == CityGrid()
  {
    forall y, x | 0 <= y < a.Length0 && 0 <= x < a.Length1 {
      a[y, x] := 0;
    }
    FillRectangle(a, 20, 21, 5, 15);
    FillRectangle(a, 5, 10, 3, 7);
    FillRectangle(a, 30, 35, 12, 16);
  }
}
