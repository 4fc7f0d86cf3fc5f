/** The toroidal grid the animals live on: cells, wrap-around, displacement
    and the orthogonal (von Neumann) neighbourhood of a cell. */
module Torus {

  /** A grid cell as an (x, y) pair; off-grid pairs are wrapped with `Wrap`. */
  datatype Cell = Cell(x: int, y: int)

  /** A displacement vector. */
  datatype Vec = Vec(dx: int, dy: int)

  /** The dimensions of a grid that wraps at every edge. */
  datatype Grid = Grid(width: nat, height: nat)

  predicate ValidGrid(g: Grid) {
    g.width > 0 && g.height > 0
  }

  predicate Contains(g: Grid, c: Cell) {
    0 <= c.x < g.width && 0 <= c.y < g.height
  }

  /** Modular reduction onto [0, n): Python's `%` for a positive modulus. */
  function Mod(a: int, n: int): (r: int)
    requires n > 0
    ensures 0 <= r < n
    ensures 0 <= a < n ==> r == a
    ensures a == -1 ==> r == n - 1
    ensures a == n ==> r == 0
  {
    a % n
  }

  /** Brings a coordinate pair back onto the torus (the grid's torus adjustment). */
  function Wrap(g: Grid, c: Cell): (r: Cell)
    requires ValidGrid(g)
    ensures Contains(g, r)
    ensures Contains(g, c) ==> r == c
  {
    Cell(Mod(c.x, g.width), Mod(c.y, g.height))
  }

  /** The cell reached from `c` by the displacement `v`, wrapping at the edges. */
  function Shift(g: Grid, c: Cell, v: Vec): (r: Cell)
    requires ValidGrid(g)
    ensures Contains(g, r)
  {
    Wrap(g, Cell(c.x + v.dx, c.y + v.dy))
  }

  /** The four orthogonal cells around `c`, wrapped, in the order the grid
      enumerates them: row y-1 first, then row y from left to right, then
      row y+1. */
  function Around(g: Grid, c: Cell): (r: seq<Cell>)
    requires ValidGrid(g)
    ensures |r| == 4
  {
    [Shift(g, c, Vec(0, -1)), Shift(g, c, Vec(-1, 0)), Shift(g, c, Vec(1, 0)), Shift(g, c, Vec(0, 1))]
  }

  /** Appends `c` unless it is already present. */
  function AppendNew(s: seq<Cell>, c: Cell): seq<Cell> {
    if c in s then s else s + [c]
  }

  predicate Distinct<T(==)>(s: seq<T>) {
    forall i, j :: 0 <= i < j < |s| ==> s[i] != s[j]
  }

  /** The von Neumann neighbourhood of `c` on the torus: the four orthogonal
      cells in enumeration order, each kept at its first occurrence (on a
      grid narrower than three cells two of them coincide). */
  function Neighbourhood(g: Grid, c: Cell): (r: seq<Cell>)
    requires ValidGrid(g)
    ensures 1 <= |r| <= 4 && Distinct(r)
    ensures forall d :: d in r <==> d in Around(g, c)
    ensures forall d :: d in r ==> Contains(g, d)
    ensures r[0] == Around(g, c)[0]
  {
    var a := Around(g, c);
    AppendNew(AppendNew(AppendNew([a[0]], a[1]), a[2]), a[3])
  }

  /** One step of +1 or -1 along an axis of length n wraps only at the edge. */
  lemma StepAlongAxis(n: int, a: int)
    requires n > 0 && 0 <= a < n
    ensures Mod(a + 1, n) == if a == n - 1 then 0 else a + 1
    ensures Mod(a - 1, n) == if a == 0 then n - 1 else a - 1
  {
    if a + 1 < n { assert Mod(a + 1, n) == a + 1; }
    if a > 0 { assert Mod(a - 1, n) == a - 1; }
  }

  /** A unit displacement of an on-grid cell: the coordinate moves by one and
      falls off one edge onto the opposite one (in particular x = width - 1
      shifted by (1, 0) lands on x = 0 of the same row). */
  lemma ShiftUnit(g: Grid, c: Cell, v: Vec)
    requires ValidGrid(g) && Contains(g, c)
    requires v in [Vec(0, 0), Vec(1, 0), Vec(0, 1), Vec(1, 1), Vec(-1, 0), Vec(0, -1)]
    ensures Shift(g, c, v).x == if c.x + v.dx == g.width then 0 else if c.x + v.dx == -1 then g.width - 1 else c.x + v.dx
    ensures Shift(g, c, v).y == if c.y + v.dy == g.height then 0 else if c.y + v.dy == -1 then g.height - 1 else c.y + v.dy
  {
    StepAlongAxis(g.width, c.x);
    StepAlongAxis(g.height, c.y);
  }

  /** When the four orthogonal cells are pairwise distinct, the
      neighbourhood is exactly those four in enumeration order. */
  lemma NeighbourhoodWhenDistinct(g: Grid, c: Cell)
    requires ValidGrid(g) && Distinct(Around(g, c))
    ensures Neighbourhood(g, c) == Around(g, c)
  {
    var a := Around(g, c);
    assert a[1] != a[0];
    assert a[2] != a[0] && a[2] != a[1];
    assert a[3] != a[0] && a[3] != a[1] && a[3] != a[2];
    assert AppendNew([a[0]], a[1]) == [a[0], a[1]];
    assert AppendNew([a[0], a[1]], a[2]) == [a[0], a[1], a[2]];
    assert AppendNew([a[0], a[1], a[2]], a[3]) == a;
  }

  /** On a grid at least three cells wide and high, the four orthogonal
      cells are pairwise distinct, so the neighbourhood is exactly the four
      of them in enumeration order. */
  lemma NeighbourhoodOfFour(g: Grid, c: Cell)
    requires ValidGrid(g) && g.width >= 3 && g.height >= 3 && Contains(g, c)
    ensures Neighbourhood(g, c) == Around(g, c)
  {
    var a := Around(g, c);
    ShiftUnit(g, c, Vec(0, -1));
    ShiftUnit(g, c, Vec(-1, 0));
    ShiftUnit(g, c, Vec(1, 0));
    ShiftUnit(g, c, Vec(0, 1));
    assert a[1] != a[0] && a[2] != a[0] && a[3] != a[0];
    assert a[2] != a[1] && a[3] != a[1] && a[3] != a[2];
    NeighbourhoodWhenDistinct(g, c);
  }
}
