/** Types shared by every part of the maze model: cells, cost grids and an
    optional value standing in for Python's None. */
module Base {

  datatype Option<+T> = None | Some(value: T)

  /** A grid cell as the source's (row, column) tuple. */
  type Pos = (int, int)

  /** A cost map: 0 is open floor, 1 a wall, 2 slow terrain. */
  type Grid = seq<seq<int>>

  const Wall := 1
  const SlowTerrain := 2

  /** A grid the source can index: at least one row, all rows as long as
      the first (the source reads the width as len(grid[0])). */
  predicate WellFormed(g: Grid) {
    |g| > 0 && forall i :: 0 <= i < |g| ==> |g[i]| == |g[0]|
  }

  function Width(g: Grid): nat
    requires WellFormed(g)
  {
    |g[0]|
  }

  predicate InBounds(g: Grid, p: Pos)
    requires WellFormed(g)
  {
    0 <= p.0 < |g| && 0 <= p.1 < Width(g)
  }

  function Cell(g: Grid, p: Pos): int
    requires WellFormed(g) && InBounds(g, p)
  {
    g[p.0][p.1]
  }

  function Last<T>(s: seq<T>): T
    requires |s| > 0
  {
    s[|s| - 1]
  }
}
