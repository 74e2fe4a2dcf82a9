/** The fixed 15 by 15 level: walls, slow terrain and two cells kept clear. */
module Level {
  import opened Base

  const Size := 15

  // The obstacle list, block by block as the level lays it out.
  const TopLeftWalls: seq<Pos> := [(0, 1), (1, 1), (2, 1), (2, 2), (1, 2), (0, 3), (1, 3), (1, 4)]
  const TopRightWalls: seq<Pos> := [(1, 13), (0, 13), (1, 14), (2, 12), (2, 13), (2, 14), (3, 13), (4, 13), (4, 14)]
  const BottomLeftWalls: seq<Pos> := [(13, 0), (13, 1), (14, 1), (12, 1), (12, 2), (13, 2), (14, 3), (13, 3), (13, 4)]
  const BottomRightWalls: seq<Pos> := [(13, 13), (13, 14), (12, 12), (12, 13), (11, 13), (11, 14)]
  const CentralWalls: seq<Pos> := [(6, 6), (6, 7), (6, 8), (6, 9), (7, 6), (8, 6), (8, 7), (8, 8), (7, 8), (7, 9), (7, 10)]
  const ExtraWalls: seq<Pos> := [
    (3, 3), (3, 4), (4, 4), (4, 5), (5, 5), (5, 6), (6, 4),
    (10, 2), (11, 2), (12, 2), (10, 3), (10, 4), (11, 4), (11, 11), (11, 12),
    (9, 1), (9, 2), (9, 3), (13, 7), (13, 8), (13, 9),
    (4, 8), (8, 4), (10, 8), (8, 10), (5, 13), (13, 5), (7, 12), (12, 7)
  ]

  const Obstacles: seq<Pos> :=
    TopLeftWalls + TopRightWalls + BottomLeftWalls + BottomRightWalls + CentralWalls + ExtraWalls

  // The slow-terrain list, block by block.
  const CornerSlow: seq<Pos> := [(0, 2), (2, 0), (1, 12), (2, 11), (12, 0), (11, 1), (12, 14), (14, 12)]
  const CentralSlow: seq<Pos> := [(5, 7), (5, 8), (5, 9), (7, 5), (8, 5), (9, 5), (9, 6), (9, 7), (9, 8)]
  const AlternativeSlow: seq<Pos> := [(3, 5), (3, 6), (3, 7), (11, 5), (11, 6), (11, 7)]
  const StrategicSlow: seq<Pos> := [(4, 13), (6, 11), (8, 13), (10, 6), (12, 8), (13, 10)]
  const ExtraSlow: seq<Pos> := [
    (4, 2), (4, 3), (7, 7), (8, 9), (10, 10), (11, 9), (2, 4), (2, 5),
    (5, 2), (6, 2), (10, 12), (10, 13), (12, 10), (12, 11)
  ]

  const SlowCells: seq<Pos> := CornerSlow + CentralSlow + AlternativeSlow + StrategicSlow + ExtraSlow

  /** The two cells cleared last. */
  const ClearStart: Pos := (0, 0)
  const ClearGoal: Pos := (14, 14)

  /** A square grid of the level's size. */
  predicate Square(g: Grid)
  {
    |g| == Size && forall i :: 0 <= i < Size ==> |g[i]| == Size
  }

  predicate OnLevel(p: Pos)
  {
    0 <= p.0 < Size && 0 <= p.1 < Size
  }

  predicate AllOnLevel(cells: seq<Pos>)
  {
    forall k :: 0 <= k < |cells| ==> OnLevel(cells[k])
  }

  /** Two lists of cells on the level join into one. */
  lemma OnLevelJoin(a: seq<Pos>, b: seq<Pos>)
    requires AllOnLevel(a) && AllOnLevel(b)
    ensures AllOnLevel(a + b)
  {
    forall k | 0 <= k < |a + b|
      ensures OnLevel((a + b)[k])
    {
      if k >= |a| {
        assert (a + b)[k] == b[k - |a|];
      }
    }
  }

  /** The obstacle list, block by block, lies on the level. */
  lemma WallsOnLevel()
    ensures AllOnLevel(Obstacles)
  {
    assert AllOnLevel(TopLeftWalls);
    assert AllOnLevel(TopRightWalls);
    OnLevelJoin(TopLeftWalls, TopRightWalls);
    assert AllOnLevel(BottomLeftWalls);
    OnLevelJoin(TopLeftWalls + TopRightWalls, BottomLeftWalls);
    assert AllOnLevel(BottomRightWalls);
    OnLevelJoin(TopLeftWalls + TopRightWalls + BottomLeftWalls, BottomRightWalls);
    assert AllOnLevel(CentralWalls);
    OnLevelJoin(TopLeftWalls + TopRightWalls + BottomLeftWalls + BottomRightWalls, CentralWalls);
    assert AllOnLevel(ExtraWalls);
    OnLevelJoin(TopLeftWalls + TopRightWalls + BottomLeftWalls + BottomRightWalls + CentralWalls, ExtraWalls);
  }

  /** The slow-terrain list, block by block, lies on the level. */
  lemma SlowOnLevel()
    ensures AllOnLevel(SlowCells)
  {
    assert AllOnLevel(CornerSlow);
    assert AllOnLevel(CentralSlow);
    OnLevelJoin(CornerSlow, CentralSlow);
    assert AllOnLevel(AlternativeSlow);
    OnLevelJoin(CornerSlow + CentralSlow, AlternativeSlow);
    assert AllOnLevel(StrategicSlow);
    OnLevelJoin(CornerSlow + CentralSlow + AlternativeSlow, StrategicSlow);
    assert AllOnLevel(ExtraSlow);
    OnLevelJoin(CornerSlow + CentralSlow + AlternativeSlow + StrategicSlow, ExtraSlow);
  }

  /** Every listed cell lies on the level. */
  lemma CellsOnLevel()
    ensures AllOnLevel(Obstacles) && AllOnLevel(SlowCells)
  {
    WallsOnLevel();
    SlowOnLevel();
  }

  /** The value a cell ends with when the walls are written, then the slow
      terrain, then the two corner cells cleared: a cleared cell is open, a
      slow-terrain cell is slow (it was written last), another listed
      obstacle is a wall, and any other cell is open. */
  function BuiltCell(obstacles: seq<Pos>, slow: seq<Pos>, p: Pos): int
  {
    if p == ClearStart || p == ClearGoal then 0
    else if p in slow then SlowTerrain
    else if p in obstacles then Wall
    else 0
  }

  /** A built cell is open, a wall or slow terrain: slow exactly when
      listed as slow and not cleared, a wall exactly when listed as an
      obstacle only and not cleared. */
  lemma BuiltCellCases(obstacles: seq<Pos>, slow: seq<Pos>, p: Pos)
    ensures BuiltCell(obstacles, slow, p) in {0, Wall, SlowTerrain}
    ensures BuiltCell(obstacles, slow, p) == SlowTerrain <==> p in slow && p != ClearStart && p != ClearGoal
    ensures BuiltCell(obstacles, slow, p) == Wall <==>
      p in obstacles && p !in slow && p != ClearStart && p != ClearGoal
  {
  }

  ghost predicate Built(g: Grid, obstacles: seq<Pos>, slow: seq<Pos>)
  {
    Square(g) && forall i, j :: 0 <= i < Size && 0 <= j < Size ==> g[i][j] == BuiltCell(obstacles, slow, (i, j))
  }

  /** The grid create_grid returns. */
  ghost predicate IsLevel(g: Grid)
  {
    Built(g, Obstacles, SlowCells)
  }

  /** One of create_grid's placement loops: write v into each listed
      cell, in list order. */
  method PlaceCells(grid: Grid, cells: seq<Pos>, v: int) returns (r: Grid)
    requires Square(grid) && AllOnLevel(cells)
    ensures Square(r)
    ensures forall i, j :: 0 <= i < Size && 0 <= j < Size ==>
      r[i][j] == if (i, j) in cells then v else grid[i][j]
  {
    r := grid;
    for k := 0 to |cells|
      invariant Square(r)
      invariant forall i, j :: 0 <= i < Size && 0 <= j < Size ==>
        r[i][j] == if (i, j) in cells[..k] then v else grid[i][j]
    {
      var p := cells[k];
      assert OnLevel(p);
      assert forall q :: q in cells[..k + 1] <==> q in cells[..k] || q == p by {
        assert cells[..k + 1] == cells[..k] + [p];
      }
      r := r[p.0 := r[p.0][p.1 := v]];
    }
    assert cells[..|cells|] == cells;
  }

  /** The body of create_grid over its two lists: start from an all-open
      grid, write the walls in list order, then the slow terrain, then
      clear the two corner cells. */
  method BuildGrid(obstacles: seq<Pos>, slow: seq<Pos>) returns (grid: Grid)
    requires AllOnLevel(obstacles) && AllOnLevel(slow)
    ensures Built(grid, obstacles, slow)
  {
    grid := seq(Size, _ => seq(Size, _ => 0));
    grid := PlaceCells(grid, obstacles, Wall);
    grid := PlaceCells(grid, slow, SlowTerrain);
    ghost var painted := grid;
    grid := grid[0 := grid[0][0 := 0]];
    grid := grid[14 := grid[14][14 := 0]];
    forall i, j | 0 <= i < Size && 0 <= j < Size
      ensures grid[i][j] == BuiltCell(obstacles, slow, (i, j))
    {
      if (i, j) != ClearStart && (i, j) != ClearGoal {
        assert grid[i][j] == painted[i][j];
      }
    }
  }

  /** create_grid (its grid; the height map is not modelled). */
  method CreateGrid() returns (grid: Grid)
    ensures IsLevel(grid)
  {
    CellsOnLevel();
    grid := BuildGrid(Obstacles, SlowCells);
  }

  /** The level is 15 rows of 15 cells. */
  lemma LevelShape(g: Grid)
    requires IsLevel(g)
    ensures WellFormed(g) && |g| == 15 && Width(g) == 15
  {
  }

  /** Every cell is open floor, a wall or slow terrain. */
  lemma LevelValues(g: Grid, i: int, j: int)
    requires IsLevel(g) && 0 <= i < Size && 0 <= j < Size
    ensures g[i][j] in {0, Wall, SlowTerrain}
  {
  }

  /** A cell is a wall exactly when it is listed as an obstacle, not as slow
      terrain, and is not one of the two cleared cells; it is open exactly
      when it is in neither list or is a cleared cell. */
  lemma LevelWallsAndFloor(g: Grid, i: int, j: int)
    requires IsLevel(g) && 0 <= i < Size && 0 <= j < Size
    ensures g[i][j] == Wall <==>
      (i, j) in Obstacles && (i, j) !in SlowCells && (i, j) != ClearStart && (i, j) != ClearGoal
    ensures g[i][j] == 0 <==>
      ((i, j) !in Obstacles && (i, j) !in SlowCells) || (i, j) == ClearStart || (i, j) == ClearGoal
  {
  }

  /** (11, 12) and (11, 13) are listed as obstacles and not as slow
      terrain. */
  lemma TunnelRowListed()
    ensures (11, 12) in Obstacles && (11, 13) in Obstacles
    ensures (11, 12) !in SlowCells && (11, 13) !in SlowCells
  {
    assert ExtraWalls[14] == (11, 12) && BottomRightWalls[4] == (11, 13);
    assert (11, 12) !in CornerSlow && (11, 13) !in CornerSlow;
    assert (11, 12) !in CentralSlow && (11, 13) !in CentralSlow;
    assert (11, 12) !in AlternativeSlow && (11, 13) !in AlternativeSlow;
    assert (11, 12) !in StrategicSlow && (11, 13) !in StrategicSlow;
    assert (11, 12) !in ExtraSlow && (11, 13) !in ExtraSlow;
  }

  /** ... so both are walls. */
  lemma TunnelRowWalls(g: Grid)
    requires IsLevel(g)
    ensures g[11][12] == Wall && g[11][13] == Wall
  {
    TunnelRowListed();
  }

  /** The start and goal cells the level is built around are open. */
  lemma CornersClear(g: Grid)
    requires IsLevel(g)
    ensures g[0][0] == 0 && g[14][14] == 0
  {
  }

  /** (4, 13) is listed both as an obstacle and as slow terrain; slow
      terrain is written later and wins. */
  lemma SlowTerrainWins(g: Grid)
    requires IsLevel(g)
    ensures (4, 13) in Obstacles && (4, 13) in SlowCells
    ensures g[4][13] == SlowTerrain
  {
    assert TopRightWalls[7] == (4, 13) && StrategicSlow[0] == (4, 13);
  }

  /** The obstacle list without its second listing of (12, 2). */
  const ObstaclesOnce: seq<Pos> :=
    TopLeftWalls + TopRightWalls + BottomLeftWalls + BottomRightWalls + CentralWalls
    + ExtraWalls[..9] + ExtraWalls[10..]

  /** (12, 2) is listed twice among the obstacles; dropping the second
      listing names the same cells. */
  lemma RepeatedObstacle()
    ensures BottomLeftWalls[4] == ExtraWalls[9] == (12, 2)
    ensures forall p :: p in Obstacles <==> p in ObstaclesOnce
  {
    var extra := ExtraWalls[..9] + ExtraWalls[10..];
    assert (12, 2) in BottomLeftWalls by {
      assert BottomLeftWalls[4] == (12, 2);
    }
    forall p | p in ExtraWalls
      ensures p in extra || p == (12, 2)
    {
      var k :| 0 <= k < |ExtraWalls| && ExtraWalls[k] == p;
      if k < 9 {
        assert extra[k] == p;
      } else if k > 9 {
        assert extra[k - 1] == p;
      }
    }
    assert forall p :: p in extra ==> p in ExtraWalls;
  }

  /** ... so the repetition does not change the level. */
  lemma RepeatedObstacleHarmless(g: Grid)
    ensures IsLevel(g) <==> Built(g, ObstaclesOnce, SlowCells)
  {
    RepeatedObstacle();
    BuiltByMembership(g, Obstacles, ObstaclesOnce, SlowCells);
    BuiltByMembership(g, ObstaclesOnce, Obstacles, SlowCells);
  }

  /** The level depends only on which cells the lists name, not on their
      order or repetitions. */
  lemma BuiltByMembership(g: Grid, a: seq<Pos>, b: seq<Pos>, slow: seq<Pos>)
    requires forall p :: p in a <==> p in b
    ensures Built(g, a, slow) ==> Built(g, b, slow)
  {
  }
}
