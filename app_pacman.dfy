/** The stand-alone Pac-Man loop: the run-to-completion A* wrapper, the
    movement check and the enemy cadence. */
module AppPacman {
  import opened Base
  import opened Algorithms
  import opened Agent

  /** compute_astar_path: seed a search at `start`, step A* until a step
      reports completion, remember the last non-empty path a step returned,
      and keep it only if it ends at the goal. A path is returned exactly
      when the goal can be reached, and it is then a walk from start to
      goal over non-wall cells. */
  method ComputeAStarPath(grid: Grid, start: Pos, goal: Pos) returns (path: Option<seq<Pos>>)
    requires WellFormed(grid)
    ensures path.Some? ==> Connects(grid, path.value, start, goal)
    ensures path.Some? <==> Reachable(grid, start, goal)
    ensures start == goal ==> path == Some([start])
  {
    var s := new SearchState.Seed(grid, start, goal, AStar);
    var kept: Option<seq<Pos>> := None;
    var first := true;
    while true
      invariant s.Valid(grid, start, goal) && s.Covered()
      invariant kept.Some? ==> |kept.value| > 0 && Last(kept.value) != goal
      invariant first && start == goal ==> s.frontier == [Entry(Priority(AStar, 0, start, goal), start)]
                                           && s.cameFrom == map[]
      decreases |Universe(grid, start) - s.closed|, |s.frontier|
    {
      ghost var fr0, closed0, cf0, g0 := s.frontier, s.closed, s.cameFrom, s.gScore;
      var r := s.Step(grid, start, goal, AStar);
      if r.path.Some? && |r.path.value| > 0 {
        kept := r.path;
      }
      if r.complete {
        break;
      }
      first := false;
      MeasureDrops(grid, start, goal, fr0, closed0, cf0, g0, s.frontier, s.closed);
    }
    if kept.None? || Last(kept.value) != goal {
      return None;
    }
    return kept;
  }

  /** Each incomplete step shrinks the set of cells still to close, or
      leaves it alone and shortens the frontier. */
  lemma MeasureDrops(grid: Grid, start: Pos, goal: Pos, fr0: seq<Entry>, closed0: set<Pos>,
                     cf0: map<Pos, Pos>, g0: map<Pos, int>, fr1: seq<Entry>, closed1: set<Pos>)
    requires WellFormed(grid) && SearchInvariant(grid, start, goal, fr0, closed0, cf0, g0) && fr0 != []
    requires MinEntry(fr0).pos in closed0 ==> closed1 == closed0 && |fr1| == |fr0| - 1
    requires MinEntry(fr0).pos !in closed0 ==> closed1 == closed0 + {MinEntry(fr0).pos}
    ensures var u := Universe(grid, start);
      |u - closed1| < |u - closed0| || (|u - closed1| == |u - closed0| && |fr1| < |fr0|)
  {
    var u := Universe(grid, start);
    var e := MinEntry(fr0);
    assert e.pos in u;
    if e.pos !in closed0 {
      assert u - closed0 == (u - closed1) + {e.pos};
    }
  }

  /** can_move_to: in bounds and not a wall. */
  function CanMoveTo(grid: Grid, pos: Pos): (ok: bool)
    requires WellFormed(grid)
    ensures ok <==> Passable(grid, pos)
  {
    if pos.0 < 0 || pos.0 >= |grid| || pos.1 < 0 || pos.1 >= Width(grid) then false
    else grid[pos.0][pos.1] != Wall
  }

  /** One orthogonal step is allowed exactly when the search would follow
      that edge. */
  lemma CanMoveToIsEdge(grid: Grid, p: Pos, q: Pos)
    requires WellFormed(grid) && Adjacent(p, q)
    ensures CanMoveTo(grid, q) <==> IsEdge(grid, p, q)
  {
  }

  /** How often enemies act: every sixth frame. */
  const EnemyMoveInterval := 6

  /** What an acting enemy does: it replans to the target and, when the plan
      has more than one cell, adopts it and takes its first step. A plan of
      more than one cell exists exactly when the target is another cell that
      can be reached; otherwise the enemy stays as it was. */
  ghost predicate Chased(grid: Grid, target: Pos, d: AgentData, d': AgentData)
    requires WellFormed(grid)
  {
    if Reachable(grid, d.pos, target) && d.pos != target then
      exists p :: |p| > 1 && Connects(grid, p, d.pos, target) && d' == Moved(FinalPath(d, p)).0
    else
      d' == d
  }

  /** The enemy half of a frame: advance the cadence counter and, when it
      wraps to 0, let every enemy chase the player. */
  method MoveEnemies(grid: Grid, enemies: seq<PathAgent>, playerPos: Pos, delay: int) returns (delay': int)
    requires WellFormed(grid)
    requires forall i :: 0 <= i < |enemies| ==> enemies[i].Valid()
    requires forall i, j :: 0 <= i < j < |enemies| ==> enemies[i] != enemies[j]
    modifies enemies
    ensures delay' == (delay + 1) % EnemyMoveInterval
    ensures forall i :: 0 <= i < |enemies| ==> enemies[i].Valid()
    ensures delay' != 0 ==> forall i :: 0 <= i < |enemies| ==> enemies[i].Data() == old(enemies[i].Data())
    ensures delay' == 0 ==> forall i :: 0 <= i < |enemies| ==>
      Chased(grid, playerPos, old(enemies[i].Data()), enemies[i].Data())
  {
    delay' := (delay + 1) % EnemyMoveInterval;
    if delay' != 0 {
      return;
    }
    for i := 0 to |enemies|
      invariant forall k :: 0 <= k < |enemies| ==> enemies[k].Valid()
      invariant forall k :: 0 <= k < i ==> Chased(grid, playerPos, old(enemies[k].Data()), enemies[k].Data())
      invariant forall k :: i <= k < |enemies| ==> enemies[k].Data() == old(enemies[k].Data())
    {
      var enemy := enemies[i];
      ghost var d := enemy.Data();
      var path := ComputeAStarPath(grid, enemy.pos, playerPos);
      if path.Some? && |path.value| > 1 {
        enemy.SetFinalPath(path.value);
        var _ := enemy.MoveStep();
        assert Connects(grid, path.value, d.pos, playerPos);
      } else if path.Some? {
        assert path.value[0] == Last(path.value);
      }
      assert Chased(grid, playerPos, d, enemy.Data());
    }
  }
}
