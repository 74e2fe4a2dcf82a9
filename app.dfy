/** The Pac-Man game driver: keyboard moves with the tunnel row, and the
    ghost cadence that replans and steps released ghosts. */
module App {
  import opened Base
  import opened Algorithms
  import opened Agent
  import opened Ghosts
  import opened Game
  import opened AppPacman
  import Level

  /** The keys the driver distinguishes; any other key is Other. */
  datatype Key = F3 | Up | W | Down | S | Left | A | Right | D | Other(code: int)

  /** The row whose ends lead off the grid. */
  const TunnelRow := 11

  /** Ghosts act on every sixth call. */
  const GhostMoveInterval := 6

  /** The cell and direction a key asks for: arrow keys and WASD step one
      cell and face that way; any other key keeps both. */
  function KeyTarget(key: Key, pos: Pos, dir: Pos): (r: (Pos, Pos))
    ensures key in {Up, W} ==> r.1 == (-1, 0)
    ensures key in {Down, S} ==> r.1 == (1, 0)
    ensures key in {Left, A} ==> r.1 == (0, -1)
    ensures key in {Right, D} ==> r.1 == (0, 1)
    ensures key in {Up, W, Down, S, Left, A, Right, D} ==>
      r.0 == (pos.0 + r.1.0, pos.1 + r.1.1) && Adjacent(pos, r.0)
    ensures key !in {Up, W, Down, S, Left, A, Right, D} ==> r == (pos, dir)
  {
    if key == Up || key == W then ((pos.0 - 1, pos.1), (-1, 0))
    else if key == Down || key == S then ((pos.0 + 1, pos.1), (1, 0))
    else if key == Left || key == A then ((pos.0, pos.1 - 1), (0, -1))
    else if key == Right || key == D then ((pos.0, pos.1 + 1), (0, 1))
    else (pos, dir)
  }

  /** What _can_move_to answers: on the tunnel row, a column off either end
      is allowed; otherwise the cell must be on the grid and not a wall. */
  function MoveAllowed(grid: Grid, pos: Pos): (ok: bool)
    requires WellFormed(grid)
    ensures pos.0 == TunnelRow && (pos.1 < 0 || pos.1 >= Width(grid)) ==> ok
    ensures !(pos.0 == TunnelRow && (pos.1 < 0 || pos.1 >= Width(grid))) ==> (ok <==> CanMoveTo(grid, pos))
  {
    if pos.0 == TunnelRow && (pos.1 < 0 || pos.1 >= Width(grid)) then true
    else 0 <= pos.0 < |grid| && 0 <= pos.1 < Width(grid) && grid[pos.0][pos.1] != Wall
  }

  /** Away from the tunnel ends, a key move is allowed exactly when the
      search would take that edge. */
  lemma KeyMoveIsEdge(grid: Grid, key: Key, pos: Pos, dir: Pos)
    requires WellFormed(grid) && key in {Up, W, Down, S, Left, A, Right, D}
    requires var q := KeyTarget(key, pos, dir).0; !(q.0 == TunnelRow && (q.1 < 0 || q.1 >= Width(grid)))
    ensures MoveAllowed(grid, KeyTarget(key, pos, dir).0) <==> IsEdge(grid, pos, KeyTarget(key, pos, dir).0)
  {
    CanMoveToIsEdge(grid, pos, KeyTarget(key, pos, dir).0);
  }

  /** Stepping left from the tunnel row's first column is allowed and lands
      on column -1: the wrap-around column is written to the old position,
      which the move then replaces. */
  lemma TunnelExitLeavesGrid(grid: Grid)
    requires WellFormed(grid)
    ensures KeyTarget(Left, (TunnelRow, 0), (0, 0)).0 == (TunnelRow, -1)
    ensures MoveAllowed(grid, (TunnelRow, -1)) && !InBounds(grid, (TunnelRow, -1))
  {
  }

  /** From the starting square (18, 11), which is off the level, no key
      moves the player: every target is off the grid and off the tunnel
      row. */
  lemma StuckAtStart(g: Grid, key: Key, dir: Pos)
    requires Level.IsLevel(g)
    ensures WellFormed(g) && !MoveAllowed(g, KeyTarget(key, (18, 11), dir).0)
  {
    Level.LevelShape(g);
  }

  /** What one processed tick does to a ghost's agent: an inactive ghost is
      left alone; an active ghost whose path is used up replans to its
      target and adopts the plan when it has more than one cell (one exists
      exactly when the target is another reachable cell); then it takes a
      step. */
  ghost predicate GhostTicked(grid: Grid, active: bool, target: Pos, d: AgentData, d': AgentData)
    requires WellFormed(grid) && IndexInRange(d)
  {
    if !active then d' == d
    else if (d.path == [] || d.pathIndex >= |d.path| - 1) && Reachable(grid, d.pos, target) && d.pos != target then
      exists p :: |p| > 1 && Connects(grid, p, d.pos, target) && d' == Moved(FinalPath(d, p)).0
    else d' == Moved(d).0
  }

  /** The position the i-th ghost is told for blinky: none for blinky
      itself; for the first ghost, which ticks first, its own position;
      otherwise where the first ghost stands when this ghost's turn comes. */
  function BlinkyHint(ghostType: string, i: int, own: Pos, first: Pos): Option<Pos>
  {
    if ghostType == "blinky" then None else if i == 0 then Some(own) else Some(first)
  }

  class PacmanGame {
    const state: GameState
    var ghostMoveDelay: int

    constructor (state: GameState)
      ensures this.state == state && ghostMoveDelay == 0
    {
      this.state := state;
      ghostMoveDelay := 0;
    }

    /** The ghosts' agents are valid and belong to one ghost each. */
    ghost predicate GhostsReady()
      reads this, state, state.ghosts, set g | g in state.ghosts :: g.agent
    {
      && (forall i :: 0 <= i < |state.ghosts| ==> state.ghosts[i].agent.Valid())
      && (forall i, j :: 0 <= i < j < |state.ghosts| ==> state.ghosts[i].agent != state.ghosts[j].agent)
    }

    /** _can_move_to, with its write: on the tunnel row, a column off the
        left end sets the player's column to width - 2 and one off the right
        end sets it to 0. */
    method CanMoveTo(pos: Pos) returns (ok: bool)
      requires WellFormed(state.grid)
      modifies state`playerPos
      ensures ok == MoveAllowed(state.grid, pos)
      ensures state.playerPos == (if pos.0 == TunnelRow && pos.1 < 0 then (old(state.playerPos).0, Width(state.grid) - 2)
                                  else if pos.0 == TunnelRow && pos.1 >= Width(state.grid) then (old(state.playerPos).0, 0)
                                  else old(state.playerPos))
    {
      if pos.0 == TunnelRow {
        if pos.1 < 0 {
          state.playerPos := (state.playerPos.0, |state.grid[0]| - 2);
          return true;
        }
        if pos.1 >= |state.grid[0]| {
          state.playerPos := (state.playerPos.0, 0);
          return true;
        }
      }
      ok := 0 <= pos.0 < |state.grid| && 0 <= pos.1 < |state.grid[0]| && state.grid[pos.0][pos.1] != Wall;
    }

    /** _handle_keypress: F3 toggles debug mode and nothing else; any other
        key commits its target cell and direction when the move is allowed
        and changes nothing otherwise. */
    method HandleKeypress(key: Key)
      requires WellFormed(state.grid)
      modifies state`playerPos, state`playerDirection, state`debugMode
      ensures key == F3 ==>
        state.debugMode == !old(state.debugMode)
        && state.playerPos == old(state.playerPos) && state.playerDirection == old(state.playerDirection)
      ensures key != F3 ==> state.debugMode == old(state.debugMode)
      ensures key != F3 ==>
        var (p, d) := KeyTarget(key, old(state.playerPos), old(state.playerDirection));
        if MoveAllowed(state.grid, p) then state.playerPos == p && state.playerDirection == d
        else state.playerPos == old(state.playerPos) && state.playerDirection == old(state.playerDirection)
    {
      if key == F3 {
        state.debugMode := !state.debugMode;
        return;
      }
      var (newPos, newDirection) := KeyTarget(key, state.playerPos, state.playerDirection);
      var ok := CanMoveTo(newPos);
      if ok {
        state.playerPos := newPos;
        state.playerDirection := newDirection;
      }
    }

    /** A ghost has had its turn of a processed tick: from agent data `d`
        it was ticked towards its chase target, computed with `blinkyPos`
        as the first ghost's position. */
    ghost predicate TurnTaken(g: Ghost, blinkyPos: Option<Pos>, d: AgentData, d': AgentData)
      requires WellFormed(state.grid) && IndexInRange(d)
      reads this, state, g
    {
      GhostTicked(state.grid, g.active,
                  ChaseTarget(g.ghostType, g.scatterMode, g.scatterTarget, d.pos,
                              state.playerPos, state.playerDirection, blinkyPos),
                  d, d')
    }

    /** One released or unreleased ghost's turn within a processed tick. */
    method TickGhost(g: Ghost, blinkyPos: Option<Pos>)
      requires WellFormed(state.grid) && g.agent.Valid()
      modifies g.agent
      ensures g.agent.Valid()
      ensures TurnTaken(g, blinkyPos, old(g.agent.Data()), g.agent.Data())
    {
      if !g.active {
        return;
      }
      ghost var d := g.agent.Data();
      var target := g.GetChaseTarget(state.playerPos, state.playerDirection, blinkyPos);
      if g.agent.path == [] || g.agent.pathIndex >= |g.agent.path| - 1 {
        var path := ComputeAStarPath(state.grid, g.agent.pos, target);
        if path.Some? && |path.value| > 1 {
          g.agent.SetFinalPath(path.value);
          var _ := g.agent.MoveStep();
          assert Connects(state.grid, path.value, d.pos, target);
          return;
        } else if path.Some? {
          assert path.value[0] == Last(path.value);
        }
      }
      var _ := g.agent.MoveStep();
    }

    /** _update_ghosts: advance the cadence counter and, when it wraps to
        0, give every ghost its turn; a ghost other than blinky is told
        where the first ghost stands at that moment. */
    method UpdateGhosts()
      requires WellFormed(state.grid) && GhostsReady()
      modifies this, set g | g in state.ghosts :: g.agent
      ensures ghostMoveDelay == (old(ghostMoveDelay) + 1) % GhostMoveInterval
      ensures GhostsReady()
      ensures ghostMoveDelay != 0 ==>
        forall i :: 0 <= i < |state.ghosts| ==> state.ghosts[i].agent.Data() == old(state.ghosts[i].agent.Data())
      ensures ghostMoveDelay == 0 ==> forall i :: 0 <= i < |state.ghosts| ==>
        var d := old(state.ghosts[i].agent.Data());
        TurnTaken(state.ghosts[i], BlinkyHint(state.ghosts[i].ghostType, i, d.pos, state.ghosts[0].agent.pos),
                  d, state.ghosts[i].agent.Data())
    {
      ghostMoveDelay := (ghostMoveDelay + 1) % GhostMoveInterval;
      if ghostMoveDelay != 0 {
        return;
      }
      var ghosts := state.ghosts;
      for i := 0 to |ghosts|
        invariant ghostMoveDelay == 0 && ghosts == state.ghosts
        invariant forall a, b :: 0 <= a < b < |ghosts| ==> ghosts[a].agent != ghosts[b].agent
        invariant forall k :: 0 <= k < |ghosts| ==> ghosts[k].agent.Valid()
        invariant forall k :: i <= k < |ghosts| ==> ghosts[k].agent.Data() == old(ghosts[k].agent.Data())
        invariant forall k :: 0 <= k < i ==>
          var d := old(ghosts[k].agent.Data());
          TurnTaken(ghosts[k], BlinkyHint(ghosts[k].ghostType, k, d.pos, ghosts[0].agent.pos), d, ghosts[k].agent.Data())
      {
        var g := ghosts[i];
        var blinkyPos := if g.ghostType != "blinky" then Some(ghosts[0].agent.pos) else None;
        ghost var d := g.agent.Data();
        ghost var first := ghosts[0].agent.pos;
        assert d == old(g.agent.Data());
        assert blinkyPos == BlinkyHint(g.ghostType, i, d.pos, first);
        TickGhost(g, blinkyPos);
        assert i > 0 ==> ghosts[0].agent != g.agent;
        assert i > 0 ==> ghosts[0].agent.pos == first;
        assert BlinkyHint(g.ghostType, i, d.pos, ghosts[0].agent.pos) == blinkyPos;
        forall k | 0 <= k <= i
          ensures var d := old(ghosts[k].agent.Data());
            TurnTaken(ghosts[k], BlinkyHint(ghosts[k].ghostType, k, d.pos, ghosts[0].agent.pos), d, ghosts[k].agent.Data())
        {
          if k < i {
            assert ghosts[k].agent != g.agent;
          } else {
            assert ghosts[k] == g && old(ghosts[k].agent.Data()) == d;
          }
        }
      }
    }
  }
}
