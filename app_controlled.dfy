/** The controlled visualizer: right-click a cell to send the agent there
    along an A* path; the agent advances one cell per frame. */
module AppControlled {
  import opened Base
  import opened Algorithms
  import opened Agent
  import opened AppPacman
  import Level

  /** Pixels per cell. */
  const CellSize := 40

  const CantGo: string := "You can't go there"

  /** The cell under a pixel: row from y, column from x, each by floor
      division by the cell size (Dafny's division by a positive number is
      the floor). */
  function ClickedCell(x: int, y: int): (c: Pos)
    ensures CellSize * c.0 <= y < CellSize * (c.0 + 1)
    ensures CellSize * c.1 <= x < CellSize * (c.1 + 1)
  {
    (y / CellSize, x / CellSize)
  }

  class ControlledVisualizer {
    const grid: Grid
    const agent: PathAgent
    var goal: Pos
    var path: seq<Pos>
    var message: string

    ghost predicate Valid()
      reads this, agent
    {
      WellFormed(grid) && agent.Valid()
    }

    /** The level, the agent at its centre (7, 7) with the goal there too,
        no path and no message. */
    constructor ()
      ensures Valid() && Level.IsLevel(grid) && fresh(agent)
      ensures agent.Data() == AgentData((7, 7), [], 0, false, true)
      ensures goal == (7, 7) && path == [] && message == ""
    {
      var g := Level.CreateGrid();
      Level.LevelShape(g);
      grid := g;
      agent := new PathAgent((7, 7));
      goal := (7, 7);
      path := [];
      message := "";
    }

    /** The right-click rule: a click off the grid, on a wall, or on a cell
        the agent cannot reach sets the message and changes nothing else;
        otherwise the search's path from the agent to the cell becomes the
        goal, the shown path and the agent's path, and the message clears. */
    method RightClick(mouseX: int, mouseY: int)
      requires Valid()
      modifies this, agent
      ensures Valid()
      ensures var c := ClickedCell(mouseX, mouseY);
        if !Passable(grid, c) || !Reachable(grid, old(agent.pos), c) then
          message == CantGo && goal == old(goal) && path == old(path) && agent.Data() == old(agent.Data())
        else
          && goal == c && message == ""
          && Connects(grid, path, old(agent.pos), c)
          && agent.Data() == FinalPath(old(agent.Data()), path)
    {
      var (i, j) := ClickedCell(mouseX, mouseY);
      if i < 0 || i >= |grid| || j < 0 || j >= |grid[0]| {
        message := CantGo;
      } else if grid[i][j] == Wall {
        message := CantGo;
      } else {
        var p := ComputeAStarPath(grid, agent.pos, (i, j));
        if p.None? {
          message := CantGo;
        } else {
          goal := (i, j);
          path := p.value;
          agent.SetFinalPath(p.value);
          message := "";
        }
      }
      if !Passable(grid, (i, j)) && (i, j) != agent.pos {
        ImpassableGoalUnreachable(grid, agent.pos, (i, j));
      }
    }

    /** The per-frame advance: one move_step while the agent has a path and
        is not at its end. */
    method AdvanceAgent()
      requires Valid()
      modifies agent
      ensures Valid()
      ensures if agent.path != [] && old(agent.pathIndex) < |agent.path| - 1
              then agent.Data() == Moved(old(agent.Data())).0
              else agent.Data() == old(agent.Data())
      ensures old(agent.pathIndex) <= agent.pathIndex <= old(agent.pathIndex) + 1
    {
      if agent.path != [] && agent.pathIndex < |agent.path| - 1 {
        var _ := agent.MoveStep();
      }
    }
  }
}
