/** The game's state: the level, the player, the ghosts and the frame
    timers that release ghosts and switch them between chase and scatter. */
module Game {
  import opened Base
  import opened Agent
  import opened Ghosts
  import Level

  const DefaultReleaseTimes: seq<int> := [0, 300, 600, 900]

  /** The scatter timer's period and the point in it where scatter starts. */
  const ScatterPeriod := 400
  const ScatterStart := 200

  /** Ghost g is listed among the first n entries at an index whose release
      time the timer has reached. */
  ghost predicate ReleasedWithin(ghosts: seq<Ghost>, releaseTimes: seq<int>, timer: int, g: Ghost, n: int)
  {
    exists j :: 0 <= j < n && j < |releaseTimes| && j < |ghosts| && ghosts[j] == g && timer >= releaseTimes[j]
  }

  /** update's first loop: release every ghost whose index has a release
      time the timer has reached. */
  method ReleaseDue(gs: seq<Ghost>, releaseTimes: seq<int>, timer: int)
    requires forall i :: |gs| <= i < |releaseTimes| ==> timer < releaseTimes[i]
    modifies gs
    ensures forall k :: 0 <= k < |gs| ==>
      gs[k].active == (old(gs[k].active) || ReleasedWithin(gs, releaseTimes, timer, gs[k], |releaseTimes|))
    ensures forall k :: 0 <= k < |gs| ==> gs[k].scatterMode == old(gs[k].scatterMode)
  {
    for i := 0 to |releaseTimes|
      invariant forall k :: 0 <= k < |gs| ==>
        gs[k].active == (old(gs[k].active) || ReleasedWithin(gs, releaseTimes, timer, gs[k], i))
      invariant forall k :: 0 <= k < |gs| ==> gs[k].scatterMode == old(gs[k].scatterMode)
    {
      if timer >= releaseTimes[i] && !gs[i].active {
        gs[i].active := true;
      }
      if timer >= releaseTimes[i] {
        assert forall k :: 0 <= k < |gs| && gs[k] == gs[i] ==> ReleasedWithin(gs, releaseTimes, timer, gs[k], i + 1);
      }
    }
  }

  /** update's second loop: every active ghost takes the scatter flag. */
  method ApplyScatter(gs: seq<Ghost>, scatterMode: bool)
    modifies gs
    ensures forall k :: 0 <= k < |gs| ==> gs[k].active == old(gs[k].active)
    ensures forall k :: 0 <= k < |gs| ==>
      gs[k].scatterMode == if gs[k].active then scatterMode else old(gs[k].scatterMode)
  {
    for i := 0 to |gs|
      invariant forall k :: 0 <= k < |gs| ==> gs[k].active == old(gs[k].active)
      invariant forall k :: 0 <= k < |gs| ==>
        gs[k].scatterMode == if gs[k].active && gs[k] in gs[..i] then scatterMode else old(gs[k].scatterMode)
    {
      assert forall k :: 0 <= k < |gs| ==> (gs[k] in gs[..i + 1] <==> gs[k] in gs[..i] || gs[k] == gs[i]) by {
        assert gs[..i + 1] == gs[..i] + [gs[i]];
      }
      if gs[i].active {
        gs[i].scatterMode := scatterMode;
      }
    }
    assert forall k :: 0 <= k < |gs| ==> gs[k] in gs[..|gs|];
  }

  /** A ghost as its constructor leaves it: unreleased and not scattering,
      its agent valid with an empty path at index 0, not moving and
      exploring, and its colour and scatter corner those of its type. */
  ghost predicate StartingGhost(g: Ghost)
    reads g, g.agent
  {
    && g.agent.Valid() && g.agent.path == [] && g.agent.pathIndex == 0
    && !g.agent.moving && g.agent.exploring && !g.active && !g.scatterMode
    && g.scatterTarget == ScatterCorner(g.ghostType) && g.color == GhostColor(g.ghostType)
  }

  /** Four unreleased, non-scattering ghosts with empty paths, not moving
      and exploring, each with its type's colour and scatter corner, in the
      order blinky, inky, pinky, clyde, so that the first is blinky. */
  ghost predicate StartingGhosts(gs: seq<Ghost>)
    reads set g | g in gs
    reads set g | g in gs :: g.agent
  {
    && |gs| == 4
    && gs[0].ghostType == "blinky" && gs[1].ghostType == "inky"
    && gs[2].ghostType == "pinky" && gs[3].ghostType == "clyde"
    && gs[0].agent.pos == (11, 9) && gs[1].agent.pos == (11, 10)
    && gs[2].agent.pos == (11, 12) && gs[3].agent.pos == (11, 13)
    && forall g :: g in gs ==> StartingGhost(g)
  }

  /** In scatter mode the four starting ghosts head for four different
      corners, and each is drawn in its own colour. */
  lemma StartingGhostsApart(gs: seq<Ghost>)
    requires StartingGhosts(gs)
    ensures forall i, j :: 0 <= i < j < |gs| ==>
      gs[i].scatterTarget != gs[j].scatterTarget && gs[i].color != gs[j].color
  {
    forall i, j | 0 <= i < j < |gs|
      ensures gs[i].scatterTarget != gs[j].scatterTarget && gs[i].color != gs[j].color
    {
      assert gs[i] in gs && gs[j] in gs;
      NamedGhostsDistinct(gs[i].ghostType, gs[j].ghostType);
    }
  }

  /** The ghosts create_new_game builds. */
  method NewGhosts() returns (gs: seq<Ghost>)
    ensures StartingGhosts(gs)
    ensures forall i, j :: 0 <= i < j < |gs| ==> gs[i] != gs[j]
    ensures forall g :: g in gs ==> fresh(g) && fresh(g.agent)
  {
    var blinky := new Ghost((11, 9), "blinky");
    assert StartingGhost(blinky);
    var inky := new Ghost((11, 10), "inky");
    assert StartingGhost(inky);
    var pinky := new Ghost((11, 12), "pinky");
    assert StartingGhost(pinky);
    var clyde := new Ghost((11, 13), "clyde");
    assert StartingGhost(clyde);
    gs := [blinky, inky, pinky, clyde];
  }

  /** The starting coordinates do not fit the level: the player starts off
      the grid, and pinky and clyde start on walls. */
  lemma StartingPositionsOffFloor(g: Grid)
    requires Level.IsLevel(g)
    ensures WellFormed(g) && !InBounds(g, (18, 11))
    ensures g[11][12] == Wall && g[11][13] == Wall
  {
    Level.LevelShape(g);
    Level.TunnelRowWalls(g);
  }

  class GameState {
    var grid: Grid
    var playerPos: Pos
    var playerDirection: Pos
    var ghosts: seq<Ghost>
    var score: int
    var ghostReleaseTimes: seq<int>
    var gameTimer: int
    var scatterTimer: int
    var debugMode: bool

    /** No ghost object is listed twice. */
    ghost predicate DistinctGhosts()
      reads this
    {
      forall i, j :: 0 <= i < j < |ghosts| ==> ghosts[i] != ghosts[j]
    }

    /** The dataclass constructor with its post-init step: missing release
        times default to [0, 300, 600, 900]. */
    constructor (grid: Grid, playerPos: Pos, playerDirection: Pos, ghosts: seq<Ghost>, score: int,
                 releaseTimes: Option<seq<int>>, gameTimer: int, scatterTimer: int, debugMode: bool)
      ensures this.grid == grid && this.playerPos == playerPos && this.playerDirection == playerDirection
      ensures this.ghosts == ghosts && this.score == score
      ensures ghostReleaseTimes == if releaseTimes.None? then DefaultReleaseTimes else releaseTimes.value
      ensures this.gameTimer == gameTimer && this.scatterTimer == scatterTimer && this.debugMode == debugMode
    {
      this.grid := grid;
      this.playerPos := playerPos;
      this.playerDirection := playerDirection;
      this.ghosts := ghosts;
      this.score := score;
      this.gameTimer := gameTimer;
      this.scatterTimer := scatterTimer;
      this.debugMode := debugMode;
      if releaseTimes.None? {
        ghostReleaseTimes := DefaultReleaseTimes;
      } else {
        ghostReleaseTimes := releaseTimes.value;
      }
    }

    /** create_new_game: the level, the player at (18, 11) standing still,
        the four starting ghosts, and every other field at its default. */
    static method CreateNewGame() returns (s: GameState)
      ensures fresh(s) && Level.IsLevel(s.grid)
      ensures s.playerPos == (18, 11) && s.playerDirection == (0, 0)
      ensures s.score == 0 && s.ghostReleaseTimes == DefaultReleaseTimes
      ensures s.gameTimer == 0 && s.scatterTimer == 0 && !s.debugMode
      ensures StartingGhosts(s.ghosts) && s.DistinctGhosts()
      ensures forall g :: g in s.ghosts ==> fresh(g) && fresh(g.agent)
    {
      var grid := Level.CreateGrid();
      var ghosts := NewGhosts();
      s := new GameState(grid, (18, 11), (0, 0), ghosts, 0, None, 0, 0, false);
    }

    /** update: one frame. The game timer counts up, the scatter timer
        cycles through [0, 400); every ghost whose release time has come is
        released for good; and every released ghost takes the scatter flag,
        which is on in the second half of the scatter cycle. The source
        reads ghosts[i] only for release times already reached, so only
        those need a ghost. */
    method Update()
      requires forall i :: |ghosts| <= i < |ghostReleaseTimes| ==> gameTimer + 1 < ghostReleaseTimes[i]
      modifies this, ghosts
      ensures gameTimer == old(gameTimer) + 1
      ensures scatterTimer == (old(scatterTimer) + 1) % ScatterPeriod && 0 <= scatterTimer < ScatterPeriod
      ensures grid == old(grid) && playerPos == old(playerPos) && playerDirection == old(playerDirection)
      ensures ghosts == old(ghosts) && score == old(score) && debugMode == old(debugMode)
      ensures ghostReleaseTimes == old(ghostReleaseTimes)
      // Release: once active, always active; otherwise active exactly when a release time was reached.
      ensures forall i :: 0 <= i < |ghosts| ==>
        ghosts[i].active == (old(ghosts[i].active) ||
                             ReleasedWithin(ghosts, ghostReleaseTimes, gameTimer, ghosts[i], |ghostReleaseTimes|))
      ensures DistinctGhosts() ==> forall i :: 0 <= i < |ghosts| ==>
        ghosts[i].active == (old(ghosts[i].active) || (i < |ghostReleaseTimes| && gameTimer >= ghostReleaseTimes[i]))
      // Scatter flag: set on active ghosts, kept on the others.
      ensures forall i :: 0 <= i < |ghosts| ==>
        ghosts[i].scatterMode == if ghosts[i].active then scatterTimer >= ScatterStart else old(ghosts[i].scatterMode)
      // The agents (positions and paths) are untouched.
      ensures forall i :: 0 <= i < |ghosts| ==> ghosts[i].agent.Data() == old(ghosts[i].agent.Data())
    {
      gameTimer := gameTimer + 1;
      scatterTimer := (scatterTimer + 1) % ScatterPeriod;
      var scatterMode := scatterTimer >= ScatterStart;
      ReleaseDue(ghosts, ghostReleaseTimes, gameTimer);
      ApplyScatter(ghosts, scatterMode);
      if DistinctGhosts() {
        forall i | 0 <= i < |ghosts| && ReleasedWithin(ghosts, ghostReleaseTimes, gameTimer, ghosts[i], |ghostReleaseTimes|)
          ensures i < |ghostReleaseTimes| && gameTimer >= ghostReleaseTimes[i]
        {
          var j :| 0 <= j < |ghostReleaseTimes| && j < |ghosts| && ghosts[j] == ghosts[i] && gameTimer >= ghostReleaseTimes[j];
          assert i == j;
        }
      }
    }
  }
}
