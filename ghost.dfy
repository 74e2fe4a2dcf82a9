/** Ghost targeting: a colour and a scatter corner per ghost type, and the
    cell each type chases. */
module Ghosts {
  import opened Base
  import opened Agent

  type Color = (int, int, int)

  const Red: Color := (255, 0, 0)
  const Pink: Color := (255, 182, 255)
  const Cyan: Color := (0, 255, 255)
  const Orange: Color := (255, 182, 85)

  /** get_ghost_color: the four named types have their own colour, any
      other type is red. */
  function GhostColor(ghostType: string): (c: Color)
    ensures ghostType !in {"blinky", "pinky", "inky", "clyde"} ==> c == Red
  {
    if ghostType == "blinky" then Red
    else if ghostType == "pinky" then Pink
    else if ghostType == "inky" then Cyan
    else if ghostType == "clyde" then Orange
    else Red
  }

  /** get_scatter_target: the corner each type retreats to; any other type
      uses pinky's corner (1, 1). */
  function ScatterCorner(ghostType: string): (t: Pos)
    ensures ghostType !in {"blinky", "pinky", "inky", "clyde"} ==> t == (1, 1)
  {
    if ghostType == "blinky" then (1, 23)
    else if ghostType == "pinky" then (1, 1)
    else if ghostType == "inky" then (23, 23)
    else if ghostType == "clyde" then (23, 1)
    else (1, 1)
  }

  /** The four named ghosts are told apart by colour and by corner. */
  lemma NamedGhostsDistinct(a: string, b: string)
    requires a in {"blinky", "pinky", "inky", "clyde"} && b in {"blinky", "pinky", "inky", "clyde"}
    ensures GhostColor(a) == GhostColor(b) <==> a == b
    ensures ScatterCorner(a) == ScatterCorner(b) <==> a == b
  {
  }

  /** The cell two steps ahead of the player. */
  function Ahead(playerPos: Pos, playerDir: Pos): Pos
  {
    (playerPos.0 + 2 * playerDir.0, playerPos.1 + 2 * playerDir.1)
  }

  function SquaredDistance(a: Pos, b: Pos): (d: int)
    ensures d >= 0
  {
    (a.0 - b.0) * (a.0 - b.0) + (a.1 - b.1) * (a.1 - b.1)
  }

  /** get_chase_target for a ghost of the given type, mode, corner and
      position. Clyde's "within 8 tiles" test is the integer test on the
      squared distance. */
  function ChaseTarget(ghostType: string, scatterMode: bool, scatterTarget: Pos, pos: Pos,
                       playerPos: Pos, playerDir: Pos, blinkyPos: Option<Pos>): (t: Pos)
    // Scatter mode overrides every type.
    ensures scatterMode ==> t == scatterTarget
    ensures !scatterMode && ghostType == "blinky" ==> t == playerPos
    // Pinky aims two cells ahead, and two further columns left when the player faces up.
    ensures !scatterMode && ghostType == "pinky" ==>
      t == (if playerDir == (-1, 0) then (Ahead(playerPos, playerDir).0, Ahead(playerPos, playerDir).1 - 2)
            else Ahead(playerPos, playerDir))
    // Inky aims at the reflection of blinky through the cell two ahead of the player.
    ensures !scatterMode && ghostType == "inky" && blinkyPos.Some? ==>
      t.0 + blinkyPos.value.0 == 2 * Ahead(playerPos, playerDir).0 &&
      t.1 + blinkyPos.value.1 == 2 * Ahead(playerPos, playerDir).1
    // Clyde chases from afar and retreats to its corner when near.
    ensures !scatterMode && ghostType == "clyde" ==>
      t == (if SquaredDistance(playerPos, pos) < 64 then scatterTarget else playerPos)
    // Inky without blinky, and any other type, chase the player.
    ensures !scatterMode && ghostType == "inky" && blinkyPos.None? ==> t == playerPos
    ensures !scatterMode && ghostType !in {"blinky", "pinky", "inky", "clyde"} ==> t == playerPos
  {
    if scatterMode then scatterTarget
    else if ghostType == "blinky" then playerPos
    else if ghostType == "pinky" then
      var (tx, ty) := Ahead(playerPos, playerDir);
      if playerDir == (-1, 0) then (tx, ty - 2) else (tx, ty)
    else if ghostType == "inky" && blinkyPos.Some? then
      var (ix, iy) := Ahead(playerPos, playerDir);
      var (vx, vy) := (ix - blinkyPos.value.0, iy - blinkyPos.value.1);
      (ix + vx, iy + vy)
    else if ghostType == "clyde" then
      if SquaredDistance(playerPos, pos) < 64 then scatterTarget else playerPos
    else playerPos
  }

  /** Clyde's test: the non-negative square root of the squared distance is
      below 8 exactly when the squared distance is below 64. */
  lemma ClydeThreshold(d: int, s: real)
    requires d >= 0 && s >= 0.0 && s * s == d as real
    ensures s < 8.0 <==> d < 64
  {
    if s < 8.0 {
      assert s * s < 8.0 * 8.0 by {
        assert s * s <= s * 8.0;
        assert s * 8.0 < 8.0 * 8.0;
      }
    } else {
      assert s * s >= 8.0 * 8.0 by {
        assert s * s >= s * 8.0;
        assert s * 8.0 >= 8.0 * 8.0;
      }
    }
  }

  /** Pinky's quirk: facing up, the target is two rows up and two columns
      left of the player. */
  lemma PinkyFacingUp(scatterTarget: Pos, pos: Pos, blinkyPos: Option<Pos>)
    ensures ChaseTarget("pinky", false, scatterTarget, pos, (10, 10), (-1, 0), blinkyPos) == (8, 8)
  {
  }

  /** Inky with the player at (5, 5) facing right and blinky at (3, 3). */
  lemma InkyExample(scatterTarget: Pos, pos: Pos)
    ensures ChaseTarget("inky", false, scatterTarget, pos, (5, 5), (0, 1), Some((3, 3))) == (7, 11)
  {
  }

  /** Ghost: a path agent with a type, a scatter flag, an activity flag, a
      colour and a scatter corner. */
  class Ghost {
    const agent: PathAgent
    const ghostType: string
    var scatterMode: bool
    var active: bool
    const color: Color
    const scatterTarget: Pos

    /** A new ghost is a fresh agent at `pos`, not scattering and not yet
        released, with its type's colour and corner. */
    constructor (pos: Pos, ghostType: string)
      ensures fresh(agent) && agent.Valid()
      ensures agent.Data() == AgentData(pos, [], 0, false, true)
      ensures this.ghostType == ghostType && !scatterMode && !active
      ensures color == GhostColor(ghostType) && scatterTarget == ScatterCorner(ghostType)
    {
      agent := new PathAgent(pos);
      this.ghostType := ghostType;
      scatterMode := false;
      active := false;
      color := GhostColor(ghostType);
      scatterTarget := ScatterCorner(ghostType);
    }

    /** get_chase_target; it reads the ghost and writes nothing. */
    function GetChaseTarget(playerPos: Pos, playerDir: Pos, blinkyPos: Option<Pos>): Pos
      reads this, agent
    {
      ChaseTarget(ghostType, scatterMode, scatterTarget, agent.pos, playerPos, playerDir, blinkyPos)
    }
  }
}
