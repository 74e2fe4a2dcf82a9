/** The path-following agent: a position, the path it is on, its index
    into that path and two mode flags. */
module Agent {
  import opened Base
  import opened Algorithms

  /** The agent's fields as a value: the state the methods below act on. */
  datatype AgentData = AgentData(pos: Pos, path: seq<Pos>, pathIndex: int, moving: bool, exploring: bool)

  /** The index lies in [0, max(0, |path| - 1)]. */
  predicate IndexInRange(d: AgentData)
  {
    0 <= d.pathIndex && (d.pathIndex < |d.path| || d.pathIndex == 0)
  }

  /** set_final_path: adopt p from its start, moving and no longer
      exploring; the position is not touched. */
  function FinalPath(d: AgentData, p: seq<Pos>): (r: AgentData)
    ensures IndexInRange(r)
    ensures r.path == p && r.pathIndex == 0 && r.moving && !r.exploring && r.pos == d.pos
  {
    AgentData(d.pos, p, 0, true, false)
  }

  /** move_step: advance one cell while moving and not yet at the end of
      the path; otherwise stop moving. Returns the new state and whether
      the agent moved. */
  function Moved(d: AgentData): (r: (AgentData, bool))
    requires IndexInRange(d)
    ensures IndexInRange(r.0) && r.0.path == d.path && r.0.exploring == d.exploring
    ensures r.1 <==> d.moving && d.pathIndex < |d.path| - 1
    ensures r.1 ==> r.0.moving && r.0.pathIndex == d.pathIndex + 1 && r.0.pos == d.path[r.0.pathIndex]
    ensures !r.1 ==> !r.0.moving && r.0.pos == d.pos && r.0.pathIndex == d.pathIndex
  {
    if d.moving && d.pathIndex < |d.path| - 1 then
      (d.(pathIndex := d.pathIndex + 1, pos := d.path[d.pathIndex + 1]), true)
    else
      (d.(moving := false), false)
  }

  /** k successive move_step calls. */
  function MovedTimes(d: AgentData, k: nat): (r: AgentData)
    requires IndexInRange(d)
    ensures IndexInRange(r) && r.path == d.path
  {
    if k == 0 then d else Moved(MovedTimes(d, k - 1)).0
  }

  /** After set_final_path(p) with n = |p| >= 1, the first n - 1 moves
      succeed, the k-th leaving the agent on p[k]; the move after them
      fails, with the agent on the last cell of p (or where it was when p
      has a single cell). */
  lemma {:induction false} FollowFinalPath(d: AgentData, p: seq<Pos>, k: nat)
    requires |p| >= 1 && k <= |p| - 1
    ensures var f := MovedTimes(FinalPath(d, p), k);
      f.pathIndex == k && f.moving && (k > 0 ==> f.pos == p[k])
    ensures k < |p| - 1 ==> Moved(MovedTimes(FinalPath(d, p), k)).1
    ensures k == |p| - 1 ==> !Moved(MovedTimes(FinalPath(d, p), k)).1
    ensures k == |p| - 1 ==> MovedTimes(FinalPath(d, p), k).pos == (if |p| > 1 then Last(p) else d.pos)
  {
    if k > 0 {
      FollowFinalPath(d, p, k - 1);
    }
  }

  /** PathAgent. */
  class PathAgent {
    var pos: Pos
    var path: seq<Pos>
    var pathIndex: int
    var moving: bool
    var exploring: bool

    function Data(): AgentData
      reads this
    {
      AgentData(pos, path, pathIndex, moving, exploring)
    }

    ghost predicate Valid()
      reads this
    {
      IndexInRange(Data())
    }

    /** A new agent stands at its start with no path, exploring. */
    constructor (start: Pos)
      ensures pos == start && path == [] && pathIndex == 0 && !moving && exploring
      ensures Valid()
    {
      pos := start;
      path := [];
      pathIndex := 0;
      moving := false;
      exploring := true;
    }

    /** set_exploration_path: with no candidate, nothing changes; otherwise
        show the path to the candidate and stand on its last cell. The
        predecessor map must be acyclic for the walk back to end, which the
        ghost `rank` witnesses. */
    method SetExplorationPath(current: Option<Pos>, cameFrom: map<Pos, Pos>, ghost rank: map<Pos, int>)
      requires Ranked(cameFrom, rank)
      modifies this
      ensures current.None? ==> Data() == old(Data())
      ensures current.Some? ==>
        && path == PathTo(cameFrom, rank, current.value)
        && pathIndex == |path| - 1
        && pos == current.value
        && moving == old(moving) && exploring == old(exploring)
      ensures current.Some? ==> Valid() && pos == path[pathIndex]
      ensures old(Valid()) ==> Valid()
    {
      if current.None? {
        return;
      }
      var p := ReconstructPath(cameFrom, rank, current.value);
      path := p;
      pathIndex := |p| - 1;
      pos := current.value;
    }

    /** set_final_path. */
    method SetFinalPath(p: seq<Pos>)
      modifies this
      ensures Data() == FinalPath(old(Data()), p)
      ensures Valid()
    {
      path := p;
      pathIndex := 0;
      moving := true;
      exploring := false;
    }

    /** move_step. */
    method MoveStep() returns (moved: bool)
      requires Valid()
      modifies this
      ensures (Data(), moved) == Moved(old(Data()))
      ensures Valid()
    {
      if moving && pathIndex < |path| - 1 {
        pathIndex := pathIndex + 1;
        pos := path[pathIndex];
        return true;
      }
      moving := false;
      return false;
    }
  }
}
