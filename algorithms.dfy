/** The resumable search engine of modules/algorithms.py: the Manhattan
    heuristic, the neighbour generator, predecessor-chain reconstruction and
    the one-pop-at-a-time A* and Dijkstra steps over a search state the
    caller owns. */
module Algorithms {
  import opened Base

  function Abs(x: int): nat
  {
    if x < 0 then -x else x
  }

  // ---------------------------------------------------------------------
  // Heuristic

  /** Manhattan distance between two cells. */
  function Heuristic(a: Pos, b: Pos): (h: nat)
    ensures h == 0 <==> a == b
  {
    Abs(a.0 - b.0) + Abs(a.1 - b.1)
  }

  lemma HeuristicSymmetric(a: Pos, b: Pos)
    ensures Heuristic(a, b) == Heuristic(b, a)
  {
  }

  /** One move changes the heuristic by at most one, which is at most the
      cost of the move: the heuristic is consistent on this grid. */
  lemma HeuristicConsistent(a: Pos, b: Pos, goal: Pos)
    requires Adjacent(a, b)
    ensures Heuristic(a, goal) <= 1 + Heuristic(b, goal)
    ensures Heuristic(b, goal) <= 1 + Heuristic(a, goal)
  {
  }

  // ---------------------------------------------------------------------
  // Neighbours

  /** The offsets in the order the source tries them: down, up, right, left. */
  const Directions: seq<Pos> := [(1, 0), (-1, 0), (0, 1), (0, -1)]

  /** A neighbour together with the cost of stepping onto it. */
  datatype Edge = Edge(to: Pos, cost: int)

  predicate Adjacent(p: Pos, q: Pos)
  {
    Heuristic(p, q) == 1
  }

  predicate Passable(g: Grid, q: Pos)
    requires WellFormed(g)
  {
    InBounds(g, q) && Cell(g, q) != Wall
  }

  function MoveCost(g: Grid, q: Pos): int
    requires WellFormed(g) && InBounds(g, q)
  {
    if Cell(g, q) == SlowTerrain then 2 else 1
  }

  /** A move the search may take: onto an orthogonally adjacent cell that
      is inside the grid and is not a wall. */
  predicate IsEdge(g: Grid, p: Pos, q: Pos)
    requires WellFormed(g)
  {
    Adjacent(p, q) && Passable(g, q)
  }

  /** What the generator yields for one offset. */
  function Offer(g: Grid, p: Pos, d: Pos): seq<Edge>
    requires WellFormed(g)
  {
    var q := (p.0 + d.0, p.1 + d.1);
    if Passable(g, q) then [Edge(q, MoveCost(g, q))] else []
  }

  function NeighborsAlong(g: Grid, p: Pos, ds: seq<Pos>): (r: seq<Edge>)
    requires WellFormed(g)
    ensures |r| <= |ds|
    ensures forall i :: 0 <= i < |r| ==> Passable(g, r[i].to) && r[i].cost == MoveCost(g, r[i].to)
    decreases |ds|
  {
    if ds == [] then [] else NeighborsAlong(g, p, ds[..|ds| - 1]) + Offer(g, p, ds[|ds| - 1])
  }

  /** Everything neighbors(pos, grid) yields, in order: at most four
      legal moves, each with the cost of entering its cell. */
  function Neighbors(g: Grid, p: Pos): (ns: seq<Edge>)
    requires WellFormed(g)
    ensures |ns| <= 4
    ensures forall i :: 0 <= i < |ns| ==> Passable(g, ns[i].to) && ns[i].cost == MoveCost(g, ns[i].to)
  {
    NeighborsAlong(g, p, Directions)
  }

  /** The yield order is down, up, right, left. */
  lemma NeighborsOrder(g: Grid, p: Pos)
    requires WellFormed(g)
    ensures Neighbors(g, p)
         == Offer(g, p, (1, 0)) + Offer(g, p, (-1, 0)) + Offer(g, p, (0, 1)) + Offer(g, p, (0, -1))
  {
    var ds := Directions;
    assert ds[..4] == ds;
    assert ds[..4][..3] == ds[..3] && ds[..3][..2] == ds[..2] && ds[..2][..1] == ds[..1];
    assert ds[..1][..0] == [];
    assert NeighborsAlong(g, p, ds[..1]) == Offer(g, p, (1, 0));
    assert NeighborsAlong(g, p, ds[..2]) == Offer(g, p, (1, 0)) + Offer(g, p, (-1, 0));
    assert NeighborsAlong(g, p, ds[..3])
        == Offer(g, p, (1, 0)) + Offer(g, p, (-1, 0)) + Offer(g, p, (0, 1));
  }

  /** The generator yields exactly the legal moves, each with its cost. */
  lemma NeighborsExactly(g: Grid, p: Pos, e: Edge)
    requires WellFormed(g)
    ensures e in Neighbors(g, p) <==> IsEdge(g, p, e.to) && e.cost == MoveCost(g, e.to)
  {
    NeighborsOrder(g, p);
  }

  /** No more than four neighbours, and no cell is yielded twice. */
  lemma NeighborsDistinct(g: Grid, p: Pos)
    requires WellFormed(g)
    ensures |Neighbors(g, p)| <= 4
    ensures forall i, j :: 0 <= i < j < |Neighbors(g, p)| ==> Neighbors(g, p)[i].to != Neighbors(g, p)[j].to
  {
    NeighborsOrder(g, p);
  }

  /** One more offset appends that offset's offer. */
  lemma NeighborsAlongStep(g: Grid, p: Pos, k: nat)
    requires WellFormed(g) && k < |Directions|
    ensures NeighborsAlong(g, p, Directions[..k + 1]) == NeighborsAlong(g, p, Directions[..k]) + Offer(g, p, Directions[k])
  {
    assert Directions[..k + 1][..k] == Directions[..k];
  }

  /** neighbors(pos, grid): the loop over the four offsets. */
  method NeighborsOf(g: Grid, p: Pos) returns (ns: seq<Edge>)
    requires WellFormed(g)
    ensures ns == Neighbors(g, p)
  {
    ns := [];
    for k := 0 to |Directions|
      invariant ns == NeighborsAlong(g, p, Directions[..k])
    {
      var d := Directions[k];
      var q := (p.0 + d.0, p.1 + d.1);
      NeighborsAlongStep(g, p, k);
      if 0 <= q.0 < |g| && 0 <= q.1 < |g[0]| && g[q.0][q.1] != 1 {
        assert Offer(g, p, d) == [Edge(q, MoveCost(g, q))];
        ns := ns + [Edge(q, if g[q.0][q.1] == 2 then 2 else 1)];
      } else {
        assert Offer(g, p, d) == [];
      }
    }
    assert Directions[..|Directions|] == Directions;
  }

  // ---------------------------------------------------------------------
  // Predecessor chains

  /** A predecessor map whose every edge strictly lowers `rank`: it has no
      cycle, so following it terminates. Inside a search the rank is the
      g-score map. */
  ghost predicate Ranked(cf: map<Pos, Pos>, rank: map<Pos, int>)
  {
    forall p :: p in cf ==> p in rank && cf[p] in rank && 0 <= rank[cf[p]] < rank[p]
  }

  /** The chain reconstruct_path(cf, c) returns, start first. */
  function PathTo(cf: map<Pos, Pos>, ghost rank: map<Pos, int>, c: Pos): (path: seq<Pos>)
    requires Ranked(cf, rank)
    ensures |path| > 0 && Last(path) == c
    ensures path[0] !in cf
    ensures forall i :: 1 <= i < |path| ==> path[i] in cf && cf[path[i]] == path[i - 1]
    ensures c in rank ==> forall i :: 0 <= i < |path| ==> path[i] in rank
    decreases if c in rank then rank[c] else 0
  {
    if c in cf then PathTo(cf, rank, cf[c]) + [c] else [c]
  }

  function Reversed(s: seq<Pos>): (r: seq<Pos>)
    ensures |r| == |s|
    ensures forall i :: 0 <= i < |s| ==> r[i] == s[|s| - 1 - i]
  {
    if s == [] then [] else [s[|s| - 1]] + Reversed(s[..|s| - 1])
  }

  /** reconstruct_path: follow predecessors from c, collecting cells, then
      reverse the collected list. */
  method ReconstructPath(cf: map<Pos, Pos>, ghost rank: map<Pos, int>, c: Pos) returns (path: seq<Pos>)
    requires Ranked(cf, rank)
    ensures path == PathTo(cf, rank, c)
  {
    var current := c;
    var trail := [current];
    while current in cf
      invariant |trail| > 0 && Last(trail) == current
      invariant PathTo(cf, rank, c) == PathTo(cf, rank, current) + Reversed(trail[..|trail| - 1])
      decreases if current in rank then rank[current] else 0
    {
      var before := trail;
      current := cf[current];
      trail := trail + [current];
      assert trail[..|trail| - 1] == before;
      assert Reversed(before) == [Last(before)] + Reversed(before[..|before| - 1]);
    }
    path := Reversed(trail);
    assert Reversed(trail) == [current] + Reversed(trail[..|trail| - 1]);
  }

  // ---------------------------------------------------------------------
  // Frontier entries

  /** A frontier entry, the source's (priority, (row, col)) tuple. */
  datatype Entry = Entry(priority: int, pos: Pos)

  /** Python's tuple order: priority first, then row, then column. */
  predicate EntryLe(a: Entry, b: Entry)
  {
    || a.priority < b.priority
    || (a.priority == b.priority && a.pos.0 < b.pos.0)
    || (a.priority == b.priority && a.pos.0 == b.pos.0 && a.pos.1 <= b.pos.1)
  }

  /** The order is total and antisymmetric, so the least entry of a
      frontier is unique: ties between equal priorities go to the smaller
      cell, and the heap's internal layout never matters. */
  lemma EntryOrderTotal(a: Entry, b: Entry, c: Entry)
    ensures EntryLe(a, a)
    ensures EntryLe(a, b) || EntryLe(b, a)
    ensures EntryLe(a, b) && EntryLe(b, a) ==> a == b
    ensures EntryLe(a, b) && EntryLe(b, c) ==> EntryLe(a, c)
  {
  }

  /** The entry heappop returns. */
  function MinEntry(s: seq<Entry>): (m: Entry)
    requires |s| > 0
    ensures m in s
    ensures forall e :: e in s ==> EntryLe(m, e)
  {
    if |s| == 1 then s[0]
    else
      var m := MinEntry(s[1..]);
      assert s == [s[0]] + s[1..];
      if EntryLe(s[0], m) then s[0] else m
  }

  lemma MinEntryUnique(s: seq<Entry>, m: Entry)
    requires m in s && forall e :: e in s ==> EntryLe(m, e)
    ensures m == MinEntry(s)
  {
    EntryOrderTotal(m, MinEntry(s), m);
  }

  // ---------------------------------------------------------------------
  // Relaxing the neighbours of the popped cell

  /** The two searches differ only in the priority they push. */
  datatype Variant = AStar | Dijkstra

  /** astar_step pushes tentative_g + heuristic(neighbor, goal),
      dijkstra_step pushes tentative_g. */
  function Priority(v: Variant, g: int, n: Pos, goal: Pos): (pr: int)
    ensures g <= pr <= g + Heuristic(n, goal)
    ensures v == Dijkstra ==> pr == g
    ensures pr == g <==> v == Dijkstra || n == goal
  {
    match v
    case AStar => g + Heuristic(n, goal)
    case Dijkstra => g
  }

  /** The predecessor map, the score map and the entries pushed so far. */
  datatype Relaxation = Relaxation(cameFrom: map<Pos, Pos>, gScore: map<Pos, int>, pushed: seq<Entry>)

  /** One iteration of the loop over neighbours: a closed neighbour is
      skipped; otherwise it is updated when undiscovered or strictly
      cheaper through the current cell. */
  function RelaxEdge(v: Variant, goal: Pos, closed: set<Pos>, current: Pos, e: Edge, x: Relaxation): (y: Relaxation)
    requires current in closed && current in x.gScore
    ensures current in y.gScore && y.gScore[current] == x.gScore[current]
    ensures e.to in closed ==> y == x
    ensures |x.pushed| <= |y.pushed| <= |x.pushed| + 1
  {
    if e.to in closed then x
    else
      var t := x.gScore[current] + e.cost;
      if e.to !in x.gScore || t < x.gScore[e.to] then
        Relaxation(x.cameFrom[e.to := current], x.gScore[e.to := t], x.pushed + [Entry(Priority(v, t, e.to, goal), e.to)])
      else x
  }

  /** The loop over neighbours, from the maps the step starts with. */
  function Relax(v: Variant, goal: Pos, closed: set<Pos>, current: Pos, ns: seq<Edge>,
                 cf: map<Pos, Pos>, g: map<Pos, int>): (x: Relaxation)
    requires current in closed && current in g
    ensures current in x.gScore && x.gScore[current] == g[current]
    ensures |x.pushed| <= |ns|
    decreases |ns|
  {
    if ns == [] then Relaxation(cf, g, [])
    else RelaxEdge(v, goal, closed, current, ns[|ns| - 1], Relax(v, goal, closed, current, ns[..|ns| - 1], cf, g))
  }

  /** p has the same predecessor and score entry in both pairs of maps. */
  ghost predicate SameEntry(cf: map<Pos, Pos>, g: map<Pos, int>, cf': map<Pos, Pos>, g': map<Pos, int>, p: Pos)
  {
    && (p in g <==> p in g') && (p in g ==> g'[p] == g[p])
    && (p in cf <==> p in cf') && (p in cf ==> cf'[p] == cf[p])
  }

  /** Keys only grow, scores only fall, and closed cells keep their entry. */
  lemma {:induction false} RelaxGrows(v: Variant, goal: Pos, closed: set<Pos>, current: Pos, ns: seq<Edge>,
                                      cf: map<Pos, Pos>, g: map<Pos, int>)
    requires current in closed && current in g
    ensures var x := Relax(v, goal, closed, current, ns, cf, g);
      && g.Keys <= x.gScore.Keys && cf.Keys <= x.cameFrom.Keys
      && (forall p :: p in g ==> x.gScore[p] <= g[p])
      && (forall p :: p in closed ==> SameEntry(cf, g, x.cameFrom, x.gScore, p))
    decreases |ns|
  {
    if ns != [] {
      RelaxGrows(v, goal, closed, current, ns[..|ns| - 1], cf, g);
    }
  }

  /** What an update leaves behind: an open cell whose predecessor is the
      current cell, whose score is new or strictly lower and equals the
      current score plus the cost of one of the edges, and for which an
      entry was pushed. */
  ghost predicate Updated(closed: set<Pos>, current: Pos, ns: seq<Edge>, g: map<Pos, int>, x: Relaxation, p: Pos)
    requires current in g
  {
    && p !in closed
    && p in x.cameFrom && x.cameFrom[p] == current
    && p in x.gScore && (p !in g || x.gScore[p] < g[p])
    && (exists k :: 0 <= k < |ns| && ns[k].to == p && x.gScore[p] == g[current] + ns[k].cost)
    && (exists i :: 0 <= i < |x.pushed| && x.pushed[i].pos == p)
  }

  /** Every entry is either untouched or was updated from the current cell. */
  lemma {:induction false} RelaxUpdates(v: Variant, goal: Pos, closed: set<Pos>, current: Pos, ns: seq<Edge>,
                                        cf: map<Pos, Pos>, g: map<Pos, int>, p: Pos)
    requires current in closed && current in g
    ensures var x := Relax(v, goal, closed, current, ns, cf, g);
      SameEntry(cf, g, x.cameFrom, x.gScore, p) || Updated(closed, current, ns, g, x, p)
    decreases |ns|
  {
    if ns != [] {
      var pre := ns[..|ns| - 1];
      var x0 := Relax(v, goal, closed, current, pre, cf, g);
      RelaxUpdates(v, goal, closed, current, pre, cf, g, p);
      RelaxGrows(v, goal, closed, current, pre, cf, g);
      assert ns == pre + [ns[|ns| - 1]];
      RelaxEdgeUpdates(v, goal, closed, current, pre, ns[|ns| - 1], g, cf, x0, p);
    }
  }

  /** The inductive step of RelaxUpdates: one more edge keeps every entry
      either untouched or updated from the current cell. */
  lemma RelaxEdgeUpdates(v: Variant, goal: Pos, closed: set<Pos>, current: Pos, pre: seq<Edge>, e: Edge,
                         g: map<Pos, int>, cf: map<Pos, Pos>, x0: Relaxation, p: Pos)
    requires current in closed && current in g && current in x0.gScore && x0.gScore[current] == g[current]
    requires g.Keys <= x0.gScore.Keys && (p in g ==> x0.gScore[p] <= g[p])
    requires SameEntry(cf, g, x0.cameFrom, x0.gScore, p) || Updated(closed, current, pre, g, x0, p)
    ensures var x := RelaxEdge(v, goal, closed, current, e, x0);
      SameEntry(cf, g, x.cameFrom, x.gScore, p) || Updated(closed, current, pre + [e], g, x, p)
  {
    var ns := pre + [e];
    var x := RelaxEdge(v, goal, closed, current, e, x0);
    if x != x0 && p == e.to {
      assert ns[|ns| - 1].to == p && x.gScore[p] == g[current] + ns[|ns| - 1].cost;
      assert x.pushed[|x.pushed| - 1].pos == p;
      assert Updated(closed, current, ns, g, x, p);
    } else if !SameEntry(cf, g, x0.cameFrom, x0.gScore, p) {
      var k :| 0 <= k < |pre| && pre[k].to == p && x0.gScore[p] == g[current] + pre[k].cost;
      assert ns[k] == pre[k];
      var i :| 0 <= i < |x0.pushed| && x0.pushed[i].pos == p;
      assert x.pushed[i] == x0.pushed[i];
      assert Updated(closed, current, ns, g, x, p);
    }
  }

  /** Each pushed entry names an open cell that now has a score, and its
      priority is the variant's key for the cost through one of the edges. */
  lemma {:induction false} RelaxPushes(v: Variant, goal: Pos, closed: set<Pos>, current: Pos, ns: seq<Edge>,
                                       cf: map<Pos, Pos>, g: map<Pos, int>, x: Relaxation)
    requires current in closed && current in g
    requires x == Relax(v, goal, closed, current, ns, cf, g)
    ensures forall i :: 0 <= i < |x.pushed| ==>
      && x.pushed[i].pos !in closed && x.pushed[i].pos in x.gScore
      && exists k :: 0 <= k < |ns| && ns[k].to == x.pushed[i].pos
                     && x.pushed[i].priority == Priority(v, g[current] + ns[k].cost, ns[k].to, goal)
    decreases |ns|
  {
    if ns != [] {
      var pre := ns[..|ns| - 1];
      var x0 := Relax(v, goal, closed, current, pre, cf, g);
      assert x == RelaxEdge(v, goal, closed, current, ns[|ns| - 1], x0);
      assert x0.gScore.Keys <= x.gScore.Keys;
      RelaxPushes(v, goal, closed, current, pre, cf, g, x0);
      forall i | 0 <= i < |x.pushed|
        ensures x.pushed[i].pos !in closed && x.pushed[i].pos in x.gScore
        ensures exists k :: 0 <= k < |ns| && ns[k].to == x.pushed[i].pos
                       && x.pushed[i].priority == Priority(v, g[current] + ns[k].cost, ns[k].to, goal)
      {
        if i < |x0.pushed| {
          assert x.pushed[i] == x0.pushed[i];
          var k :| 0 <= k < |pre| && pre[k].to == x0.pushed[i].pos
                   && x0.pushed[i].priority == Priority(v, g[current] + pre[k].cost, pre[k].to, goal);
          assert ns[k] == pre[k];
        } else {
          assert ns[|ns| - 1].to == x.pushed[i].pos;
        }
      }
    }
  }

  /** After the loop every open neighbour scores at most the current
      score plus the cost of reaching it. */
  lemma {:induction false} RelaxSettles(v: Variant, goal: Pos, closed: set<Pos>, current: Pos, ns: seq<Edge>,
                                        cf: map<Pos, Pos>, g: map<Pos, int>)
    requires current in closed && current in g
    ensures var x := Relax(v, goal, closed, current, ns, cf, g);
      forall k :: 0 <= k < |ns| ==>
        ns[k].to in closed || (ns[k].to in x.gScore && x.gScore[ns[k].to] <= g[current] + ns[k].cost)
    decreases |ns|
  {
    if ns != [] {
      var pre := ns[..|ns| - 1];
      RelaxSettles(v, goal, closed, current, pre, cf, g);
      forall k | 0 <= k < |pre|
        ensures pre[k] == ns[k]
      {
      }
    }
  }

  /** When no neighbour can improve, the loop changes nothing and pushes
      nothing. */
  lemma {:induction false} RelaxNoop(v: Variant, goal: Pos, closed: set<Pos>, current: Pos, ns: seq<Edge>,
                                     cf: map<Pos, Pos>, g: map<Pos, int>)
    requires current in closed && current in g
    requires forall k :: 0 <= k < |ns| ==>
      ns[k].to in closed || (ns[k].to in g && g[ns[k].to] <= g[current] + ns[k].cost)
    ensures Relax(v, goal, closed, current, ns, cf, g) == Relaxation(cf, g, [])
    decreases |ns|
  {
    if ns != [] {
      var pre := ns[..|ns| - 1];
      forall k | 0 <= k < |pre|
        ensures pre[k] == ns[k]
      {
      }
      RelaxNoop(v, goal, closed, current, pre, cf, g);
    }
  }

  /** A* and Dijkstra update the same maps in the same way; their pushed
      entries name the same cells, and A* adds the heuristic to each key. */
  lemma {:induction false} RelaxVariants(goal: Pos, closed: set<Pos>, current: Pos, ns: seq<Edge>,
                                         cf: map<Pos, Pos>, g: map<Pos, int>)
    requires current in closed && current in g
    ensures var a := Relax(AStar, goal, closed, current, ns, cf, g);
            var d := Relax(Dijkstra, goal, closed, current, ns, cf, g);
      && a.cameFrom == d.cameFrom && a.gScore == d.gScore && |a.pushed| == |d.pushed|
      && forall i :: 0 <= i < |a.pushed| ==>
           a.pushed[i].pos == d.pushed[i].pos
           && a.pushed[i].priority == d.pushed[i].priority + Heuristic(d.pushed[i].pos, goal)
    decreases |ns|
  {
    if ns != [] {
      RelaxVariants(goal, closed, current, ns[..|ns| - 1], cf, g);
    }
  }

  // ---------------------------------------------------------------------
  // Search-state invariant

  /** Every cell of the grid, and the start, which the search may be seeded
      with even when it lies outside the grid. */
  ghost function Universe(grid: Grid, start: Pos): set<Pos>
    requires WellFormed(grid)
  {
    (set i, j | 0 <= i < |grid| && 0 <= j < Width(grid) :: (i, j)) + {start}
  }

  /** Cell c has offered its score to every open neighbour. */
  ghost predicate SettledAt(grid: Grid, closed: set<Pos>, g: map<Pos, int>, c: Pos)
    requires WellFormed(grid) && c in g
  {
    forall e :: e in Neighbors(grid, c) ==> e.to in closed || (e.to in g && g[e.to] <= g[c] + e.cost)
  }

  /** What holds of a state seeded from `start` and advanced by steps
      toward `goal`: predecessor edges are grid moves from closed cells to
      cells of strictly higher score (so chains are acyclic), every scored
      cell but the start has a predecessor, the frontier names scored cells,
      the goal is never closed, and closed cells have relaxed their
      neighbours. */
  ghost predicate SearchInvariant(grid: Grid, start: Pos, goal: Pos, frontier: seq<Entry>,
                                  closed: set<Pos>, cf: map<Pos, Pos>, g: map<Pos, int>)
    requires WellFormed(grid)
  {
    && Ranked(cf, g)
    && (forall p :: p in cf ==> cf[p] in closed && IsEdge(grid, cf[p], p))
    && start in g
    && (forall p :: p in g ==> g[p] >= 0 && (p in cf || p == start))
    && (forall f :: f in frontier ==> f.pos in g && f.pos in Universe(grid, start))
    && closed <= g.Keys && closed <= Universe(grid, start)
    && goal !in closed
    && (forall c :: c in closed ==> SettledAt(grid, closed, g, c))
  }

  /** Every scored cell is closed or still has an entry on the frontier. */
  ghost predicate FrontierCovers(frontier: seq<Entry>, closed: set<Pos>, g: map<Pos, int>)
  {
    forall p :: p in g ==> p in closed || exists f :: f in frontier && f.pos == p
  }

  /** The maps and pushes produced by expanding `current`, which the step
      has just added to the closed set. */
  function Expand(grid: Grid, goal: Pos, v: Variant, closed: set<Pos>, current: Pos,
                  cf: map<Pos, Pos>, g: map<Pos, int>): (x: Relaxation)
    requires WellFormed(grid) && current in g
    ensures current in x.gScore && x.gScore[current] == g[current] && g.Keys <= x.gScore.Keys
    ensures forall i :: 0 <= i < |x.pushed| ==> x.pushed[i].pos !in closed + {current}
  {
    RelaxGrows(v, goal, closed + {current}, current, Neighbors(grid, current), cf, g);
    RelaxPushes(v, goal, closed + {current}, current, Neighbors(grid, current), cf, g,
                Relax(v, goal, closed + {current}, current, Neighbors(grid, current), cf, g));
    Relax(v, goal, closed + {current}, current, Neighbors(grid, current), cf, g)
  }

  lemma InUniverse(grid: Grid, start: Pos, p: Pos)
    requires WellFormed(grid) && InBounds(grid, p)
    ensures p in Universe(grid, start)
  {
    var i, j := p.0, p.1;
    assert (i, j) in (set i, j | 0 <= i < |grid| && 0 <= j < Width(grid) :: (i, j));
  }

  /** Each kept edge of the expansion is a grid move into a cell whose
      score is higher than that of its closed predecessor. */
  lemma ExpandRanked(grid: Grid, start: Pos, goal: Pos, v: Variant, fr0: seq<Entry>,
                     closed0: set<Pos>, cf0: map<Pos, Pos>, g0: map<Pos, int>, c: Pos, x: Relaxation)
    requires WellFormed(grid)
    requires SearchInvariant(grid, start, goal, fr0, closed0, cf0, g0)
    requires c in g0 && x == Expand(grid, goal, v, closed0, c, cf0, g0)
    ensures Ranked(x.cameFrom, x.gScore)
    ensures forall p :: p in x.cameFrom ==> x.cameFrom[p] in closed0 + {c} && IsEdge(grid, x.cameFrom[p], p)
    ensures forall p :: p in x.gScore ==> x.gScore[p] >= 0 && (p in x.cameFrom || p == start)
    ensures g0.Keys <= x.gScore.Keys
  {
    var closed := closed0 + {c};
    var ns := Neighbors(grid, c);
    RelaxGrows(v, goal, closed, c, ns, cf0, g0);
    forall p | p in x.gScore || p in x.cameFrom
      ensures p in x.cameFrom ==>
                p in x.gScore && x.cameFrom[p] in x.gScore && 0 <= x.gScore[x.cameFrom[p]] < x.gScore[p]
                && x.cameFrom[p] in closed && IsEdge(grid, x.cameFrom[p], p)
      ensures p in x.gScore ==> x.gScore[p] >= 0 && (p in x.cameFrom || p == start)
    {
      RelaxUpdates(v, goal, closed, c, ns, cf0, g0, p);
      if SameEntry(cf0, g0, x.cameFrom, x.gScore, p) {
        if p in x.cameFrom {
          var q := cf0[p];
          assert SameEntry(cf0, g0, x.cameFrom, x.gScore, q);
        }
      } else {
        var k :| 0 <= k < |ns| && ns[k].to == p && x.gScore[p] == g0[c] + ns[k].cost;
        assert ns[k] in ns;
        NeighborsExactly(grid, c, ns[k]);
      }
    }
  }

  /** The frontier after the step names scored cells of the universe. */
  lemma ExpandFrontier(grid: Grid, start: Pos, goal: Pos, v: Variant, fr0: seq<Entry>,
                       closed0: set<Pos>, cf0: map<Pos, Pos>, g0: map<Pos, int>, e: Entry,
                       x: Relaxation, fr1: seq<Entry>)
    requires WellFormed(grid)
    requires SearchInvariant(grid, start, goal, fr0, closed0, cf0, g0)
    requires e in fr0 && x == Expand(grid, goal, v, closed0, e.pos, cf0, g0)
    requires multiset(fr1) == multiset(fr0) - multiset{e} + multiset(x.pushed)
    ensures forall f :: f in fr1 ==> f.pos in x.gScore && f.pos in Universe(grid, start)
  {
    var c := e.pos;
    var closed := closed0 + {c};
    var ns := Neighbors(grid, c);
    RelaxGrows(v, goal, closed, c, ns, cf0, g0);
    RelaxPushes(v, goal, closed, c, ns, cf0, g0, x);
    forall f | f in fr1
      ensures f.pos in x.gScore && f.pos in Universe(grid, start)
    {
      assert f in multiset(fr1);
      if f in multiset(x.pushed) {
        var i :| 0 <= i < |x.pushed| && x.pushed[i] == f;
        var k :| 0 <= k < |ns| && ns[k].to == x.pushed[i].pos
                 && x.pushed[i].priority == Priority(v, g0[c] + ns[k].cost, ns[k].to, goal);
        assert ns[k] in ns;
        NeighborsExactly(grid, c, ns[k]);
        InUniverse(grid, start, f.pos);
      } else {
        assert f in multiset(fr0);
      }
    }
  }

  /** After the step every closed cell, old or new, has relaxed its
      neighbours. */
  lemma ExpandSettled(grid: Grid, start: Pos, goal: Pos, v: Variant, fr0: seq<Entry>,
                      closed0: set<Pos>, cf0: map<Pos, Pos>, g0: map<Pos, int>, c: Pos, x: Relaxation)
    requires WellFormed(grid)
    requires SearchInvariant(grid, start, goal, fr0, closed0, cf0, g0)
    requires c in g0 && x == Expand(grid, goal, v, closed0, c, cf0, g0)
    ensures closed0 + {c} <= x.gScore.Keys
    ensures forall d :: d in closed0 + {c} ==> SettledAt(grid, closed0 + {c}, x.gScore, d)
  {
    var closed := closed0 + {c};
    var ns := Neighbors(grid, c);
    RelaxGrows(v, goal, closed, c, ns, cf0, g0);
    RelaxSettles(v, goal, closed, c, ns, cf0, g0);
    forall d | d in closed
      ensures SettledAt(grid, closed, x.gScore, d)
    {
      if d == c {
        forall n | n in Neighbors(grid, c)
          ensures n.to in closed || (n.to in x.gScore && x.gScore[n.to] <= x.gScore[c] + n.cost)
        {
          var k :| 0 <= k < |ns| && ns[k] == n;
        }
      } else {
        assert SameEntry(cf0, g0, x.cameFrom, x.gScore, d);
        assert SettledAt(grid, closed0, g0, d);
      }
    }
  }

  /** The cover property survives a step that expands a cell. */
  lemma ExpandCovers(grid: Grid, start: Pos, goal: Pos, v: Variant, fr0: seq<Entry>,
                     closed0: set<Pos>, cf0: map<Pos, Pos>, g0: map<Pos, int>, e: Entry,
                     x: Relaxation, fr1: seq<Entry>)
    requires WellFormed(grid)
    requires SearchInvariant(grid, start, goal, fr0, closed0, cf0, g0)
    requires FrontierCovers(fr0, closed0, g0)
    requires e in fr0 && x == Expand(grid, goal, v, closed0, e.pos, cf0, g0)
    requires multiset(fr1) == multiset(fr0) - multiset{e} + multiset(x.pushed)
    ensures FrontierCovers(fr1, closed0 + {e.pos}, x.gScore)
  {
    var c := e.pos;
    var closed := closed0 + {c};
    var ns := Neighbors(grid, c);
    forall p | p in x.gScore && p !in closed
      ensures exists f :: f in fr1 && f.pos == p
    {
      RelaxUpdates(v, goal, closed, c, ns, cf0, g0, p);
      if SameEntry(cf0, g0, x.cameFrom, x.gScore, p) {
        var f :| f in fr0 && f.pos == p;
        assert f != e;
        assert f in multiset(fr0) - multiset{e};
        assert f in multiset(fr1);
      } else {
        var i :| 0 <= i < |x.pushed| && x.pushed[i].pos == p;
        assert x.pushed[i] in multiset(x.pushed);
        assert x.pushed[i] in multiset(fr1);
      }
    }
  }

  /** Expanding a cell other than the goal keeps the invariant. */
  lemma ExpandPreserves(grid: Grid, start: Pos, goal: Pos, v: Variant, fr0: seq<Entry>,
                        closed0: set<Pos>, cf0: map<Pos, Pos>, g0: map<Pos, int>, e: Entry,
                        x: Relaxation, fr1: seq<Entry>)
    requires WellFormed(grid)
    requires SearchInvariant(grid, start, goal, fr0, closed0, cf0, g0)
    requires e in fr0 && e.pos != goal && x == Expand(grid, goal, v, closed0, e.pos, cf0, g0)
    requires multiset(fr1) == multiset(fr0) - multiset{e} + multiset(x.pushed)
    ensures SearchInvariant(grid, start, goal, fr1, closed0 + {e.pos}, x.cameFrom, x.gScore)
  {
    ExpandRanked(grid, start, goal, v, fr0, closed0, cf0, g0, e.pos, x);
    ExpandFrontier(grid, start, goal, v, fr0, closed0, cf0, g0, e, x, fr1);
    ExpandSettled(grid, start, goal, v, fr0, closed0, cf0, g0, e.pos, x);
  }

  /** Everything one expansion of a popped entry establishes, for maps and a
      frontier that result from relaxing the popped cell's neighbours after
      the pop. */
  lemma ExpandStep(grid: Grid, start: Pos, goal: Pos, v: Variant, fr0: seq<Entry>,
                   closed0: set<Pos>, cf0: map<Pos, Pos>, g0: map<Pos, int>, e: Entry,
                   frPop: seq<Entry>, closed1: set<Pos>, cf1: map<Pos, Pos>, g1: map<Pos, int>, fr1: seq<Entry>)
    requires WellFormed(grid) && closed1 == closed0 + {e.pos}
    requires SearchInvariant(grid, start, goal, fr0, closed0, cf0, g0)
    requires e in fr0 && e.pos != goal && e.pos in g0
    requires multiset(frPop) == multiset(fr0) - multiset{e}
    requires var x := Relax(v, goal, closed1, e.pos, Neighbors(grid, e.pos), cf0, g0);
      cf1 == x.cameFrom && g1 == x.gScore && fr1 == frPop + x.pushed
    ensures var x := Expand(grid, goal, v, closed0, e.pos, cf0, g0);
      cf1 == x.cameFrom && g1 == x.gScore && fr1 == frPop + x.pushed
    ensures SearchInvariant(grid, start, goal, fr1, closed1, cf1, g1)
    ensures e.pos in closed0 ==> closed1 == closed0 && cf1 == cf0 && g1 == g0 && fr1 == frPop
    ensures FrontierCovers(fr0, closed0, g0) ==> FrontierCovers(fr1, closed1, g1)
  {
    var x := Expand(grid, goal, v, closed0, e.pos, cf0, g0);
    assert multiset(fr1) == multiset(fr0) - multiset{e} + multiset(x.pushed);
    ExpandPreserves(grid, start, goal, v, fr0, closed0, cf0, g0, e, x, fr1);
    if FrontierCovers(fr0, closed0, g0) {
      ExpandCovers(grid, start, goal, v, fr0, closed0, cf0, g0, e, x, fr1);
    }
    if e.pos in closed0 {
      StalePopIsNoop(grid, start, goal, v, fr0, closed0, cf0, g0, e.pos);
      assert fr1 == frPop + [];
    }
  }

  /** Popping an entry of a cell that is already closed changes no map and
      pushes nothing: its neighbours were relaxed when it was first closed. */
  lemma StalePopIsNoop(grid: Grid, start: Pos, goal: Pos, v: Variant, fr0: seq<Entry>,
                       closed0: set<Pos>, cf0: map<Pos, Pos>, g0: map<Pos, int>, c: Pos)
    requires WellFormed(grid)
    requires SearchInvariant(grid, start, goal, fr0, closed0, cf0, g0)
    requires c in closed0
    ensures Expand(grid, goal, v, closed0, c, cf0, g0) == Relaxation(cf0, g0, [])
  {
    var ns := Neighbors(grid, c);
    assert closed0 + {c} == closed0;
    assert SettledAt(grid, closed0, g0, c);
    forall k | 0 <= k < |ns|
      ensures ns[k].to in closed0 || (ns[k].to in g0 && g0[ns[k].to] <= g0[c] + ns[k].cost)
    {
      assert ns[k] in ns;
    }
    RelaxNoop(v, goal, closed0, c, ns, cf0, g0);
  }

  /** Removing entries from the frontier keeps the invariant. */
  lemma ShrinkPreserves(grid: Grid, start: Pos, goal: Pos, fr0: seq<Entry>, closed: set<Pos>,
                        cf: map<Pos, Pos>, g: map<Pos, int>, fr1: seq<Entry>)
    requires WellFormed(grid)
    requires SearchInvariant(grid, start, goal, fr0, closed, cf, g)
    requires multiset(fr1) <= multiset(fr0)
    ensures SearchInvariant(grid, start, goal, fr1, closed, cf, g)
  {
    forall f | f in fr1
      ensures f in fr0
    {
      assert f in multiset(fr1);
    }
  }

  // ---------------------------------------------------------------------
  // Walks over the grid

  /** A non-empty sequence of cells, each an edge from the one before. */
  ghost predicate IsWalk(grid: Grid, p: seq<Pos>)
    requires WellFormed(grid)
  {
    |p| > 0 && forall i :: 1 <= i < |p| ==> IsEdge(grid, p[i - 1], p[i])
  }

  ghost predicate Connects(grid: Grid, p: seq<Pos>, a: Pos, b: Pos)
    requires WellFormed(grid)
  {
    IsWalk(grid, p) && p[0] == a && Last(p) == b
  }

  ghost predicate Reachable(grid: Grid, a: Pos, b: Pos)
    requires WellFormed(grid)
  {
    exists p :: Connects(grid, p, a, b)
  }

  /** A set no edge leaves. */
  ghost predicate EdgeClosed(grid: Grid, s: set<Pos>)
    requires WellFormed(grid)
  {
    forall c, q :: c in s && IsEdge(grid, c, q) ==> q in s
  }

  /** A walk that starts inside an edge-closed set ends inside it. */
  lemma {:induction false} WalkStaysIn(grid: Grid, s: set<Pos>, p: seq<Pos>)
    requires WellFormed(grid) && EdgeClosed(grid, s)
    requires IsWalk(grid, p) && p[0] in s
    ensures Last(p) in s
    decreases |p|
  {
    if |p| > 1 {
      var q := p[..|p| - 1];
      assert IsWalk(grid, q) by {
        forall i | 1 <= i < |q|
          ensures IsEdge(grid, q[i - 1], q[i])
        {
          assert q[i - 1] == p[i - 1] && q[i] == p[i];
        }
      }
      WalkStaysIn(grid, s, q);
      assert IsEdge(grid, p[|p| - 2], p[|p| - 1]);
    }
  }

  /** Every cell of a walk after the first is passable, so a walk that ends
      on a wall or off the grid is the one-cell walk. */
  lemma WalkEndsPassable(grid: Grid, p: seq<Pos>)
    requires WellFormed(grid) && IsWalk(grid, p) && |p| > 1
    ensures Passable(grid, Last(p))
  {
    assert IsEdge(grid, p[|p| - 2], p[|p| - 1]);
  }

  /** A goal that is a wall or off the grid cannot be reached from any
      other cell. */
  lemma ImpassableGoalUnreachable(grid: Grid, start: Pos, goal: Pos)
    requires WellFormed(grid) && start != goal && !Passable(grid, goal)
    ensures !Reachable(grid, start, goal)
  {
    if p :| Connects(grid, p, start, goal) {
      WalkEndsPassable(grid, p);
    }
  }

  /** The cost of taking a walk: the entry cost of every cell after the
      first. */
  ghost function WalkCost(grid: Grid, p: seq<Pos>): int
    requires WellFormed(grid) && IsWalk(grid, p)
    decreases |p|
  {
    if |p| == 1 then 0
    else
      assert IsEdge(grid, p[0], p[1]);
      assert IsWalk(grid, p[1..]) by {
        forall i | 1 <= i < |p[1..]|
          ensures IsEdge(grid, p[1..][i - 1], p[1..][i])
        {
          assert IsEdge(grid, p[i], p[i + 1]);
        }
      }
      MoveCost(grid, p[1]) + WalkCost(grid, p[1..])
  }

  /** The heuristic never overestimates: every walk from a cell to the goal
      has at least as many moves as the Manhattan distance, and costs at
      least that much, since each move costs 1 or 2. */
  lemma {:induction false} HeuristicAdmissible(grid: Grid, p: seq<Pos>, a: Pos, goal: Pos)
    requires WellFormed(grid) && Connects(grid, p, a, goal)
    ensures Heuristic(a, goal) <= |p| - 1 <= WalkCost(grid, p)
    decreases |p|
  {
    if |p| > 1 {
      var rest := p[1..];
      assert IsEdge(grid, p[0], p[1]);
      assert IsWalk(grid, rest) by {
        forall i | 1 <= i < |rest|
          ensures IsEdge(grid, rest[i - 1], rest[i])
        {
          assert IsEdge(grid, p[i], p[i + 1]);
        }
      }
      assert Last(rest) == Last(p);
      HeuristicAdmissible(grid, rest, p[1], goal);
      HeuristicConsistent(a, p[1], goal);
    }
  }

  /** Under the invariant, the reconstructed path to any scored cell is a
      walk from the start. */
  lemma {:induction false} PathToConnects(grid: Grid, start: Pos, goal: Pos, frontier: seq<Entry>,
                                          closed: set<Pos>, cf: map<Pos, Pos>, g: map<Pos, int>, c: Pos)
    requires WellFormed(grid) && SearchInvariant(grid, start, goal, frontier, closed, cf, g)
    requires c in g
    ensures Connects(grid, PathTo(cf, g, c), start, c)
  {
    var path := PathTo(cf, g, c);
    assert path[0] in g && path[0] !in cf;
    forall i | 1 <= i < |path|
      ensures IsEdge(grid, path[i - 1], path[i])
    {
      assert path[i] in cf && cf[path[i]] == path[i - 1];
    }
  }

  /** When the frontier runs out, every scored cell has been closed, the
      closed set contains the start and no edge leaves it; the goal is never
      closed, so it cannot be reached. */
  lemma ExhaustedUnreachable(grid: Grid, start: Pos, goal: Pos, closed: set<Pos>,
                             cf: map<Pos, Pos>, g: map<Pos, int>)
    requires WellFormed(grid) && SearchInvariant(grid, start, goal, [], closed, cf, g)
    requires FrontierCovers([], closed, g)
    ensures !Reachable(grid, start, goal)
  {
    assert start in closed;
    forall c, q | c in closed && IsEdge(grid, c, q)
      ensures q in closed
    {
      NeighborsExactly(grid, c, Edge(q, MoveCost(grid, q)));
      assert SettledAt(grid, closed, g, c);
    }
    if p :| Connects(grid, p, start, goal) {
      WalkStaysIn(grid, closed, p);
    }
  }

  // ---------------------------------------------------------------------
  // The caller-owned search state and the step

  /** What astar_step and dijkstra_step return: the popped cell (None when
      the frontier was empty), whether the search is complete, the path
      reconstructed to the popped cell, and the predecessor map ({} when the
      frontier was empty). */
  datatype StepResult = StepResult(current: Option<Pos>, complete: bool, path: Option<seq<Pos>>,
                                   cameFrom: map<Pos, Pos>)

  /** The open list, closed set, came_from and g_score the caller threads
      through successive steps. The open list is kept as a sequence whose
      least entry is popped; its contents as a multiset are what the heap
      holds. */
  class SearchState {
    var frontier: seq<Entry>
    var closed: set<Pos>
    var cameFrom: map<Pos, Pos>
    var gScore: map<Pos, int>

    ghost predicate Valid(grid: Grid, start: Pos, goal: Pos)
      requires WellFormed(grid)
      reads this
    {
      SearchInvariant(grid, start, goal, frontier, closed, cameFrom, gScore)
    }

    ghost predicate Covered()
      reads this
    {
      FrontierCovers(frontier, closed, gScore)
    }

    /** The seeding of compute_astar_path: a frontier holding only the
        start, with key heuristic(start, goal) for A* (0 for Dijkstra),
        nothing closed, no predecessors, and a score of 0 for the start. */
    constructor Seed(grid: Grid, start: Pos, goal: Pos, v: Variant)
      requires WellFormed(grid)
      ensures frontier == [Entry(Priority(v, 0, start, goal), start)]
      ensures closed == {} && cameFrom == map[] && gScore == map[start := 0]
      ensures Valid(grid, start, goal) && Covered()
    {
      frontier := [Entry(Priority(v, 0, start, goal), start)];
      closed := {};
      cameFrom := map[];
      gScore := map[start := 0];
      new;
      assert FrontierCovers(frontier, closed, gScore) by {
        assert frontier[0] in frontier;
      }
    }

    /** heappop: remove and return the least entry. */
    method PopMin() returns (e: Entry)
      requires |frontier| > 0
      modifies this`frontier
      ensures e == MinEntry(old(frontier))
      ensures multiset(frontier) == multiset(old(frontier)) - multiset{e}
      ensures |frontier| == |old(frontier)| - 1
    {
      var best := 0;
      for k := 1 to |frontier|
        invariant 0 <= best < |frontier|
        invariant forall j :: 0 <= j < k ==> EntryLe(frontier[best], frontier[j])
      {
        if !EntryLe(frontier[best], frontier[k]) {
          best := k;
        }
      }
      e := frontier[best];
      forall f | f in frontier
        ensures EntryLe(e, f)
      {
        var j :| 0 <= j < |frontier| && frontier[j] == f;
      }
      MinEntryUnique(frontier, e);
      assert frontier == frontier[..best] + [e] + frontier[best + 1..];
      frontier := frontier[..best] + frontier[best + 1..];
    }

    /** The neighbour loop of a step: every neighbour not yet closed whose
        tentative score current + cost is new or lower gets current as its
        predecessor, the tentative score, and a pushed entry. */
    method RelaxNeighbors(goal: Pos, v: Variant, current: Pos, ns: seq<Edge>)
      requires current in closed && current in gScore
      modifies this`frontier, this`cameFrom, this`gScore
      ensures cameFrom == Relax(v, goal, closed, current, ns, old(cameFrom), old(gScore)).cameFrom
      ensures gScore == Relax(v, goal, closed, current, ns, old(cameFrom), old(gScore)).gScore
      ensures frontier == old(frontier) + Relax(v, goal, closed, current, ns, old(cameFrom), old(gScore)).pushed
    {
      ghost var cf0, g0, fr0 := cameFrom, gScore, frontier;
      ghost var pushed: seq<Entry> := [];
      for i := 0 to |ns|
        invariant Relaxation(cameFrom, gScore, pushed) == Relax(v, goal, closed, current, ns[..i], cf0, g0)
        invariant frontier == fr0 + pushed
      {
        assert ns[..i + 1][..i] == ns[..i];
        ghost var x0 := Relaxation(cameFrom, gScore, pushed);
        assert Relax(v, goal, closed, current, ns[..i + 1], cf0, g0) == RelaxEdge(v, goal, closed, current, ns[i], x0);
        var neighbor := ns[i].to;
        var cost := ns[i].cost;
        if neighbor !in closed {
          var tentative := gScore[current] + cost;
          if neighbor !in gScore || tentative < gScore[neighbor] {
            cameFrom := cameFrom[neighbor := current];
            gScore := gScore[neighbor := tentative];
            frontier := frontier + [Entry(Priority(v, tentative, neighbor, goal), neighbor)];
            pushed := pushed + [Entry(Priority(v, tentative, neighbor, goal), neighbor)];
          }
        }
      }
      assert ns[..|ns|] == ns;
    }

    /** The non-goal branch of a step, once `e` has been popped from fr0:
        close its cell and relax the cell's neighbours. */
    method ExpandPopped(grid: Grid, start: Pos, goal: Pos, v: Variant, ghost fr0: seq<Entry>, e: Entry)
      requires WellFormed(grid) && SearchInvariant(grid, start, goal, fr0, closed, cameFrom, gScore)
      requires e in fr0 && e.pos != goal
      requires multiset(frontier) == multiset(fr0) - multiset{e}
      modifies this
      ensures Valid(grid, start, goal)
      ensures closed == old(closed) + {e.pos}
      ensures cameFrom == Expand(grid, goal, v, old(closed), e.pos, old(cameFrom), old(gScore)).cameFrom
      ensures gScore == Expand(grid, goal, v, old(closed), e.pos, old(cameFrom), old(gScore)).gScore
      ensures frontier == old(frontier) + Expand(grid, goal, v, old(closed), e.pos, old(cameFrom), old(gScore)).pushed
      ensures e.pos in old(closed) ==>
        closed == old(closed) && cameFrom == old(cameFrom) && gScore == old(gScore) && frontier == old(frontier)
      ensures FrontierCovers(fr0, old(closed), old(gScore)) ==> Covered()
    {
      ghost var closed0, cf0, g0, frPop := closed, cameFrom, gScore, frontier;
      assert e.pos in gScore;
      closed := closed + {e.pos};
      var ns := NeighborsOf(grid, e.pos);
      RelaxNeighbors(goal, v, e.pos, ns);
      ExpandStep(grid, start, goal, v, fr0, closed0, cf0, g0, e, frPop, closed, cameFrom, gScore, frontier);
    }

    /** One step of astar_step (v = AStar) or dijkstra_step (v = Dijkstra). */
    method Step(grid: Grid, start: Pos, goal: Pos, v: Variant) returns (r: StepResult)
      requires WellFormed(grid) && Valid(grid, start, goal)
      modifies this
      ensures Valid(grid, start, goal)
      // An empty frontier: complete, nothing found, nothing changed.
      ensures old(frontier) == [] ==>
        && r == StepResult(None, true, None, map[])
        && frontier == old(frontier) && closed == old(closed)
        && cameFrom == old(cameFrom) && gScore == old(gScore)
      // ... and, when every scored cell was closed or queued, the goal is unreachable.
      ensures old(frontier) == [] && old(Covered()) ==> !Reachable(grid, start, goal)
      // Otherwise the least entry is popped, whatever the state of its cell.
      ensures old(frontier) != [] ==>
        && r.current == Some(MinEntry(old(frontier)).pos)
        && r.cameFrom == cameFrom
        && |frontier| >= |old(frontier)| - 1
      // Popping the goal: complete with the path to it; closed set and maps untouched.
      ensures old(frontier) != [] && MinEntry(old(frontier)).pos == goal ==>
        && r.complete
        && r.path == Some(PathTo(cameFrom, gScore, goal))
        && Connects(grid, r.path.value, start, goal)
        && closed == old(closed) && cameFrom == old(cameFrom) && gScore == old(gScore)
        && multiset(frontier) == multiset(old(frontier)) - multiset{MinEntry(old(frontier))}
      // Popping another cell: it is closed and its neighbours are relaxed.
      ensures old(frontier) != [] && MinEntry(old(frontier)).pos != goal ==>
        && !r.complete
        && r.path == Some(PathTo(cameFrom, gScore, MinEntry(old(frontier)).pos))
        && Connects(grid, r.path.value, start, MinEntry(old(frontier)).pos)
        && closed == old(closed) + {MinEntry(old(frontier)).pos}
        && cameFrom == Expand(grid, goal, v, old(closed), MinEntry(old(frontier)).pos, old(cameFrom), old(gScore)).cameFrom
        && gScore == Expand(grid, goal, v, old(closed), MinEntry(old(frontier)).pos, old(cameFrom), old(gScore)).gScore
        && multiset(frontier) == multiset(old(frontier)) - multiset{MinEntry(old(frontier))}
             + multiset(Expand(grid, goal, v, old(closed), MinEntry(old(frontier)).pos, old(cameFrom), old(gScore)).pushed)
      // Re-popping a closed cell changes nothing but the frontier.
      ensures old(frontier) != [] && MinEntry(old(frontier)).pos in old(closed) ==>
        && closed == old(closed) && cameFrom == old(cameFrom) && gScore == old(gScore)
        && |frontier| == |old(frontier)| - 1
      ensures !r.complete && old(Covered()) ==> Covered()
    {
      if |frontier| == 0 {
        if Covered() {
          ExhaustedUnreachable(grid, start, goal, closed, cameFrom, gScore);
        }
        return StepResult(None, true, None, map[]);
      }
      ghost var fr0, closed0, cf0, g0 := frontier, closed, cameFrom, gScore;
      var e := PopMin();
      assert e in fr0;
      var current := e.pos;
      if current == goal {
        ShrinkPreserves(grid, start, goal, fr0, closed, cameFrom, gScore, frontier);
        PathToConnects(grid, start, goal, frontier, closed, cameFrom, gScore, current);
        var path := ReconstructPath(cameFrom, gScore, current);
        return StepResult(Some(current), true, Some(path), cameFrom);
      }
      ExpandPopped(grid, start, goal, v, fr0, e);
      PathToConnects(grid, start, goal, frontier, closed, cameFrom, gScore, current);
      var path := ReconstructPath(cameFrom, gScore, current);
      r := StepResult(Some(current), false, Some(path), cameFrom);
    }
  }
}
