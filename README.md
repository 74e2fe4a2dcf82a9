# Grid pathfinding and Pac-Man ghosts, in Dafny

This project models the core of a small grid-maze program. A resumable,
one-step-at-a-time A* / Dijkstra search runs over an integer cost grid,
where 0 is floor, 1 is a wall and 2 is slow terrain costing 2 to enter.
The parts that consume the search are modelled as well:

- a path-following agent;
- the four Pac-Man ghost targeting rules;
- the game's frame timers, which release ghosts and switch scatter mode;
- the keyboard and tunnel rules of the Pac-Man driver;
- the ghost and enemy cadence;
- the fixed 15 by 15 level;
- the right-click goal rule of the controlled visualizer.

Modules follow the source files:

- `Base` (base.dfy): cells, grids, `Option`.
- `Algorithms` (algorithms.dfy): modules/algorithms.py. The step functions
  become the `SearchState` class, whose frontier, closed set and two maps
  are fields that `Step` updates in place.
- `Agent` (agent.dfy): modules/agent.py, the `PathAgent` class.
- `Ghosts` (ghost.dfy): modules/ghost.py.
- `Level` (grid.dfy): modules/grid.py.
- `Game` (game_state.dfy): modules/game_state.py.
- `AppPacman` (app_pacman.dfy): the run-to-completion search
  `compute_astar_path`, `can_move_to` and the enemy cadence. The search is
  also used by the other two drivers.
- `App` (app.dfy): app.py, the `PacmanGame` class.
- `AppControlled` (app_controlled.dfy): `ControlledVisualizer`.

Main results:

- **Step contract.** `SearchState.Step` is proved against a specification
  of what one step does: which entry it pops (the least under Python's
  tuple order), how it relaxes the neighbours, and the path it returns.
  It also preserves a search invariant: predecessor chains are acyclic
  grid walks from the start, the goal is never closed, and closed cells
  have relaxed their neighbours.
- **Whole-search contract.** `ComputeAStarPath` terminates on every well-formed grid (at least
  one row, all rows as long as the first).
  The termination measure is the number of cells still to close, then the
  frontier's length.
  - It returns `Some(p)` exactly when the goal can be reached from the
    start.
  - A returned `p` is a walk of legal moves from the start to the goal.
  - When start equals goal it returns `[start]`.

The source uses three names it never defines. The model uses the nearest
defined behaviour in their place:

- `astar_path`, imported by app.py, becomes `compute_astar_path`.
- `ghost.set_path` becomes `set_final_path`.
- The ghost flag `active`, which is read but never initialised, becomes a
  field that starts `false`.

Clyde's test `sqrt(d) < 8` becomes the integer test `d < 64`. The lemma
`ClydeThreshold` proves the two agree.

## Model

| member | source | states |
|---|---|---|
| Algorithms.Heuristic | modules/algorithms.py:13-15 | the Manhattan distance is a natural number and is zero exactly when the two cells coincide |
| Algorithms.HeuristicSymmetric | modules/algorithms.py:13-15 | the distance is symmetric |
| Algorithms.HeuristicConsistent | modules/algorithms.py:13-15 | one orthogonal step changes the distance to the goal by at most 1 |
| Algorithms.HeuristicAdmissible | modules/algorithms.py:13-15 | the heuristic never overestimates: every walk from a cell to the goal has at least Manhattan-distance moves and costs at least that much, which is what makes the A* priority a lower bound |
| Algorithms.Neighbors | modules/algorithms.py:17-23 | the list `neighbors` yields has at most four entries, each onto an in-bounds non-wall cell with the cost of entering it (2 on slow terrain, else 1) |
| Algorithms.NeighborsOrder | modules/algorithms.py:17-23 | neighbours are yielded in the order down, up, right, left |
| Algorithms.NeighborsExactly | modules/algorithms.py:17-23 | an edge is yielded exactly when its cell is orthogonally adjacent, in bounds and not a wall; its cost is 2 on slow terrain and 1 otherwise |
| Algorithms.NeighborsDistinct | modules/algorithms.py:17-23 | at most four neighbours are yielded, and no cell twice |
| Algorithms.NeighborsOf | modules/algorithms.py:17-23 | the loop over the four offsets yields exactly `Neighbors` |
| Algorithms.PathTo | modules/algorithms.py:25-31 | for an acyclic predecessor map, the path ends at the given cell, its first cell has no predecessor, and each cell's predecessor is the cell before it |
| Algorithms.Reversed | modules/algorithms.py:31-31 | `path[::-1]`: same length, element i is element n - 1 - i of the input |
| Algorithms.ReconstructPath | modules/algorithms.py:25-31 | walking back and reversing returns that path |
| Algorithms.EntryOrderTotal | modules/algorithms.py:40-40 | the (priority, row, column) order on frontier entries is a total order |
| Algorithms.MinEntry | modules/algorithms.py:40-40 | the popped entry is on the frontier and no entry is smaller |
| Algorithms.MinEntryUnique | modules/algorithms.py:40-40 | the least entry is unique, so the pop is determined by the frontier's contents |
| Algorithms.Priority | modules/algorithms.py:53-78 | the pushed key lies between the tentative score g and g plus the heuristic; Dijkstra pushes g; the two keys coincide exactly for Dijkstra or at the goal |
| Algorithms.RelaxEdge | modules/algorithms.py:47-53 | one pass of the neighbour loop: a closed neighbour is skipped with nothing changed, the current cell's score is kept, and at most one entry is pushed |
| Algorithms.Relax | modules/algorithms.py:46-53 | the whole neighbour loop: the current cell's score is kept and at most one entry is pushed per neighbour; `RelaxGrows`, `RelaxUpdates`, `RelaxPushes` and `RelaxSettles` state the rest |
| Algorithms.Expand | modules/algorithms.py:44-53 | the non-goal branch, with the popped cell added to the closed set, then the loop over its neighbours: the popped cell's score is kept, no key is lost, and no pushed entry names a closed cell or the popped cell |
| Algorithms.RelaxGrows | modules/algorithms.py:46-53 | relaxing never removes a key, never raises a score, and never touches a closed cell's entries |
| Algorithms.RelaxUpdates | modules/algorithms.py:46-53 | every entry is either unchanged or was rewritten. A rewritten entry is an open neighbour whose predecessor is now the current cell, whose score is new or strictly lower and equals the current score plus the edge cost, and which was pushed |
| Algorithms.RelaxPushes | modules/algorithms.py:49-53 | every pushed entry is an open, scored neighbour whose priority is that of its tentative score |
| Algorithms.RelaxSettles | modules/algorithms.py:46-52 | afterwards every open neighbour scores at most the current score plus the edge cost |
| Algorithms.RelaxNoop | modules/algorithms.py:46-53 | when no neighbour improves, the maps are unchanged and nothing is pushed |
| Algorithms.RelaxVariants | modules/algorithms.py:53-78 | A* and Dijkstra produce the same maps and push the same cells; each A* priority exceeds the Dijkstra one by that cell's heuristic |
| Algorithms.ExpandRanked | modules/algorithms.py:44-53 | after an expansion, every predecessor edge is a legal move out of a closed cell, scores strictly increase along predecessor edges so chains are acyclic, and keys only grow |
| Algorithms.ExpandFrontier | modules/algorithms.py:44-53 | after an expansion, every frontier entry names a scored cell of the grid or the start |
| Algorithms.ExpandSettled | modules/algorithms.py:44-53 | after an expansion, every closed cell, the new one included, has offered its score to all its open neighbours |
| Algorithms.ExpandCovers | modules/algorithms.py:44-53 | every scored cell stays either closed or on the frontier |
| Algorithms.ExpandPreserves | modules/algorithms.py:44-53 | expanding a cell other than the goal preserves the search invariant |
| Algorithms.ExpandStep | modules/algorithms.py:40-53 | after a pop, relaxing the popped cell's neighbours yields exactly `Expand`'s maps and pushes; the new state keeps the search invariant and the frontier cover, and a stale pop changes nothing |
| Algorithms.StalePopIsNoop | modules/algorithms.py:40-53 | re-expanding an already closed cell, which the source does not skip, changes no map and pushes nothing |
| Algorithms.ShrinkPreserves | modules/algorithms.py:40-42 | removing frontier entries preserves the search invariant |
| Algorithms.WalkStaysIn | modules/algorithms.py:17-23 | a walk that starts inside a set no edge leaves stays inside it |
| Algorithms.WalkEndsPassable | modules/algorithms.py:22-22 | a walk of two or more cells ends on an in-bounds non-wall cell |
| Algorithms.ImpassableGoalUnreachable | modules/algorithms.py:22-22 | a wall or off-grid goal other than the start cannot be reached |
| Algorithms.PathToConnects | modules/algorithms.py:25-31 | during a search, the reconstructed path to any scored cell is a walk of legal moves from the start to that cell |
| Algorithms.ExhaustedUnreachable | modules/algorithms.py:37-38 | when the frontier is empty, the invariant holds and every scored cell is closed, the goal is unreachable |
| Algorithms.SearchState.Seed | app_pacman.py:8-11 | the seeded state is the start entry with priority h(start, goal), an empty closed set and predecessor map, and g_score {start: 0}; it satisfies the invariant |
| Algorithms.SearchState.PopMin | modules/algorithms.py:40-40 | heappop returns the least entry and removes one copy of it |
| Algorithms.SearchState.RelaxNeighbors | modules/algorithms.py:46-53 | the neighbour loop leaves the maps of `Relax` and appends its pushes to the frontier |
| Algorithms.SearchState.ExpandPopped | modules/algorithms.py:44-53 | the popped cell joins the closed set and the maps become the expansion's; the invariant is kept, and a stale pop changes nothing |
| Algorithms.SearchState.Step | modules/algorithms.py:33-81 | an empty frontier gives (None, True, None, {}) and changes nothing. When every scored cell is also closed or queued (`Covered()`, which `Seed` establishes and incomplete steps keep), an empty frontier means the goal is unreachable. Popping the goal returns the complete path, a walk from the start, with closed set and maps unchanged. Any other pop returns incomplete with a walk to the popped cell, closes it and applies `Expand`. The invariant holds after every step |
| AppPacman.ComputeAStarPath | app_pacman.py:7-21 | terminates; returns a path exactly when the goal is reachable; any returned path is a walk from start to goal; start = goal gives [start] |
| AppPacman.MeasureDrops | app_pacman.py:13-18 | each incomplete step closes a new cell, or else shortens the frontier |
| AppPacman.CanMoveTo | app_pacman.py:23-27 | false off the grid, otherwise true exactly when the cell is not a wall |
| AppPacman.CanMoveToIsEdge | app_pacman.py:23-27 | for an orthogonal step the check agrees with the search's edge relation |
| AppPacman.MoveEnemies | app_pacman.py:81-87 | the counter cycles mod 6. On other frames the enemies are unchanged. On the frame it wraps to 0, an enemy that can reach the player at another cell adopts a connecting path and takes its first step; any other enemy is unchanged |
| Agent.FinalPath | modules/agent.py:24-28 | the new path is p at index 0, moving and not exploring, with the position untouched |
| Agent.Moved | modules/agent.py:37-42 | moves exactly when moving and not at the path's end: index + 1 and position = path[index]. Otherwise moving is cleared and position and index are kept. The index stays in range |
| Agent.MovedTimes | modules/agent.py:31-42 | repeated steps keep the path and the index range |
| Agent.FollowFinalPath | modules/agent.py:24-42 | after set_final_path(p) with n cells, n - 1 steps succeed and the k-th lands on p[k]; the next fails, leaving the agent on the last cell |
| Agent.PathAgent.constructor | modules/agent.py:4-9 | a new agent is at the start, with an empty path, index 0, not moving and exploring |
| Agent.PathAgent.SetExplorationPath | modules/agent.py:14-21 | with no cell nothing changes; otherwise the path becomes the reconstructed path, the index its last position and the position that cell, with the flags kept |
| Agent.PathAgent.SetFinalPath | modules/agent.py:24-28 | the agent's new state is FinalPath of the old |
| Agent.PathAgent.MoveStep | modules/agent.py:31-42 | the new state and result are Moved of the old state |
| Ghosts.GhostColor | modules/ghost.py:13-20 | an unknown type is red |
| Ghosts.ScatterCorner | modules/ghost.py:22-29 | an unknown type uses corner (1, 1) |
| Ghosts.NamedGhostsDistinct | modules/ghost.py:13-29 | the four named types have pairwise different colours and corners |
| Ghosts.ChaseTarget | modules/ghost.py:31-65 | scatter mode gives the corner for every type. Otherwise: blinky targets the player. Pinky targets two cells ahead, two more columns left when facing up. Inky targets the reflection of blinky through the cell two ahead. Clyde targets its corner when the squared distance is below 64, else the player. Inky without blinky, and unknown types, target the player. `Ghost.GetChaseTarget` is this function applied to the ghost's own fields, reading them and writing nothing |
| Ghosts.ClydeThreshold | modules/ghost.py:57-63 | the square root of d is below 8 exactly when d is below 64 |
| Ghosts.PinkyFacingUp | modules/ghost.py:39-46 | player (10, 10) facing up gives pinky the target (8, 8) |
| Ghosts.InkyExample | modules/ghost.py:48-55 | player (5, 5) facing right with blinky at (3, 3) gives inky the target (7, 11) |
| Ghosts.Ghost.constructor | modules/ghost.py:6-11 | a new ghost is a fresh agent at its position, not scattering, not active, with its type's colour and corner |
| Level.CellsOnLevel | modules/grid.py:10-67 | every listed obstacle and slow-terrain cell lies on the 15 by 15 grid |
| Level.PlaceCells | modules/grid.py:70-76 | a placement loop writes its value into exactly the listed cells and leaves the rest |
| Level.BuildGrid | modules/grid.py:6-80 | the grid is 15 by 15. Cleared cells are 0, slow-terrain cells are 2, other obstacles are 1 and the rest are 0 |
| Level.CreateGrid | modules/grid.py:1-84 | the grid returned is the level |
| Level.LevelShape | modules/grid.py:6-6 | the level has 15 rows of 15 cells |
| Level.LevelValues | modules/grid.py:70-75 | every cell is 0, 1 or 2 |
| Level.LevelWallsAndFloor | modules/grid.py:70-80 | a cell is a wall exactly when it is an obstacle, not slow terrain and not cleared; it is floor exactly when it is in neither list or is cleared |
| Level.CornersClear | modules/grid.py:79-80 | cells (0, 0) and (14, 14) are floor |
| Level.SlowTerrainWins | modules/grid.py:70-75 | (4, 13) is in both lists and ends as slow terrain |
| Level.RepeatedObstacle | modules/grid.py:21-35 | (12, 2) is listed twice; dropping the second copy names the same cells |
| Level.RepeatedObstacleHarmless | modules/grid.py:70-71 | the duplicate does not change the level |
| Level.BuiltCellCases | modules/grid.py:70-80 | a cell's final value `BuiltCell` is 0, 1 or 2. It is 2 exactly when the cell is listed as slow terrain and not cleared, and 1 exactly when it is listed as an obstacle only and not cleared |
| Level.BuiltByMembership | modules/grid.py:70-75 | the level depends only on which cells the lists name |
| Level.TunnelRowListed | modules/grid.py:25-37 | (11, 12) and (11, 13) are obstacles and not slow terrain |
| Level.TunnelRowWalls | modules/grid.py:70-80 | (11, 12) and (11, 13) are walls |
| Game.ReleaseDue | modules/game_state.py:52-54 | a ghost becomes active when its index's release time is reached and stays active; scatter flags are kept |
| Game.ApplyScatter | modules/game_state.py:56-58 | active ghosts take the flag, inactive ones keep theirs, and activity is unchanged |
| Game.NewGhosts | modules/game_state.py:31-36 | four fresh, distinct ghosts blinky, inky, pinky and clyde, at their starting cells, inactive and not scattering, with empty paths at index 0, not moving and exploring, each with its type's colour and scatter corner |
| Game.StartingGhostsApart | modules/game_state.py:31-36 | the four starting ghosts have pairwise different scatter corners and colours |
| Game.StartingPositionsOffFloor | modules/game_state.py:27-36 | the player's start (18, 11) is off the level, and pinky's and clyde's starts are walls |
| Game.GameState.constructor | modules/game_state.py:6-21 | the fields are as given, and missing release times default to [0, 300, 600, 900] |
| Game.GameState.CreateNewGame | modules/game_state.py:24-43 | the level, the player at (18, 11) facing (0, 0), the four starting ghosts with blinky first (each as `NewGhosts` states), and every other field at its default |
| Game.GameState.Update | modules/game_state.py:45-58 | the game timer rises by 1; the scatter timer becomes (old + 1) mod 400. Release is exactly by reached release time and is never undone. Active ghosts take the flag scatter timer >= 200, others keep theirs. Nothing else, ghost positions and paths included, changes |
| App.KeyTarget | app.py:33-47 | arrow and WASD keys step one cell up, down, left or right and face that way; other keys keep position and direction |
| App.MoveAllowed | app.py:53-65 | on row 11 a column off either end is allowed; anywhere else the move is allowed exactly when can_move_to allows it |
| App.KeyMoveIsEdge | app.py:63-65 | away from the tunnel's ends a key move is allowed exactly when it is a search edge |
| App.TunnelExitLeavesGrid | app.py:56-62 | leaving row 11 to the left is allowed and commits column -1, off the grid |
| App.StuckAtStart | app.py:49-65 | on the level, no key moves the player from its starting cell (18, 11) |
| App.PacmanGame.constructor | app.py:15-16 | the driver holds the given state and a counter at 0 |
| App.PacmanGame.CanMoveTo | app.py:53-65 | returns MoveAllowed and writes the wrap column (width - 2 or 0) into the old position on a tunnel exit |
| App.PacmanGame.HandleKeypress | app.py:27-51 | F3 toggles debug mode and moves nothing. Any other key commits its target and direction when allowed, discarding the wrap column, and changes nothing otherwise |
| App.PacmanGame.TickGhost | app.py:78-94 | an inactive ghost is left alone. An active ghost with its path used up adopts a connecting path to its target when the target is another reachable cell. Every active ghost then steps |
| App.PacmanGame.UpdateGhosts | app.py:72-94 | the counter cycles mod 6 and ghosts act only when it wraps to 0. Each ghost gets its turn, and a non-blinky ghost sees the first ghost's position at that moment |
| AppControlled.ClickedCell | app_controlled.py:84-86 | the cell is the one whose 40-pixel square contains the pixel |
| AppControlled.ControlledVisualizer.constructor | app_controlled.py:34-41 | the level, an agent at (7, 7), goal (7, 7), no path and no message |
| AppControlled.ControlledVisualizer.RightClick | app_controlled.py:84-100 | a click off the grid, on a wall or on an unreachable cell sets "You can't go there" and changes nothing else. Otherwise the goal becomes the cell, the path a walk to it, the agent adopts the path and the message clears |
| AppControlled.ControlledVisualizer.AdvanceAgent | app_controlled.py:102-103 | the agent steps once only while it has a path and is not at its end, so it moves at most one cell per frame |

## Left out

- Rendering, input and clock loops are not modelled: every `draw_*`, `render` and `run` method, and the event loops. Key presses and clicks become parameters. This covers modules/visualizer.py, the OpenGL driver; its A* and Dijkstra states are seeded like `compute_astar_path`.
- Heights are not modelled: agent heights and grid heights are floating-point animation state.
- modules/__init__.py is not part of this model; it is import glue re-exporting names that do not exist.
- `PacmanGame.update` and `handle_input` are not modelled separately: the first only calls `GameState.update` then `_update_ghosts`, both modelled; the second is event plumbing.
- The `main` loop of app_pacman.py, apart from the enemy cadence, is not modelled. That includes the start-cell scan, which on the 15 by 15 level finds no player cell.
- `compute_astar_path`: one definition, `ComputeAStarPath`, models both copies (app_pacman.py:7-21 and app_controlled.py:8-23), which are the same code.
- Optimality is not stated: the model does not prove that the returned path has the least cost.
- The heap layout is not modelled: the frontier is a sequence whose pop takes the least entry under Python's tuple order, which is what `heappop` returns.
- Agent.PathAgent.SetExplorationPath: requires a rank witnessing that the predecessor map is acyclic, since `reconstruct_path` does not terminate on a cyclic map. Inside a search the g-scores are such a rank.
- Agent.PathAgent.SetFinalPath: takes a sequence, so the visualizer's `set_final_path(None)` after a failed search is not representable. The `move_step` after it would fail on `len(None)`.
- AppPacman.MoveEnemies: requires the enemies to be distinct agent objects, which the source's list comprehension guarantees. It also takes the player's cell as a parameter. In the source that cell stays None on this level, because the scan never meets (18, 12). So on the sixth frame, with the two enemies at (11, 8) and (11, 9) present, `tuple(player_pos)` at app_pacman.py:84 raises TypeError and the cadence never completes; the model does not represent that raise.
- App.PacmanGame.UpdateGhosts: requires the ghosts to have distinct agents, as `create_new_game` builds them.
- Game.GameState.Update: requires that no release time past the last ghost is reached; the source would fail with an index error there.
- Ghosts.Ghost.constructor: a ghost holds its agent as a field instead of inheriting from `PathAgent`. The ghost's position and path are its agent's.
- App.PacmanGame.constructor: receives the game state instead of calling `create_new_game` itself, which `Game.GameState.CreateNewGame` models; the window setup is not modelled.
- App.PacmanGame.CanMoveTo: the width is the grid's first row, as in the source.
- The level's hard-coded coordinates do not fit the 15 by 15 grid: the player start, ghost starts on walls, and corners at 23. No property assumes they are on the floor.
