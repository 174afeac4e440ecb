# Pac-Man simulation core, modelled in Dafny

This project models the simulation core of a small pygame Pac-Man game
(`game.py`). Pac-Man and four ghosts move on a fixed 7 × 10 maze of 60-pixel
cells inside a 600 × 600 window. Every move is half a cell (30 px) and goes
through one primitive, `GameObject.move`. That primitive rejects a target
outside the window or in a wall cell. Each ghost takes a greedy "Chase" step
towards Pac-Man. Each axis is decided on its own, with a 30 px dead zone, so
diagonal steps happen. Pellets sit at the centres of open cells and are
removed when Pac-Man's 40 × 40 box contains them, 10 points each. Each ghost
whose box overlaps Pac-Man's costs a life and sends everybody back to their
spawn points. The ghosts are checked in list order, each against the
positions the previous checks left.

Modules, leaf first:

- `Geometry`: points, the rectangles that stand in for `pygame.Rect`, the
  two collision tests, and row-major order.
- `Maze`: the maze constant, the pixel-to-cell lookup, and the initial
  pellet list (the comprehension of the start-up code).
- `Entity`: the decision `move(dx, dy)` takes, as the function `Step`, and
  the `GameObject` class whose `Move` commits it in place.
- `Chase`: the per-axis direction choice and the `Ghost` class. A ghost is a
  `GameObject` by composition, plus its spawn point.
- `Pellets`: the per-tick pellet filter and the subsequence facts about it.
- `Simulation`: one pass of the loop body on values. `TickSpec` is the
  composition of four phases: events, ghosts, pellets, collisions.
  `RunSpec` is the `while running:` loop. `Inv` is the invariant of every
  reachable state.
- `Game`: the `GameState` class. Pac-Man, the ghost list, pellets, score,
  lives and `running` are updated in place. `Tick` and `Run` are proved to
  produce exactly `TickSpec` and `RunSpec` of the old state.

What the proofs establish:

- Every `move` from a legal position keeps the maze lookup in range. The
  window check alone admits rows 7 to 9, which the 7-row maze does not have.
- Pac-Man always stands on an open cell, on the 30-pixel lattice.
- The initial pellet list has exactly one pellet per `'0'` cell, at its
  centre, in row-major order, with no duplicates.
- A tick removes at most one pellet, the one under Pac-Man. It adds exactly
  10 points per pellet removed. The score is always 10 × (pellets gone).
- Lives never increase. A tick in which a life is lost ends with everybody
  at their spawn point.
- A collision with Blinky, Pinky or Inky costs two lives in one tick.
- A tick with no input, starting from the spawn points, costs one life.

Where the code and its accompanying design description disagree, the model
follows the code:

- A move is 30 px, half a cell, not one cell. The chase dead zone is also
  30 px, not one cell.
- A ghost can step diagonally. The design says at most one axis moves.
- The design says rows outside the maze read as "not walkable". In the code
  they would raise `IndexError`. The model shows this never happens from a
  legal position.
- The design's scenario "Pac-Man and one pursuer on the same point: lives
  drop by exactly 1" does not hold for Blinky, Pinky or Inky, because Clyde
  spawns on Pac-Man's spawn point. After the reset the later check of
  Clyde fires too, so 2 lives are lost (`Simulation.FirstHitCost`).
- An entity need not stand on an open cell. Blinky's spawn point
  (270, 270) is the wall cell maze[4][4] (column 4, row 4; see
  `Simulation.SpawnFacts`). So the ghost invariant is "on an open lattice
  cell, or at its own spawn point" (`Simulation.GhostPlaced`). Any step
  Blinky takes out of that cell lands on an open cell.

Assumptions about pygame, whose source is not part of this model:

- The key test is `event.type is pygame.KEYDOWN` (game.py:107), an identity
  test, not `==`. The model assumes it succeeds for every KEYDOWN event.
  Whether the integer pygame returns is the same object as the constant
  depends on the interpreter and the pygame version. If the test failed, no
  key would ever move Pac-Man.
- `collidepoint` is half-open containment, `[left, left + w) × [top, top + h)`.
- `colliderect` is overlap with positive area. For the 40 × 40 boxes used
  here, that means the centres are less than 40 px apart on both axes
  (`Geometry.BoxesCollide`).

## Model

| member | source | states |
|---|---|---|
| Geometry.BoxContains | game.py:38-39 | the box of an object at p contains exactly the points of the half-open 40 × 40 square `[p.x-20, p.x+20) × [p.y-20, p.y+20)` |
| Geometry.BoxesCollide | game.py:131 | two object boxes collide exactly when the centres are less than 40 px apart on both axes |
| Geometry.BoxContainsOnlyCentre | game.py:125 | for lattice points, Pac-Man's box contains a point exactly when the point is Pac-Man's own position |
| Geometry.LatticeGap | game.py:45-46 | two different multiples of the 30 px step are at least 30 px apart |
| Geometry.RowMajorDistinct | game.py:30 | a list strictly increasing in row-major order has no element twice |
| Maze.GridShape | game.py:21-29 | the maze has 7 rows of 10 characters |
| Maze.CellAt | game.py:53-57 | the maze character under a point in the maze is `'0'` or `'1'` |
| Maze.OpenIsInterior | game.py:21-29 | the border rows and columns are walls, so an open cell lies in rows 1-5 and columns 1-8 |
| Maze.Centre | game.py:30 | the centre point of cell (col, row) lies in that cell, 30 px from its top and left edges |
| Maze.RowPelletsSpec | game.py:30 | one row's pellets: exactly one per `'0'` of the row, at its centre, strictly left to right |
| Maze.GridPelletsSpec | game.py:30 | a maze's pellets: exactly one per `'0'` character, at the cell centre, in strict row-major order |
| Maze.PelletOnGrid | game.py:30 | the centre of an open cell is a legal position |
| Maze.InitialPelletsSpec | game.py:30 | the initial pellet list has one entry per open cell at its centre, in row-major order, without duplicates, and every pellet is a legal position |
| Entity.Step | game.py:44-58 | a move is rejected when the target leaves the window; it would raise IndexError when the target row is past the maze; otherwise it lands exactly on the target point when that cell is not `'1'` |
| Entity.StepLegal | game.py:44-63 | from any lattice point above the bottom wall row, a move by at most one unit per axis never indexes past the maze and either leaves the position unchanged or ends on an open lattice cell |
| Entity.StepKeepsOnGrid | game.py:44-63 | from an open lattice cell, such a move stays in range and ends on an open lattice cell |
| Entity.StepTargets | game.py:44-63 | a move whose target is outside the window, or in a wall cell, changes nothing; a move whose target is an open cell lands on the target point |
| Entity.LeftEdgeOfRowOne | game.py:44-63 | from (90, 90) a step left lands at (60, 90) in the same cell, and the next step left is rejected by the border wall |
| Entity.GameObject.constructor | game.py:34-39 | a new object stands at the given point with its box centred on it |
| Entity.GameObject.Move | game.py:44-63 | the new position is what Step decides; the box's corner moves with it (size kept) only when the step is taken, and is otherwise unchanged; a centred box stays centred |
| Chase.AxisStep | game.py:78-88 | the step on one axis is +1 or -1 exactly when the gap to the target exceeds 30 px, pointing towards the target, and 0 otherwise |
| Chase.ChaseApproaches | game.py:77-89 | a Chase step never increases the distance to the target on either axis, and when the ghost moves its total distance strictly shrinks |
| Chase.CloseGhostStays | game.py:79-89 | a ghost within 30 px of the target on both axes does not move, wherever it stands (Blinky in its wall-cell spawn included) |
| Chase.ChaseLegal | game.py:77-89 | a Chase step from a legal ghost position never indexes past the maze and ends where it started or on an open lattice cell |
| Chase.PinkyFirstStep | game.py:95 | a ghost at (270, 90) targeting (90, 90) moves (-1, 0), to (240, 90) |
| Chase.Ghost.constructor | game.py:66-71 | a new ghost's object stands at the given point with a centred box, and the point is remembered as its initial position |
| Chase.Ghost.Update | game.py:73-89 | dx and dy are chosen independently by AxisStep, then exactly one move(dx, dy) is made; the new position is the Chase step's result |
| Pellets.CountInside | game.py:124-126 | the number of pellets inside a box is at most the number of pellets |
| Pellets.Uneaten | game.py:125 | the filtered list holds exactly the old pellets outside the box, in their old order (a subsequence), and is shorter by exactly the number of pellets inside the box |
| Pellets.SubseqLength | game.py:125 | a subsequence is no longer than the list it comes from |
| Pellets.SubseqMembers | game.py:125 | every element of a subsequence is an element of the list |
| Pellets.SubseqTrans | game.py:124-127 | a subsequence of a subsequence is a subsequence (whatever is left over many ticks comes from the initial list) |
| Pellets.SubseqRowMajor | game.py:125 | filtering keeps row-major order |
| Pellets.NothingInside | game.py:125 | when no pellet is inside the box, the list is unchanged |
| Pellets.EatsAtMostOne | game.py:124-127 | for row-major lattice pellets and Pac-Man on the lattice, exactly one pellet is removed if one lies under Pac-Man, else none |
| Simulation.EventsEffect | game.py:104-115 | the event phase changes only Pac-Man and `running`; `running` ends false exactly when it was false or a QUIT came; Pac-Man stays on an open lattice cell |
| Simulation.QuitDoesNotStopQueue | game.py:104-106 | a QUIT in the queue does not stop the later key events from moving Pac-Man |
| Simulation.PacIgnoresRunning | game.py:104-115 | Pac-Man's moves from the events do not depend on `running` |
| Simulation.CollideAt | game.py:131-137 | one ghost check keeps the number of ghosts |
| Simulation.CollisionsEffect | game.py:130-137 | the collision phase never adds a life, changes nothing unless a life is lost, and leaves everybody at their spawn point when one is; it leaves pellets, score, running and spawn points alone |
| Simulation.NoHitsBefore | game.py:130-131 | checks of ghosts that do not overlap Pac-Man do nothing |
| Simulation.ResetAtSpawn | game.py:133-137 | resetting when everybody is already at their spawn point changes nothing |
| Simulation.ClydeHitsAfterReset | game.py:92-97 | right after a reset only Clyde overlaps Pac-Man, so the remaining checks cost exactly one more life |
| Simulation.FirstHitCost | game.py:130-137 | if the first overlapping ghost is Blinky, Pinky or Inky the tick costs 2 lives, if it is Clyde it costs 1, and everybody ends at their spawn point |
| Simulation.SpawnFacts | game.py:92-98 | Pac-Man's spawn is an open lattice cell; every ghost spawn is a lattice point above the bottom wall row; Pinky's, Inky's and Clyde's are open; Blinky's is a wall cell |
| Simulation.InitialInv | game.py:92-100 | the start-up state satisfies the invariant |
| Simulation.ChasePlaced | game.py:117-120 | a ghost on an open cell or at its spawn point stays so after its Chase step, and its move never indexes past the maze |
| Simulation.PelletsOrdered | game.py:124-127 | in every reachable state the pellets are row-major lattice points, no more than at the start, and the score is non-negative |
| Simulation.EventsKeepInv | game.py:104-115 | the event phase keeps the invariant |
| Simulation.ChaseKeepsInv | game.py:117-120 | the ghost phase keeps the invariant |
| Simulation.EatKeepsInv | game.py:123-127 | the pellet phase keeps the invariant and removes exactly the pellet under Pac-Man if there is one |
| Simulation.CollisionsKeepInv | game.py:129-137 | the collision phase keeps the invariant |
| Simulation.TickPreservesInv | game.py:103-137 | a tick keeps the invariant, never adds a pellet or a life, removes at most one pellet, adds exactly 10 points per pellet removed, and ends with `running` false exactly when it was false or a QUIT came |
| Simulation.IdleTickAtSpawn | game.py:92-137 | with no input from the spawn points, Blinky's ghost step leaves it at its spawn (its diagonal target is a wall), Pinky moves to (240, 90), Inky to (90, 240), Clyde stays on Pac-Man's spawn, and the tick costs exactly one life and ends with everybody at their spawn point |
| Simulation.RunPreservesInv | game.py:102-137 | over any number of ticks the invariant holds, pellets and lives never increase, and the score grows by 10 per pellet removed |
| Game.GameState.constructor | game.py:92-100 | the object graph starts as the start-up state (Pac-Man at (90, 90), the four ghosts, all pellets, score 0, 3 lives, running) and is valid |
| Game.GameState.Tick | game.py:103-137 | one pass of the loop body turns the state into TickSpec of the old state and keeps it valid |
| Game.GameState.ApplyInput | game.py:104-115 | the events, in queue order, turn the state into ApplyEvents of the old state |
| Game.GameState.UpdateGhosts | game.py:117-120 | each ghost, in list order, targets Pac-Man's current position and takes its Chase step; the result is ChaseAll of the old state |
| Game.GameState.EatPellets | game.py:123-127 | the pellet list is filtered and the score grows by 10 per pellet removed, as Eat says |
| Game.GameState.CheckCollisions | game.py:129-137 | the ghosts are checked in list order, each against the positions left by the previous checks, as CollideFrom says |
| Game.GameState.ResetEntities | game.py:133-137 | Pac-Man goes to (90, 90) and every ghost to its initial position, boxes moved along |
| Game.GameState.Run | game.py:102-103 | the loop runs one tick per batch of events until `running` is false, as RunSpec says, and keeps the state valid |

## Left out

- Window, clock, frame pacing, `display.flip`, `delay` and `quit`. These are I/O and timing.
- Event polling. Each tick's input is a sequence of abstract events `Left | Right | Up | Down | Other | Quit`. These stand for KEYDOWN of a, d, w, s; any other event or key; and QUIT.
- Drawing, text rendering and the colour table. These are presentation only, so `GameObject` has no colour field.
- The ghost's `ai_type` label and its `state`. The state is always "Chase", so `update` and `move_towards_target` are one method, `Ghost.Update`.
- The ghost's `target` field. The game sets it immediately before every update, so `Ghost.Update` takes it as a parameter instead.
- The internals of `pygame.Rect`. The collision tests are the assumptions stated above.
- Entity.GameObject.Move: the `IndexError` Python raises for a target in window rows 7 to 9 is not modelled as a crash. `Move` requires it not to happen, and `StepLegal` proves it never happens from a legal position. The value-level `MoveTo` leaves the position unchanged in that case, which no reachable state reaches.
- Simulation.ApplyEvent: maps every KEYDOWN of a, d, w, s to a move. It does not model the case where the identity test `event.type is pygame.KEYDOWN` (game.py:107) fails, because its outcome depends on the interpreter, not on the game's code.
- There is no game-over behaviour for lives reaching zero. The loop stops only on QUIT, and `running` models that.
