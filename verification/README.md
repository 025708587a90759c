# Pac-Man game engine — a verified Dafny model

This project models the game engine of a browser Pac-Man written in React/TypeScript, as pure
step functions over an immutable `GameState`:

- `moveEntity`: one step on a W×H grid. Columns wrap through the side tunnel, rows are clamped,
  and a move into a wall (cell value 0) leaves the position alone.
- the runner tick: Pac-Man turns onto its pending direction when that moves, else keeps going.
- `moveGhosts`: every ghost picks a random direction among those that change its position.
- `eatDot`: a dot (1) scores 10, a power pellet (2) scores 50 and frightens every ghost. Both
  become empty (3) and lower `dotsRemaining` by one. The pellet timer's effect when it fires is
  to set every ghost back to scatter.
- `checkCollisions`: the first ghost in list order on Pac-Man's cell is either eaten (+200, it
  goes home in scatter mode) or catches Pac-Man (one life lost, Pac-Man back at its spawn).
- the win/lose check, `startGame`, `resetGame`, the keyboard handler, and the initial state.
- the swipe classifier of the touch controls.

Modules follow the source: `Types` (src/types/game.ts), `Grid` (maze queries and the
collectible count), `Motion`, `Ghosts`, `Consumption`, `Collisions` and `Engine`
(src/components/PacManGame.tsx), `Constants` (src/utils/gameConstants.ts) and `Touch`
(src/hooks/useTouchControls.ts).

Modelling decisions:

- The maze data (`INITIAL_MAZE`, `MAZE_WIDTH`, `MAZE_HEIGHT`) is not part of this model. It
  becomes a `Layout` parameter: a rectangular grid of values 0–3, big enough to hold every
  spawn point.
- `Math.random()` becomes a roll in [0, 1) per ghost. The chosen index is `Floor(roll * n)`,
  the source's formula, computed on reals rather than doubles. `Ghosts.EveryValidDirectionReachable` shows that every
  moving direction is the result of some roll.
- `eatDot` and `checkCollisions` both decide from the same render's state and then apply their
  updates, in that order, to the latest state. So both take a snapshot `snap` and a state
  `prev`, and `Engine.Resolve(s)` is `CheckCollisions(s, EatDot(s, s))`. A pellet eaten on a
  ghost's cell is therefore judged against that ghost's old mode
  (`Engine.PelletOnGhostCellStillCatches`).
- `moveEntity` reads the maze of the render it was created in, not the latest one. The model
  passes the current maze and proves that only wall cells matter and walls never change
  (`Motion.OnlyWallsMatter`, `SameWalls` inside `Engine.Consistent`). So the older maze gives
  the same answer; for the ghost timer this is `Engine.GhostsReadMountMaze`.
- React's intervals and effects become explicit events (`Engine.Event`). `Engine.Apply` runs
  one event and `Engine.Run` runs a sequence. The runner tick, the ghost tick and the
  eat-and-collide effect act only while playing, matching the source's guards. The win/lose
  check and the pellet timer act in any status, as in the source.

The model follows the code, including where it departs from the usual Pac-Man rules:

- A collision with a non-frightened ghost resets only Pac-Man's position. Ghosts, Pac-Man's
  direction and its pending direction stay as they are.
- Ghosts move uniformly at random among the directions that move them. There is no
  reverse-direction exclusion, no pursuit, and no scatter/chase alternation. `Chase` is never
  assigned (`Engine.Consistent` keeps every ghost out of it).
- `startGame` sets the status to playing from any status, including game over.
- Space toggles the status, but the handler returns early unless the game is playing. So Space
  only ever pauses (`Engine.KeysNeverResume`). A paused game resumes through the start button.

## Model

| member | source | states |
|---|---|---|
| Types.AllDirectionsComplete | src/types/game.ts:2 | a direction is exactly one of UP, DOWN, LEFT, RIGHT |
| Grid.SetCell | src/components/PacManGame.tsx:105-106 | the copied maze differs from the original in the one written cell only |
| Grid.CountItemsConsume | src/components/PacManGame.tsx:103-123 | emptying one dot or pellet cell lowers the number of collectible cells by exactly one |
| Grid.CountItemsZero | src/components/PacManGame.tsx:264 | the count is zero exactly when no cell of the maze holds a dot or a pellet |
| Motion.MoveEntity | src/components/PacManGame.tsx:36-63 | the result is the start position or its one-step neighbour; a changed position is never a wall; an open neighbour is always taken |
| Motion.CanMoveIff | src/components/PacManGame.tsx:143-146 | a direction changes position exactly when its neighbour is a different, non-wall cell |
| Motion.NeverIntoWall | src/components/PacManGame.tsx:57-60 | from an open cell a move never ends on a wall |
| Motion.WrapLeft | src/components/PacManGame.tsx:47-50 | LEFT from column 0 reaches column W−1 on the same row when that cell is open |
| Motion.WrapRight | src/components/PacManGame.tsx:51-54 | RIGHT from column W−1 reaches column 0 on the same row when that cell is open |
| Motion.ClampUp | src/components/PacManGame.tsx:41-43 | UP on row 0 leaves the position unchanged |
| Motion.ClampDown | src/components/PacManGame.tsx:44-46 | DOWN on row H−1 leaves the position unchanged |
| Motion.MoveStaysInGrid | src/components/PacManGame.tsx:40-55 | a position inside the grid stays inside; a real move changes one coordinate by one or across the tunnel |
| Motion.OnlyWallsMatter | src/components/PacManGame.tsx:58 | two mazes with the same walls resolve every move identically |
| Motion.RunnerTick | src/components/PacManGame.tsx:221-235 | the new direction is the pending one if that moves, else the current one; the position is the move along it; the pending direction and everything else are kept |
| Motion.RunnerStaysIff | src/components/PacManGame.tsx:221-227 | Pac-Man stays put exactly when neither the pending nor the current direction moves |
| Ghosts.ValidDirections | src/components/PacManGame.tsx:142-146 | holds exactly the directions that change the ghost's position, each once |
| Ghosts.PickIndex | src/components/PacManGame.tsx:151 | floor(roll × n) for a roll in [0, 1) is an index below n |
| Ghosts.EveryIndexReachable | src/components/PacManGame.tsx:151 | every index below n is picked by some roll |
| Ghosts.MoveGhost | src/components/PacManGame.tsx:141-158 | a ghost with no moving direction is unchanged; otherwise it takes a moving direction and the move along it; id, colour and mode are kept |
| Ghosts.EveryValidDirectionReachable | src/components/PacManGame.tsx:148-158 | every direction that moves the ghost is chosen by some roll |
| Ghosts.MoveGhosts | src/components/PacManGame.tsx:139-161 | same ghost count; ghost i is moved from its own previous state with roll i |
| Ghosts.MoveGhostsKeepsRoster | src/components/PacManGame.tsx:141-161 | count, ids, colours and modes are preserved; each ghost is unchanged or moved along a moving direction |
| Ghosts.GhostTick | src/components/PacManGame.tsx:139-162 | only the ghost list changes |
| Consumption.SetModes | src/components/PacManGame.tsx:124 | every ghost gets the mode, nothing else about it changes |
| Consumption.EatDot | src/components/PacManGame.tsx:99-125 | dot: cell emptied, +10, one fewer left; pellet: the same with +50 and all ghosts frightened; other cells: no change |
| Consumption.EatTwiceScoresOnce | src/components/PacManGame.tsx:101-114 | eating again on the same cell changes nothing |
| Consumption.EatKeepsCount | src/components/PacManGame.tsx:103-123 | eating keeps the remaining count equal to the collectible cells, keeps the walls, never lowers the score |
| Consumption.PelletExpiry | src/components/PacManGame.tsx:128-133 | every ghost goes back to scatter, nothing else changes |
| Collisions.FirstCollision | src/components/PacManGame.tsx:69-72 | the index of the first ghost on Pac-Man's cell, none before it; none when no ghost is there |
| Collisions.SendHome | src/components/PacManGame.tsx:80-84 | ghosts with the eaten ghost's id go to (13,13) in scatter, the rest are untouched |
| Collisions.CheckCollisions | src/components/PacManGame.tsx:65-96 | no ghost: no change; frightened first ghost: +200 and it goes home; otherwise one life lost and Pac-Man back at (13,26) |
| Collisions.EatenGhostAlone | src/components/PacManGame.tsx:74-86 | with distinct ids only the eaten ghost changes; lives and Pac-Man are untouched |
| Collisions.CaughtLosesOneLife | src/components/PacManGame.tsx:87-95 | exactly one life is lost, Pac-Man returns to (13,26) keeping its direction, ghosts and score are unchanged |
| Constants.CreateInitialGameState | src/utils/gameConstants.ts:23-32 | score 0, lives 3, level 1, status ready, Pac-Man and the ghosts as the initial constants give them, the initial maze, and a remaining count equal to its collectible cells |
| Constants.InitialRoster | src/utils/gameConstants.ts:8-19 | four ghosts with distinct ids 1–4 facing UP in scatter; Pac-Man at (13,26) facing RIGHT with RIGHT pending |
| Engine.ResetGame | src/components/PacManGame.tsx:275-295 | the reset state is ready, scores 0, has 3 lives, the initial maze, a matching remaining count and satisfies the invariant |
| Engine.ResetIsInitial | src/components/PacManGame.tsx:275-295 | the reset state equals the constants file's initial state |
| Engine.StartGame | src/components/PacManGame.tsx:270-273 | the status becomes playing and nothing else changes |
| Engine.KeyDirection | src/components/PacManGame.tsx:170-190 | arrows and w/a/s/d in either case map to their direction, and only those keys |
| Engine.KeyPress | src/components/PacManGame.tsx:165-206 | outside play nothing changes; a steering key sets only the pending direction; Space pauses; other keys do nothing |
| Engine.KeysNeverResume | src/components/PacManGame.tsx:166 | no key takes a paused game out of pause |
| Engine.PelletOnGhostCellStillCatches | src/components/PacManGame.tsx:252-257 | a pellet eaten on a not-yet-frightened ghost's cell costs a life, while all ghosts end frightened and the pellet still scores |
| Engine.StepOntoDot | src/components/PacManGame.tsx:221-257 | a step onto a dot without ghosts ends on that cell, now empty, with +10 and one fewer collectible |
| Engine.Judge | src/components/PacManGame.tsx:260-267 | lost exactly when lives ≤ 0; won exactly when lives > 0 and no collectibles remain |
| Engine.TerminalCheck | src/components/PacManGame.tsx:260-267 | a decided game goes to game over; only the status ever changes |
| Engine.MountStateEndsGame | src/components/PacManGame.tsx:260-267 | the mount state (3 lives, 0 remaining) is judged a win and goes to game over |
| Engine.LossTakesPrecedence | src/components/PacManGame.tsx:261-266 | no lives and no collectibles together is a loss |
| Engine.WinMeansCleared | src/components/PacManGame.tsx:264 | under the invariant, a win means no dot or pellet is left in the maze |
| Engine.GhostsReadMountMaze | src/components/PacManGame.tsx:139-163 | in any consistent state, moving the ghosts against the mount-time maze gives exactly the moves against the current maze |
| Engine.SettleConsistent | src/components/PacManGame.tsx:252-257 | the eat-and-collide effect keeps the invariant, never lowers the score, never raises the count |
| Engine.ApplyConsistent | src/components/PacManGame.tsx:165-295 | every event keeps the invariant |
| Engine.ApplyMonotone | src/components/PacManGame.tsx:99-133 | apart from reset, no event lowers the score or raises the remaining count; only eating and reset change the maze |
| Engine.Run | src/components/PacManGame.tsx:214-268 | any sequence of events keeps the invariant; without a reset the score never drops and the count never rises |
| Engine.ReachableConsistent | src/components/PacManGame.tsx:276-294 | from a reset, the remaining count always equals the collectible cells, walls stay put, and no ghost is ever in chase |
| Touch.SwipeDirection | src/hooks/useTouchControls.ts:39-52 | nothing under 30 on both axes; otherwise horizontal when |dx| > |dy| (RIGHT iff dx > 0), else vertical, ties included (DOWN iff dy > 0) |
| Touch.HandleTouchStart | src/hooks/useTouchControls.ts:19-27 | records the point while playing, otherwise leaves the stored start alone |
| Touch.HandleTouchEnd | src/hooks/useTouchControls.ts:29-55 | nothing when not playing or no start is stored; otherwise clears the start and emits the swipe's direction, if any |
| Touch.SwipeAlongDirection | src/hooks/useTouchControls.ts:46-52 | a straight swipe of length ≥ 30 along a direction is read as that direction |
| Touch.SwipeReversed | src/hooks/useTouchControls.ts:46-52 | reversing a swipe reverses the direction read |
| Touch.TapIsNoSwipe | src/hooks/useTouchControls.ts:39-43 | a tap emits nothing and clears the start point |

## Left out

- React scheduling (`useEffect`, the 200 ms and 400 ms intervals, re-render timing) at src/components/PacManGame.tsx:209-257: ticks and effects are explicit events. `Engine.Run` covers only the runs where each effect's snapshot is the very state its updates land on.
- Stale snapshots: `eatDot` and `checkCollisions` decide from the render's state (src/components/PacManGame.tsx:66, :100), but their updates apply to the latest state. A ghost tick or a reset can land between the two. After a reset, for example, `eatDot` writes back the old game's maze copy, with the fresh count lowered by one. The remaining count then no longer matches the maze. The model does not cover these interleavings, and `Engine.Consistent` is not claimed for them.
- The mount-time state with `dotsRemaining: 0` (src/components/PacManGame.tsx:10-34): the effect at :31-34 corrects only the count. In the same flush, the win/lose check (:260-267) reads the mount state (3 lives, 0 remaining) and sets the status to game over as a win. So the component first settles in game over with no start button. The model starts from `ResetGame` / `CreateInitialGameState` instead.
- The pellet timer's 10 s delay, and its not being cancelled by a second pellet or a reset: only its effect is modelled, as an event `PelletTimeout` that may arrive at any time.
- Toasts, `preventDefault` and the registration of key and touch listeners: notifications and DOM plumbing with no effect on the state.
- The timing constants at src/utils/gameConstants.ts:1-3: unused by the engine.
- The maze data file (`mazeData`) is not part of this model: its grid and dimensions are the `Layout` parameter.
- The rendering components and GameUI's win/lose message, which only re-reads `lives` the way `Engine.Judge` does.
- A Pac-Man row outside the maze makes the source's `eatDot` throw. `EatDot` and `Resolve` require the row to exist instead, which `Engine.Consistent` guarantees.
- Ghosts.PickIndex: double rounding of roll · n is not modelled. The double nearest 1/3, times 3, rounds to 1.0 and picks index 1, where the real product picks 0. The set of directions a ghost can take is the same.
- Touch.SwipeDirection: screen coordinates are mathematical reals, so NaN, infinities and floating-point rounding are not modelled.
- Integer widths: scores and lives are unbounded integers; the source's doubles stay exact far beyond any reachable score.
