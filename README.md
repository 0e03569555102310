# Flappy Bird simulation loop, modelled in Dafny

This project models the per-frame simulation of a browser Flappy-Bird game
(`web/game.js`). A square bird at a fixed horizontal position falls under
constant gravity 0.5. A flap sets its velocity to -10. The ceiling stops the
bird, and the ground ends the game. Pipe pairs with a 150-pixel gap spawn at
the right edge of the 400x600 canvas every 100 frames. They move left 2 pixels
per tick and end the game when the bird touches one. Each pipe scores once, when
the bird passes it. Pipes that leave the canvas are spliced out of the pipe
array during the same forward scan that updates them. The Space key flaps while
a game runs and starts a new game otherwise.

Modules, one per part of the game:

- `Canvas` (`canvas.dfy`): the 400x600 canvas.
- `Bird` (`bird.dfy`): `bird.update` as the function `Update`, plus the
  closed form of free fall over `n` ticks.
- `Pipes` (`pipes.dfy`): the pipe record, the `Pipe` constructor with the
  random draw as a parameter (`NewPipe`), the collision and pass tests, and
  `Pipe.update` as the function `Update`.
- `Track` (`track.dfy`): the pipe loop of `animate` specified as a fold
  (`Sweep`). Lemmas show that it visits every pipe exactly once, removes exactly
  the off-screen pipes, keeps the order, and scores each pipe once.
- `Session` (`session.dfy`): the game state and the tick (`TickSpec`). Also
  `startGame` and the Space-key dispatch (`SpaceSpec`), and the invariant
  `Valid`, which every tick and every key press keeps. The class `Game` holds
  the source's mutable fields and globals (`y`, `velocity`, `running`, `score`,
  `frames`, `pipes`). Its methods update them in place as the source does, and
  each method is proved against the functions above. `UpdatePipes` keeps the
  source's `splice(i, 1); i--` loop.

The bird's position and velocity are exact reals: every value the source
computes is a multiple of 0.5, so floating point never rounds. Pipe
coordinates are integers.

Facts about the code that the model follows:

- Pipe speed is the constant 2. There is no score-dependent difficulty and no
  leaderboard in this file.
- A pipe update moves the pipe before it tests collision and passing.
- The ceiling clamp fires on `y <= 0`, so a bird landing exactly at 0 also has
  its velocity zeroed.
- `startGame` calls `animate` directly (web/game.js:173), so a game starts
  with one tick already done. `StartGame` and `SpaceSpec` include that tick.

## Model

| member | source | states |
|---|---|---|
| Bird.Update | web/game.js:89-104 | Nothing changes while the game is stopped. Otherwise velocity gains gravity before position moves by the new velocity (when not clamped). The game ends exactly when the integrated bottom edge reaches 600. Position never goes below 0, and a position at or above the ceiling is clamped to 0 with zero velocity and the game still running. |
| Bird.FallClosedForm | web/game.js:89-93 | For any start, an arc after a flap included: if every position of the free-fall path over `n` ticks stays strictly below the ceiling and above the ground, then after `n` updates the velocity is `v + n*0.5`, the position is `y + n*v + 0.5*n*(n+1)/2`, and the game still runs. |
| Pipes.NewPipe | web/game.js:117-122 | A new pipe is at x = 400, not passed. Its top height is `floor(r*350) + 50`, in [50, 399], and its bottom segment starts at `topHeight + 150 <= 549`. |
| Pipes.NewPipeCoversRange | web/game.js:121 | Every top height in [50, 399] comes from some draw in [0, 1), so the range is exact. |
| Pipes.Update | web/game.js:133-154 | A stopped game changes nothing. A running update moves the pipe left by 2 and keeps its segments. It ends the game exactly when the moved pipe collides with the bird. `passed` is never unset and is set exactly when the moved pipe is cleared. The score rises by 1 exactly when `passed` flips. A colliding update never scores. |
| Pipes.Collides | web/game.js:138-142 | For a bird at least partly on the canvas (`-30 < y < 600`), the test holds exactly when the bird's 30x30 box shares interior points with the top segment (from 0 down to `topHeight`) or the bottom segment (from `bottomY` down to 600), over the pipe's 60-pixel width. |
| Pipes.ClearedNeverCollides | web/game.js:138-147 | A cleared pipe cannot collide with the bird. A pipe overlapping the bird is neither cleared nor off screen. |
| Track.OnScreen | web/game.js:200-204 | The kept pipes are exactly the on-screen pipes of the input, and there are no more of them than in the input. |
| Track.Sweep | web/game.js:195-205 | One entry per pipe present at loop start. The loop can only stop the game, never restart it. The score never decreases. |
| Track.SweepStep | web/game.js:196-205 | One iteration: updating the next pipe and keeping it only if on screen extends the scan by that pipe. |
| Track.SpliceAt | web/game.js:197-203 | Updating the pipe at the scan position, or splicing it out, keeps the array as kept pipes followed by unvisited ones. |
| Track.SweepVisitsEachOnce | web/game.js:196-205 | The j-th visited pipe is the update of exactly the j-th pipe at loop start, made in the state the first j updates left. No pipe is skipped or visited twice. |
| Track.SweepRemovesOffScreen | web/game.js:200-204 | After the loop the array holds exactly the visited pipes that are on screen, in order. None is off screen. |
| Track.SweepScoresEachPipeOnce | web/game.js:139-152 | Each pipe keeps its segments, never moves right and never loses `passed`. The score grows by exactly the number of `passed` flags this scan set. |
| Track.SweepMovesAllWhileRunning | web/game.js:134-135 | If the game still runs after the loop, every pipe moved left by exactly 2. |
| Track.SweepStopped | web/game.js:133-205 | Over a stopped game the loop changes no pipe or score. It only drops off-screen pipes. |
| Track.SweepStopsOnlyOnCollision | web/game.js:138-144 | A running game stops during the loop only if some visited pipe collides with the bird. |
| Track.OnScreenSorted | web/game.js:201-203 | Removing pipes keeps the remaining ones in left-to-right order. |
| Track.OnScreenCountPassed | web/game.js:201-203 | Removing pipes never increases the number of passed pipes. |
| Track.OnScreenIdentity | web/game.js:201 | With no pipe off screen, the loop's removal keeps every pipe. |
| Session.BirdStep | web/game.js:89-104 | The bird's update changes only `y`, `velocity` and the running flag. A stopped game is unchanged. While running: `y` stays at or below the ceiling, the game ends exactly on reaching the ground, an unclamped position moves by the new velocity, and a position at or above the ceiling is clamped with zero velocity. |
| Session.Spawned | web/game.js:191-193 | The spawn step appends exactly one pipe, the one built from the draw, when `Spawns` holds (running after the bird's update and `frames % 100 == 0`). Otherwise the pipes are unchanged. The older pipes keep their places. |
| Session.TickSpec | web/game.js:182-207 | A tick advances the frame count by one. It never lowers the score and never restarts a stopped game. It leaves no off-screen pipe. |
| Session.TickFrozenWhenStopped | web/game.js:187-207 | In a valid but stopped state, a tick changes nothing except the frame counter. |
| Session.TickSpawnsOnCadence | web/game.js:191-205 | A tick adds at most one pipe. If the game runs after the bird's update and `frames % 100 == 0`, the newest pipe is the one built from the draw, updated once in the state the older pipes left. It keeps its segments, is not passed, and is at x = 398, or at 400 if an older pipe ended the game first. Otherwise the pipe count does not grow. |
| Session.TickEndsOnlyByGroundOrPipe | web/game.js:89-144 | A running game ends in a tick only by the bird reaching the ground or a pipe colliding with it. |
| Session.BirdStepKeepsBounds | web/game.js:89-104 | After the bird's update it is at or below the ceiling. While the game runs it is above the ground. |
| Session.SpawnedKeepsBounds | web/game.js:191-193 | After spawning, all pipes are well formed, passed pipes are still counted in the score, and the new pipe is right of all others while running. |
| Session.SweepKeepsWellFormed | web/game.js:196-205 | The pipe loop leaves only well-formed, on-screen pipes. |
| Session.SweepKeepsCount | web/game.js:196-205 | After the loop, the score is at least the number of passed pipes left. |
| Session.SweepKeepsOrder | web/game.js:195-205 | While the game runs, the loop keeps the pipes in screen order, all left of the spawn point. |
| Session.TickPreservesValid | web/game.js:182-207 | Every tick keeps the invariant: bird below the ceiling, above ground while running, pipes well formed and on screen, in screen order and left of x = 400 while running, and score at least the number of passed pipes. |
| Session.FirstTick | web/game.js:158-207 | The first tick of a fresh session gives y = 300.5, velocity 0.5, running, score 0, frames 1 and a single pipe at x = 398 from the draw. |
| Session.SpaceSpec | web/game.js:216-226 | After Space the game runs. Space in a running game is a flap: velocity becomes exactly -10 and nothing else changes. Space in a stopped game gives the first-tick state above, whatever the previous score, pipes and bird. |
| Session.SpacePreservesValid | web/game.js:216-226 | The page-load state and a fresh session are valid, and the Space key keeps validity. |
| Session.Game.constructor | web/game.js:69-82 | The fields start as the page loads them: y = 300, velocity 0, not running, score 0, frames 0, no pipes. This state is valid. |
| Session.Game.UpdateBird | web/game.js:89-105 | The fields change as `BirdStep` says. |
| Session.Game.Flap | web/game.js:107-110 | Only the velocity changes, to -10. |
| Session.Game.GameOver | web/game.js:176-180 | Only the running flag changes, to false. |
| Session.Game.UpdatePipe | web/game.js:133-154 | The i-th pipe, the running flag and the score change as `Pipes.Update` says; nothing else does. |
| Session.Game.UpdatePipes | web/game.js:195-205 | The in-place scan with `splice(i, 1); i--` leaves pipes, running flag and score as `Sweep` over the pipes at loop start says. |
| Session.Game.Tick | web/game.js:182-213 | The fields change as `TickSpec` says. The result (is another frame scheduled) is the running flag. The invariant is kept. |
| Session.Game.StartGame | web/game.js:158-174 | The fields become `TickSpec(Started, r)`, the first tick of a fresh session, whose values `FirstTick` gives. |
| Session.Game.OnSpace | web/game.js:216-226 | The fields change as `SpaceSpec` says, and the invariant is kept. |

## Left out

- Audio cues (`createFlapSound`, `createScoringSound`, `createGameOverSound`) are host sound calls with no effect on the game state.
- Canvas drawing (`draw` methods, `clearRect`, the start-screen text) is rendering only.
- The score and game-over DOM elements are display side effects.
- `requestAnimationFrame` is not modelled as a scheduler: `Session.Game.Tick` returns whether another tick would be scheduled.
- `Math.random` is a parameter: the draw is a value of the type `Pipes.Draw`, the reals in [0, 1).
- Keyboard event plumbing (`addEventListener`, `preventDefault`, the key code test) is left out. Only the flap-or-start decision is modelled.
- JavaScript number semantics: all quantities are multiples of 0.5 at small magnitudes, so exact reals and integers replace IEEE doubles.
- Pipes are values in a sequence rather than objects. Nothing else in the game holds a reference to a pipe.
- The fixed 200-pixel spacing between successive pipes is not stated. The model proves only that pipes stay in strictly increasing x order while the game runs.
- Score-dependent pipe speed and the leaderboard do not exist in this file, so they are not modelled.
