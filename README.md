# Falling-obstacle game: the per-frame state machine

This project models the per-frame state machine of a small browser arcade game. The player slides left and right along the bottom of the canvas. Obstacles fall from above. A scoring obstacle (type 0) that touches the player adds one point. A hazard (type 1) ends the game. The game also ends 30 seconds after start.

The state of the program is:

- the obstacle list,
- the score,
- the game-over flag,
- the fall speed,
- the player's horizontal position,
- the current touch direction.

In the model this state is one object, `GameState.Game`. Each function of the program that changes the state is a method of that object:

- `CreateObstacle`: the spawn timer's tick.
- `UpdateObstacles`: advance and cull.
- `DetectCollision`, with its loop body `Collide` and `UpdateScore`.
- `IncreaseObstacleSpeed`: the speed timer's tick.
- `CheckGameOver`.
- `GameLoop`: one animation frame.
- The three touch handlers.

The module `Field` holds the pure parts: canvas geometry derived from the canvas size, the strict rectangle-overlap test, the player's guarded step, and the touch-to-direction rule. It also holds the functions that say what one frame does to the obstacle list:

- `Fall`: every obstacle moves down.
- `OnScreen`: the obstacles still above the bottom edge.
- `Missed`: the obstacles the player does not hit.
- `Points`: the scoring hits.
- `HazardHit`: whether some hazard is hit.

Each method is proved against these functions, and the lemmas in `Field` prove what the functions mean.

`Game.Valid()` is the object invariant kept by every method that can be called between frames:

- The speed equals 4 + 0.5·k. Here k is a ghost count of speed increases.
- Every live obstacle has its left edge in [0, width − obstacleWidth] and its top in [−obstacleHeight, height].
- The player's left edge is less than one step (8) beyond either edge.

`Game.Progress()` says that between the old and the new state the score and the speed do not go down, and a finished game stays finished. Every method of the object ensures it, including `DetectCollision` and its loop body `Collide`, which are not required to keep `Valid()`.

What the model takes from outside the program:

- The clock becomes the `elapsed` argument of `GameLoop` and `CheckGameOver`: milliseconds since start, as an integer.
- The two `Math.random()` draws of a spawn become `u` and `v` in [0, 1).
- The canvas size is the `Screen` value, fixed at construction.
- The touch position becomes `touchX`.

Coordinates and speed are exact reals. `player.y` is never reassigned, so it is not state in the model: it is `Screen.PlayerTop()`, 10 pixels above the bottom edge less the player's height.

Behaviour of the code worth noting:

- Timers keep running after the game ends. Neither interval is ever cleared, so `CreateObstacle` and `IncreaseObstacleSpeed` still change the obstacle list and the speed after `gameOver`. Only `GameLoop` stops changing state.
- Movement is guarded, not clamped. The player moves left while x > 0 and right while x < width − playerWidth. One step can therefore end up to 8 pixels past an edge (`Field.GuardIsNotAClamp`).
- Collisions use full-size rectangles and strict comparisons, so rectangles that only touch do not collide.
- Every obstacle of the list as it stood on entry to the collision pass is checked. Scoring hits after a hazard in the same frame still count.
- In the frame where the game ends, the player still moves. Movement comes after the collision and time checks.
- The type draw is `random > 0.5 ? 0 : 1`, so a draw of exactly 0.5 gives a hazard.

Module `Scenario` holds `SpawnRampFrame`, a usage example with no contract of its own: on a 1000 by 800 canvas it runs one spawn tick, one speed tick and one frame, and asserts where the new obstacle ends up, the score, the flag and the timer. Its lemma `FirstFrame` works out that frame on the obstacle list.

## Model

| member | source | states |
|---|---|---|
| Field.Overlaps | game.js:81-86 | the strict axis-aligned overlap test holds exactly when each rectangle starts before the other ends, on both axes; it can only hold when the two widths and the two heights have positive sums |
| Field.Screen.Hit | game.js:81-86 | the player at x overlaps an obstacle exactly when the obstacle's left edge lies strictly between x − obstacleWidth and x + playerWidth and its top strictly between playerTop − obstacleHeight and playerTop + playerHeight |
| Field.Screen.PlayerTop | game.js:43-48 | the player's top edge sits one player height plus 10 above the bottom edge |
| Field.Screen.InitialPlayerX | game.js:43-48 | the player starts horizontally centred, with its left edge inside [0, width − playerWidth] on any canvas of non-negative size |
| Field.Fall | game.js:73-75 | every obstacle keeps its position in the list, its x and its type, and moves down by exactly the speed |
| Field.OnScreen | game.js:76 | the cull never grows the list and every survivor has its top at most the canvas height |
| Field.Missed | game.js:80-93 | collision resolution never grows the list and no remaining obstacle overlaps the player |
| Field.Points | game.js:87-88 | a frame adds at most one point per checked obstacle |
| Field.HazardHit | game.js:89-91 | the collision pass ends the game only if some position holds an overlapping hazard |
| Field.CollisionStep | game.js:80-93 | checking one more obstacle keeps the list as it was on a hit and appends the obstacle otherwise, adds one point exactly for a scoring hit, and ends the game if it was ended or this one is a hazard hit |
| Field.ResolveStep | game.js:80-94 | one step of the collision pass on the current list (kept prefix, then the unchecked rest): removing the obstacle on a hit, or passing it otherwise, keeps that shape one position on, while score and flag follow the hit and the obstacle's type |
| Field.OverlapsIffSharedPoint | game.js:81-86 | for rectangles of positive size, the collision test holds exactly when the two open rectangles share an interior point |
| Field.EdgeContactIsNoHit | game.js:81-86 | rectangles that only touch along an edge (either side, top or bottom) do not collide |
| Field.Spawned | game.js:52-55 | a spawned obstacle starts one obstacle height above the top, its left edge lies in [0, width − obstacleWidth], and it is of the scoring type exactly when the type draw exceeds 0.5 |
| Field.OnScreenMembers | game.js:76 | an obstacle survives the cull exactly when it was on the list and its top is at most the canvas height (inclusive); the list never grows |
| Field.FallKeepsInPlay | game.js:72-77 | moving every in-play obstacle down by a non-negative speed and culling leaves only in-play obstacles |
| Field.OnScreenAppend | game.js:76 | culling works piecewise on any split of the list, so the survivors keep their order |
| Field.MissedMembers | game.js:80-93 | an obstacle is left after collision resolution exactly when it was on the list and the player does not overlap it |
| Field.MissedAppend | game.js:80-93 | removing the hit obstacles works piecewise on any split of the list, so the rest keep their order |
| Field.PointsCountsScoringHits | game.js:87-88 | the points a frame adds equal the number of positions holding an overlapping scoring obstacle |
| Field.HazardHitIffSome | game.js:89-91 | the collision pass ends the game exactly when some position holds an overlapping hazard |
| Field.CollisionPartition | game.js:80-94 | without a hazard hit, every checked obstacle either stays on the list or scores exactly one point |
| Field.Moved | game.js:144-148 | the player moves left exactly when the direction is left and x > 0, right exactly when the direction is right and x < width − playerWidth, always by exactly one step |
| Field.MoveStaysWithinOneStep | game.js:144-148 | a player that is less than one step beyond the edges stays so after any input |
| Field.BlockedAtEdges | game.js:144-148 | pushing left with x = 0, or right with x = width − playerWidth, does not move the player |
| Field.GuardIsNotAClamp | game.js:144-148 | a step that starts inside the bounds can end beyond either edge |
| Field.TouchDirection | game.js:158-165 | a touch sets a direction, never none; it is left exactly when the touch is on the left half of the canvas |
| GameState.RemainingTime | game.js:112-114 | the timer readout is never negative; it is zero once 30000 ms have passed, and before that it is the remaining milliseconds in seconds |
| GameState.TimeUpIffTimerZero | game.js:106-114 | the time-based end condition holds exactly when the unrounded remaining time is zero, and that time never rises as time passes (the one-decimal text shows 0.0 slightly earlier) |
| GameState.Game.Valid | game.js:20-56 | the object invariant: speed is the initial speed plus 0.5 per ramp, hence never below 4; every obstacle is in play; the player is less than one step beyond either edge |
| GameState.Game.Progress | game.js:79-110 | score and speed never go down and a finished game stays finished |
| GameState.Game.constructor | game.js:20-50 | a new game has no obstacles, score 0, is running, has speed 4 and no direction, and has the player centred horizontally |
| GameState.Game.CreateObstacle | game.js:52-56 | a spawn appends exactly one in-play obstacle and leaves the existing ones unchanged, whether or not the game is over |
| GameState.Game.UpdateObstacles | game.js:72-77 | the list becomes the cull of every obstacle moved down by the current speed, keeping the invariant |
| GameState.Game.DetectCollision | game.js:79-95 | on the list as it stood on entry: the score grows by the overlapping scoring obstacles, the game is over iff it was or a hazard overlaps, and exactly the overlapping obstacles are removed, in order |
| GameState.Game.Collide | game.js:81-93 | one obstacle at a known position: on overlap, it scores or ends the game by type and that one obstacle is removed; otherwise nothing changes |
| GameState.Game.UpdateScore | game.js:97-100 | the score grows by exactly one |
| GameState.Game.IncreaseObstacleSpeed | game.js:102-104 | the speed grows by exactly 0.5, so after k increases it is 4 + 0.5·k, whether or not the game is over |
| GameState.Game.CheckGameOver | game.js:106-110 | the game becomes over when 30000 ms have elapsed and the flag is otherwise unchanged |
| GameState.Game.GameLoop | game.js:118-151 | a frame of a finished game changes nothing and shows no timer; otherwise obstacles fall and are culled, collisions resolve at the pre-move position, the game ends by hazard or time, the timer shows the remaining time, and the player takes one guarded step; score, speed and game-over only move forward |
| GameState.Game.HandleTouchStart | game.js:158-165 | the direction becomes the touch's half of the canvas |
| GameState.Game.HandleTouchEnd | game.js:167-169 | the direction becomes none |
| Scenario.FirstFrame | game.js:72-95 | on a 1000 by 800 canvas, a fresh obstacle at speed 4.5 falls to 75.5 above the top, survives the cull, misses the centred player and scores nothing |
| GameState.Game.HandleTouchMove | game.js:171-178 | the direction becomes the touch's half of the canvas |

## Left out

- Rendering is not modelled: the canvas and DOM setup, image loading, every `drawImage`/`fillText`/`clearRect`, the end-screen text, and writing the score and time readouts into the page. `GameLoop` returns the timer value the readout would show.
- Scheduling is not modelled: `requestAnimationFrame`, the two `setInterval` timers (every 600 ms and every 1700 ms) and event-listener registration. Spawns and speed increases are separate methods a caller may run between frames.
- `Date.now()` is not modelled: one `elapsed` reading per frame stands for both clock reads of the program (in the time check and in the timer readout).
- Floating point is not modelled: sizes such as `canvas.width * 0.15` are exact reals, and the one-decimal `toFixed(1)` formatting of the readout is presentation only.
- Object identity is not modelled: obstacles are values. The program removes a hit obstacle by identity, and the model removes it at the position where that same obstacle sits in the current list.
- GameState.Game.DetectCollision: does not itself re-establish `Valid()`; `GameLoop` does so right after it, using `Field.MissedMembers`.
- The touch event object is not modelled: only the x coordinate of its first touch is passed in.
