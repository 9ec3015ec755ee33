# One-paddle Pong: the simulation core in Dafny

This project models the simulation part of a browser Pong game with one
paddle (`script.js`). A ball moves in a rectangular arena and bounces off the
left, top and bottom walls. On the right is the goal line, where a
vertically moving paddle must meet the ball, or the ball is served again from
the left. The paddle's velocity is commanded by the up and down arrow keys.

The model has these parts:

- `Config` (config.dfy): the arena, paddle and ball constants. This includes
  `GoalLine` = 800 − 5 − 6 = 789.
- `Optional` (option.dfy): an `Option` type, for the paddle's optional
  velocity argument and for the key stream's "no key passed on yet".
- `Geometry` (geometry.dfy): the two pure helpers. `ExtrapolatePosition`
  gives straight-line motion at constant velocity. `Interpolate` gives linear
  interpolation between parallel ranges; a zero-length range is replaced by
  the epsilon 0.00001.
- `Ball` (ball.dfy): the ball as a class with `timestamp`, `position` and
  `velocity` fields. `Reset` and `Update` change those fields in place and
  take the same early return on a miss as the source. Each method is proved
  equal to a pure step function (`Served`, `BallStep`) of the old state. The
  paddle's position is a parameter of `Update`; the source reads it from the
  global paddle object.
- `BallProperties` (ball_properties.dfy): what one ball update guarantees.
  This covers each collision branch in priority order (left, goal line, top,
  bottom), the hit and miss cases at the goal line, the serve, the speed that
  is kept, the arena invariant and idempotence at a repeated time.
- `Paddle` and `PaddleProperties` (paddle.dfy, paddle_properties.dfy): the
  paddle as a class whose `Update` moves it with the velocity it held before
  the call, stores the new time and velocity, and clamps it to the screen.
  `PaddleStep` specifies `Update`.
- `Input` (input.dfy): the keyboard reducer. Key events are folded over an
  explicit sequence into a `Held(up, down)` pair of bits. Repeated keys are
  dropped first (the stream's `distinctUntilChanged`). Each state becomes the
  velocity `(down − up) × PaddleVelocity`. The stream emits the initial
  released state first, because `startWith([0, 0])` comes before a `scan`
  that has no seed.
- `Frame` (frame.dfy): one frame of the game loop, which updates the paddle
  and then the ball, and the handler that applies one velocity command to the
  paddle.

All positions, velocities and times are `real`, so snapping, sign flips,
clamping and the epsilon guard are exact.

Randomness and trigonometry are passed in as a `Serve` value. Its `draw` is
the uniform number in [0, 1) that places the served ball vertically. Its
`velocity` is the launch velocity the host computes from a random angle.
`ValidServe` requires the draw in [0, 1) and a positive x-velocity: the angle
is within 55° of the x-axis, so its cosine is positive.

### Two guarantees the code does not give

A game like this is expected to give two guarantees that the code does not:

- **The ball is not always inside the arena after an update.** Only the first
  matching wall is resolved. A destination beyond two walls, near a corner,
  can leave the ball outside the arena. `CornerCrossingLeavesArena` shows
  such a case: the ball ends at (3.5, 2.2), above the top wall.
  `UpdateStaysInsideArena` proves the invariant when the destination is
  beyond at most one wall.
- **A second update to the same time is not always a no-op.** After a corner
  crossing, the second update resolves the other wall
  (`CornerCrossingLeavesArena`). After a miss, the update returns before the
  timestamp is written. A second update to the same time then moves the
  newly served ball (`MissThenSameTimeMoves`). `UpdateTwiceSameTime` proves
  the no-op when neither case applies.

## Model

| member | source | states |
|---|---|---|
| `Geometry.ExtrapolatePosition` | script.js:57-63 | with t2 = t1 the point is returned unchanged; a zero velocity component leaves that coordinate unchanged |
| `Geometry.ExtrapolateCompose` | script.js:57-63 | extrapolating t1→t2 and then t2→t3 lands where t1→t3 does |
| `Geometry.ExtrapolateReverse` | script.js:57-63 | extrapolating forward and then back to t1 returns the starting point |
| `Geometry.Interpolate` | script.js:68-74 | t = t_lower gives x1; over a non-zero range t = t_upper gives x2; a flat range [x, x] always gives x |
| `Geometry.InterpolateOnLine` | script.js:68-74 | over a non-zero range the result is exactly the point on the line through (t_lower, x1) and (t_upper, x2) at t, and no other value is |
| `Geometry.InterpolateDegenerate` | script.js:69-73 | a zero-length range divides by 0.00001, i.e. the offset is multiplied by 100000 instead of dividing by zero |
| `Geometry.InterpolateExample` | script.js:65-67 | the comment's example: (0, 10, 50, 100, 75) gives 5 |
| `Geometry.InterpolateBetween` | script.js:68-74 | when t lies between the range ends, the result lies between x1 and x2 |
| `Ball.WallHit` | script.js:100-148 | the wall tests run in the order left, goal line, top, bottom: left exactly when beyond the left wall; goal line exactly when beyond the goal line but not the left wall; top exactly when beyond the top and neither side; bottom otherwise when beyond the bottom; none exactly when the point is inside the arena |
| `Ball.Served` | script.js:160-163 | a serve puts the ball at x = 50 with y in [0.125·H, 0.875·H) for a draw in [0, 1), gives it the launch velocity, and keeps the timestamp |
| `Ball.Ball.constructor` | script.js:83-87 | the ball starts at time 0 at the origin, at rest |
| `Ball.Ball.Reset` | script.js:160-168 | the fields become exactly those of `Served` of the old state |
| `Ball.Ball.Update` | script.js:90-157 | the fields become exactly `BallStep` of the old state, including the early return on a miss |
| `BallProperties.ServedInsideArena` | script.js:160-163 | a served ball is clear of all four walls |
| `BallProperties.UpdateWithoutCollision` | script.js:94-152 | with no wall condition, a moving ball goes exactly to the extrapolated point, keeps its velocity and takes time t |
| `BallProperties.UpdateLeftWall` | script.js:100-107 | left wall: x = radius, y is interpolated at that x, x-velocity becomes ≥ 0 with the same size, y-velocity and the new time as committed |
| `BallProperties.UpdateGoalLineHit` | script.js:110-122 | goal line with the crossing height in [paddle, paddle + 46] (both ends included): x = goal line − radius, y is that height, x-velocity becomes ≤ 0 with the same size |
| `BallProperties.UpdateGoalLineMiss` | script.js:110-127 | goal line with the crossing height outside the paddle: the ball is served (x = 50, y in range, launch velocity) and the timestamp is not updated |
| `BallProperties.UpdateTopWall` | script.js:130-137 | top wall, tried only when neither side applies: y = radius, x is interpolated, y-velocity becomes ≥ 0 with the same size |
| `BallProperties.UpdateBottomWall` | script.js:140-147 | bottom wall, tried last: y = height − radius, x is interpolated, y-velocity becomes ≤ 0 with the same size |
| `BallProperties.UpdateServesRestingBall` | script.js:154-156 | a ball at rest, as at program start, is served by its update whatever branch runs |
| `BallProperties.UpdateLeavesBallMoving` | script.js:150-167 | after any update the velocity is non-zero |
| `BallProperties.UpdateKeepsSpeed` | script.js:100-148 | unless the paddle is missed, an update changes only the signs of the velocity components, never their sizes |
| `BallProperties.UpdateAtSameTimeInsideArena` | script.js:94-152 | a moving ball inside the arena updated to its own timestamp is unchanged |
| `BallProperties.UpdateTwiceSameTime` | script.js:90-157 | a second update to the same time changes nothing, when the first did not miss and left the ball inside the arena |
| `BallProperties.UpdateStaysInsideArena` | script.js:98-148 | a ball inside the arena stays inside when its destination is beyond at most one wall |
| `BallProperties.CornerCrossingLeavesArena` | script.js:98-148 | a corner crossing resolves only the left wall and leaves the ball above the top wall; a second update at the same time then moves it |
| `BallProperties.MissThenSameTimeMoves` | script.js:123-127 | after a miss the timestamp is stale, so a second update to the same time moves the served ball |
| `BallProperties.LeftWallHorizontalBounce` | script.js:100-107 | a ball 0.01 short of x = radius, its edge 0.01 past the left wall, moving left at 0.69 ends, 1 ms later, on x = radius at the same height, moving right at 0.69 |
| `Paddle.Clamp` | script.js:190-194 | the result is within [0, 500 − 46]; an on-screen position is kept; one above the top becomes 0 and one below the bottom becomes 454 |
| `Paddle.ClampMonotone` | script.js:190-194 | clamping preserves order |
| `Paddle.Paddle.constructor` | script.js:176-178 | the paddle starts at time 0, centred at y = 227, at rest |
| `Paddle.Paddle.Update` | script.js:181-195 | the fields become exactly `PaddleStep` of the old state, and the paddle is on screen |
| `PaddleProperties.UpdateKeepsPaddleOnScreen` | script.js:190-194 | after any update the position is within [0, 454] |
| `PaddleProperties.UpdateSetsTimeAndVelocity` | script.js:181-188 | afterwards timestamp = t and velocity = v, or the old velocity when v is left out |
| `PaddleProperties.UpdateMovesAtOldVelocity` | script.js:184-188 | the new position does not depend on the velocity commanded by the call; it is the clamp of the move at the old velocity |
| `PaddleProperties.UpdateWithoutClamping` | script.js:184-194 | when the straight-line position is on screen it is taken exactly |
| `PaddleProperties.UpdateAtSameTime` | script.js:181-195 | an on-screen paddle updated to its own time with no new velocity is unchanged |
| `PaddleProperties.UpdateMovesWithVelocity` | script.js:184-194 | forward in time, a paddle moving down never ends higher and one moving up never ends lower |
| `Input.Step` | script.js:220-227 | the event's own arrow becomes 1 on a press and 0 on a release; the other arrow is untouched |
| `Input.ScanHeld` | script.js:219-228 | the fold `Scan` of a sequence of events from [0, 0] holds an arrow exactly when some press of it is followed by no later event of that arrow |
| `Input.StepIdempotent` | script.js:218-227 | the same event twice in a row has the effect of one |
| `Input.StepsCommute` | script.js:220-227 | events of different arrows commute |
| `Input.Velocity` | script.js:234 | the commanded velocity is 0 exactly when both or neither arrow is held, +0.38 exactly when only down is held, −0.38 exactly when only up is held |
| `Input.UpDownUpExample` | script.js:219-234 | up pressed, down pressed, up released passes through −V and 0 and ends at +V, with state [0, 1] |
| `Input.Distinct` | script.js:218 | dropping repeats leaves no two adjacent equal keys, keeps the last key, and only keeps events of the input |
| `Input.DistinctSplit` | script.js:218 | dropping repeats over a prefix and then running the operator on the rest, starting from the prefix's last key, gives the same events as dropping repeats over the whole history |
| `Input.DistinctIsDropRepeats` | script.js:218 | dropping repeats equals the operator run front to back, which passes an event on exactly when its key differs from the last key passed on; so the events are kept in order, and the first event of each run is the one kept, with its time |
| `Input.DistinctKeepsScan` | script.js:217-228 | dropping repeated keys does not change the reducer's state |
| `Input.Emitted` | script.js:220-229 | one command per event, stamped with the event's time, each velocity one of 0, +V, −V, the last one the velocity of the state after all the events |
| `Input.EmittedPrefix` | script.js:220-229 | emission is causal: the commands for the first n events are the first n commands; with the last-command clause of `Emitted`, every command carries the velocity of the state after its own prefix |
| `Input.KeyStream` | script.js:217-234 | the stream starts with velocity 0 at subscription time, then has one command per event kept by `Distinct`, stamped with that event's time and carrying the velocity of the state after the kept events up to it, and ends with the velocity of the whole history before repeats were dropped |
| `Frame.Tick` | script.js:238-246 | one frame updates the paddle (velocity kept) and then the ball against the paddle's new position |
| `Frame.OnCommand` | script.js:233-235 | a command updates the paddle to the command's time and velocity |

## Left out

- Canvas setup and `render` (script.js:24-31, 39-53) are drawing calls with no logic.
- The browser event plumbing (`fromEvent`, the key-code `filter` and `map`, `merge`, `timestamp()`) is not modelled. It is replaced by explicit sequences of `KeyEvent`s, each carrying the time at which it passes through the stream.
- The `default` branch of the reducer is not modelled: only the four arrow events reach it.
- The animation-frame scheduler and `Date.now()` are the host's. `Frame.Tick` is one frame, with `now` passed in; the endless rescheduling is not modelled.
- `Math.random`, `Math.cos` and `Math.sin` are not computed: their results are the `Serve` parameter.
- `Ball.Served`: does not state the launch speed (0.69) or the launch angle range (40° to 55°, either sign), because those come from trigonometry on random draws; only x-velocity > 0 is assumed of the serve.
- IEEE double rounding is not modelled. With `real` arithmetic the epsilon guard and the snapping are exact.
- Aliasing of the position object is not modelled. `reset` writes into `this.position` while `update` replaces it with a fresh object, so no other holder of the old object exists. The model treats positions and velocities as values.
