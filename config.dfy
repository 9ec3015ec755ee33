// Fixed configuration of the arena, the paddle and the ball
// (script.js:5-16). Lengths are in pixels, velocities in pixels per
// millisecond. All values are `real`, so the arithmetic below is exact
// where the browser would round to IEEE doubles.
module Config {
  const ScreenWidth: real := 800.0
  const ScreenHeight: real := 500.0

  const PaddleWidth: real := 6.0
  const PaddleHeight: real := 46.0
  const PaddleOffset: real := 5.0
  const PaddleVelocity: real := 0.38

  const BallRadius: real := 3.5
  const BallVelocity: real := 0.69

  /** x-coordinate of the paddle's front face; the ball must meet the paddle here. */
  const GoalLine: real := ScreenWidth - PaddleOffset - PaddleWidth

  /** Denominator used by interpolation in place of a zero-length range. */
  const Epsilon: real := 0.00001

  /** x-coordinate a served ball starts from. */
  const ServeX: real := 50.0

  /** Highest position of the paddle's top edge that keeps the paddle on screen. */
  const PaddleMax: real := ScreenHeight - PaddleHeight
}
