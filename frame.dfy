// One frame of the game loop and the handler of the velocity commands
// (script.js:232-250). The scheduler and the clock are the host's: `now`
// is passed in, and the loop is one call per frame.
module Frame {
  import opened Ball
  import opened Paddle
  import opened Input
  import opened Optional

  /**
   * One frame: the paddle is advanced first, keeping its velocity, and the
   * ball is then advanced against the paddle's just-updated position.
   */
  method Tick(paddle: Paddle, ball: Ball, now: real, serve: Serve)
    modifies paddle, ball
    ensures paddle.State() == PaddleStep(old(paddle.State()), now, None)
    ensures ball.State() == BallStep(old(ball.State()), now, paddle.position, serve)
    ensures OnScreen(paddle.State())
  {
    paddle.Update(now, None);
    ball.Update(now, paddle.position, serve);
  }

  /** A command from the key stream advances the paddle to the command's time and sets its velocity. */
  method OnCommand(paddle: Paddle, command: Command)
    modifies paddle
    ensures paddle.State() == PaddleStep(old(paddle.State()), command.time, Some(command.velocity))
    ensures paddle.timestamp == command.time && paddle.velocity == command.velocity
  {
    paddle.Update(command.time, Some(command.velocity));
  }
}
