// What one ball update guarantees: the branch taken for each boundary,
// the serve, the speed it keeps, when the ball stays inside the arena and
// when a repeated update at the same time changes nothing
// (script.js:90-168).
module BallProperties {
  import opened Config
  import opened Geometry
  import opened Ball

  /** A served ball starts clear of every boundary. */
  lemma ServedInsideArena(s: BallState, serve: Serve)
    requires ValidServe(serve)
    ensures InsideArena(Served(s, serve).position)
  {
  }

  /** Committing a point inside the arena leaves the ball inside, whether or not it is then served. */
  lemma CommitInsideArena(p: Vector2, v: Vector2, t: real, serve: Serve)
    requires ValidServe(serve) && InsideArena(p)
    ensures InsideArena(Commit(p, v, t, serve).position)
  {
    if v == Zero {
      ServedInsideArena(BallState(t, p, v), serve);
    }
  }

  /** With no boundary crossed, a moving ball goes exactly to the extrapolated point, keeps its velocity and takes time t. */
  lemma UpdateWithoutCollision(s: BallState, t: real, paddle: real, serve: Serve)
    requires InsideArena(Candidate(s, t))
    requires s.velocity != Zero
    ensures BallStep(s, t, paddle, serve) ==
            BallState(t, ExtrapolatePosition(s.timestamp, t, s.position.x, s.position.y, s.velocity.x, s.velocity.y), s.velocity)
  {
  }

  /** Left wall: the ball is snapped to x = radius at the crossing height and then moves rightwards or not at all horizontally. */
  lemma UpdateLeftWall(s: BallState, t: real, paddle: real, serve: Serve)
    requires Candidate(s, t).x - BallRadius < 0.0
    requires s.velocity != Zero
    ensures var r := BallStep(s, t, paddle, serve);
            var c := Candidate(s, t);
            r.timestamp == t &&
            r.position == Vector2(BallRadius, Interpolate(s.position.y, c.y, s.position.x, c.x, BallRadius)) &&
            r.velocity.x >= 0.0 && (r.velocity.x == s.velocity.x || r.velocity.x == -s.velocity.x) &&
            r.velocity.y == s.velocity.y
  {
  }

  /**
   * Goal line, paddle hit: the crossing height lies within the paddle's
   * span (both ends included), so the ball is snapped to the goal line
   * and then moves leftwards or not at all horizontally.
   */
  lemma UpdateGoalLineHit(s: BallState, t: real, paddle: real, serve: Serve)
    requires var c := Candidate(s, t);
             c.x - BallRadius >= 0.0 && c.x + BallRadius > GoalLine
    requires var y := CrossingY(s, Candidate(s, t), GoalLine - BallRadius);
             paddle <= y <= paddle + PaddleHeight
    requires s.velocity != Zero
    ensures var r := BallStep(s, t, paddle, serve);
            var c := Candidate(s, t);
            r.timestamp == t &&
            r.position == Vector2(GoalLine - BallRadius, Interpolate(s.position.y, c.y, s.position.x, c.x, GoalLine - BallRadius)) &&
            r.velocity.x <= 0.0 && (r.velocity.x == s.velocity.x || r.velocity.x == -s.velocity.x) &&
            r.velocity.y == s.velocity.y
  {
  }

  /**
   * Goal line, paddle missed: the ball is served and the update ends
   * there, so the timestamp keeps its old value.
   */
  lemma UpdateGoalLineMiss(s: BallState, t: real, paddle: real, serve: Serve)
    requires var c := Candidate(s, t);
             c.x - BallRadius >= 0.0 && c.x + BallRadius > GoalLine
    requires var y := CrossingY(s, Candidate(s, t), GoalLine - BallRadius);
             y < paddle || y > paddle + PaddleHeight
    requires 0.0 <= serve.draw < 1.0
    ensures var r := BallStep(s, t, paddle, serve);
            r.timestamp == s.timestamp &&
            r.position.x == ServeX &&
            ScreenHeight * 0.125 <= r.position.y < ScreenHeight * 0.875 &&
            r.velocity == serve.velocity
  {
  }

  /** Top wall (tried only when neither side wall applies): snapped to y = radius, then moving down or not at all vertically. */
  lemma UpdateTopWall(s: BallState, t: real, paddle: real, serve: Serve)
    requires var c := Candidate(s, t);
             c.x - BallRadius >= 0.0 && c.x + BallRadius <= GoalLine && c.y - BallRadius < 0.0
    requires s.velocity != Zero
    ensures var r := BallStep(s, t, paddle, serve);
            var c := Candidate(s, t);
            r.timestamp == t &&
            r.position == Vector2(Interpolate(s.position.x, c.x, s.position.y, c.y, BallRadius), BallRadius) &&
            r.velocity.y >= 0.0 && (r.velocity.y == s.velocity.y || r.velocity.y == -s.velocity.y) &&
            r.velocity.x == s.velocity.x
  {
  }

  /** Bottom wall (tried last): snapped to y = height - radius, then moving up or not at all vertically. */
  lemma UpdateBottomWall(s: BallState, t: real, paddle: real, serve: Serve)
    requires var c := Candidate(s, t);
             c.x - BallRadius >= 0.0 && c.x + BallRadius <= GoalLine &&
             c.y - BallRadius >= 0.0 && c.y + BallRadius > ScreenHeight
    requires s.velocity != Zero
    ensures var r := BallStep(s, t, paddle, serve);
            var c := Candidate(s, t);
            r.timestamp == t &&
            r.position == Vector2(Interpolate(s.position.x, c.x, s.position.y, c.y, ScreenHeight - BallRadius), ScreenHeight - BallRadius) &&
            r.velocity.y <= 0.0 && (r.velocity.y == s.velocity.y || r.velocity.y == -s.velocity.y) &&
            r.velocity.x == s.velocity.x
  {
  }

  /** A ball at rest (as at program start) is served by its update, whichever branch runs first. */
  lemma UpdateServesRestingBall(s: BallState, t: real, paddle: real, serve: Serve)
    requires s.velocity == Zero
    requires ValidServe(serve)
    ensures var r := BallStep(s, t, paddle, serve);
            r.position.x == ServeX &&
            ScreenHeight * 0.125 <= r.position.y < ScreenHeight * 0.875 &&
            r.velocity == serve.velocity
  {
  }

  /** After any update the ball is moving. */
  lemma UpdateLeavesBallMoving(s: BallState, t: real, paddle: real, serve: Serve)
    requires ValidServe(serve)
    ensures BallStep(s, t, paddle, serve).velocity != Zero
  {
  }

  /** Unless the ball is served, an update only changes the signs of the velocity's components, never their sizes. */
  lemma UpdateKeepsSpeed(s: BallState, t: real, paddle: real, serve: Serve)
    requires s.velocity != Zero
    requires !Misses(s, t, paddle)
    ensures var r := BallStep(s, t, paddle, serve);
            (r.velocity.x == s.velocity.x || r.velocity.x == -s.velocity.x) &&
            (r.velocity.y == s.velocity.y || r.velocity.y == -s.velocity.y)
  {
  }

  /** A moving ball inside the arena, updated to the time it already has, is left exactly as it was. */
  lemma UpdateAtSameTimeInsideArena(s: BallState, paddle: real, serve: Serve)
    requires InsideArena(s.position)
    requires s.velocity != Zero
    ensures BallStep(s, s.timestamp, paddle, serve) == s
  {
    assert Candidate(s, s.timestamp) == s.position;
  }

  /**
   * Updating twice to the same time changes nothing the second time,
   * provided the first update did not serve after a miss and left the
   * ball inside the arena.
   */
  lemma UpdateTwiceSameTime(s: BallState, t: real, paddle: real, serve: Serve, serve2: Serve)
    requires ValidServe(serve)
    requires !Misses(s, t, paddle)
    requires InsideArena(BallStep(s, t, paddle, serve).position)
    ensures var r := BallStep(s, t, paddle, serve);
            BallStep(r, t, paddle, serve2) == r
  {
    var r := BallStep(s, t, paddle, serve);
    assert r.timestamp == t;
    UpdateLeavesBallMoving(s, t, paddle, serve);
    UpdateAtSameTimeInsideArena(r, paddle, serve2);
  }

  /**
   * The arena invariant: a ball inside the arena stays inside after an
   * update whose straight-line destination lies beyond at most one
   * boundary, because the crossing point lies between the old position
   * and the destination.
   */
  lemma UpdateStaysInsideArena(s: BallState, t: real, paddle: real, serve: Serve)
    requires ValidServe(serve)
    requires InsideArena(s.position)
    requires !(OutsideX(Candidate(s, t)) && OutsideY(Candidate(s, t)))
    ensures InsideArena(BallStep(s, t, paddle, serve).position)
  {
    var c := Candidate(s, t);
    var v := s.velocity;
    var p := s.position;
    match WallHit(c)
    case LeftWall =>
      InterpolateBetween(p.y, c.y, p.x, c.x, BallRadius);
      CommitInsideArena(Vector2(BallRadius, CrossingY(s, c, BallRadius)),
                        if v.x < 0.0 then v.(x := -v.x) else v, t, serve);
    case GoalWall =>
      var y := CrossingY(s, c, GoalLine - BallRadius);
      if y >= paddle && y <= paddle + PaddleHeight {
        InterpolateBetween(p.y, c.y, p.x, c.x, GoalLine - BallRadius);
        CommitInsideArena(Vector2(GoalLine - BallRadius, y),
                          if v.x > 0.0 then v.(x := -v.x) else v, t, serve);
      } else {
        ServedInsideArena(s, serve);
      }
    case TopWall =>
      InterpolateBetween(p.x, c.x, p.y, c.y, BallRadius);
      CommitInsideArena(Vector2(CrossingX(s, c, BallRadius), BallRadius),
                        if v.y < 0.0 then v.(y := -v.y) else v, t, serve);
    case BottomWall =>
      InterpolateBetween(p.x, c.x, p.y, c.y, ScreenHeight - BallRadius);
      CommitInsideArena(Vector2(CrossingX(s, c, ScreenHeight - BallRadius), ScreenHeight - BallRadius),
                        if v.y > 0.0 then v.(y := -v.y) else v, t, serve);
    case NoWall =>
      CommitInsideArena(c, v, t, serve);
  }

  /**
   * Only one boundary is resolved per update: a ball heading into the
   * top-left corner is snapped to the left wall at a height above the top
   * wall, and a second update to the same time then moves it again.
   */
  lemma CornerCrossingLeavesArena(paddle: real, serve: Serve)
    ensures var s := BallState(0.0, Vector2(10.0, 10.0), Vector2(-0.5, -0.6));
            var r := BallStep(s, 20.0, paddle, serve);
            r == BallState(20.0, Vector2(3.5, 2.2), Vector2(0.5, -0.6)) &&
            !InsideArena(r.position) &&
            BallStep(r, 20.0, paddle, serve) == BallState(20.0, Vector2(3.5, 3.5), Vector2(0.5, 0.6))
  {
    var s := BallState(0.0, Vector2(10.0, 10.0), Vector2(-0.5, -0.6));
    var c := Candidate(s, 20.0);
    assert c == Vector2(0.0, -2.0);
    assert Interpolate(10.0, -2.0, 10.0, 0.0, 3.5) == 2.2;
    var r := BallStep(s, 20.0, paddle, serve);
    assert r == BallState(20.0, Vector2(3.5, 2.2), Vector2(0.5, -0.6));
    assert Candidate(r, 20.0) == Vector2(3.5, 2.2);
    assert Interpolate(3.5, 3.5, 2.2, 2.2, 3.5) == 3.5;
  }

  /**
   * After a miss the timestamp is stale, so a second update to the same
   * time moves the freshly served ball.
   */
  lemma MissThenSameTimeMoves()
    ensures var s := BallState(0.0, Vector2(780.0, 100.0), Vector2(0.5, 0.0));
            var serve := Serve(0.5, Vector2(0.5, 0.5));
            var r := BallStep(s, 20.0, 300.0, serve);
            r == BallState(0.0, Vector2(50.0, 250.0), Vector2(0.5, 0.5)) &&
            BallStep(r, 20.0, 300.0, serve) == BallState(20.0, Vector2(60.0, 260.0), Vector2(0.5, 0.5))
  {
    var s := BallState(0.0, Vector2(780.0, 100.0), Vector2(0.5, 0.0));
    assert Candidate(s, 20.0) == Vector2(790.0, 100.0);
    assert Interpolate(100.0, 100.0, 780.0, 790.0, GoalLine - BallRadius) == 100.0;
  }

  /**
   * The boundary scenario of a ball 0.01 short of x = radius (its edge
   * 0.01 past the left wall) moving straight left at ball speed: after one millisecond it sits on x =
   * radius at the same height, moving right at the same speed.
   */
  lemma LeftWallHorizontalBounce(paddle: real, serve: Serve)
    ensures var s := BallState(0.0, Vector2(BallRadius - 0.01, 10.0), Vector2(-BallVelocity, 0.0));
            BallStep(s, 1.0, paddle, serve) == BallState(1.0, Vector2(BallRadius, 10.0), Vector2(BallVelocity, 0.0))
  {
  }
}
