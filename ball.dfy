// The ball: its state, the serve that (re)launches it, and the per-frame
// update that extrapolates it and resolves at most one wall crossing
// (script.js:83-169).
module Ball {
  import opened Config
  import opened Geometry

  /** The ball's state: the time of the last update and the position and velocity at that time. */
  datatype BallState = BallState(timestamp: real, position: Vector2, velocity: Vector2)

  /**
   * What the host's random generator and trigonometry supply to one serve:
   * the uniform draw that places the ball vertically, and the launch
   * velocity computed from a random angle.
   */
  datatype Serve = Serve(draw: real, velocity: Vector2)

  /**
   * A serve the host can produce: the draw lies in [0, 1), and the launch
   * angle lies within 55 degrees of the positive x-axis, so the cosine and
   * with it the x-velocity are positive.
   */
  predicate ValidServe(serve: Serve) {
    0.0 <= serve.draw < 1.0 && serve.velocity.x > 0.0
  }

  /** The four boundaries, in the order in which they are tried. */
  datatype Wall = LeftWall | GoalWall | TopWall | BottomWall | NoWall

  /** The point is clear of all four boundaries: no collision branch applies to it. */
  predicate InsideArena(p: Vector2) {
    BallRadius <= p.x && p.x + BallRadius <= GoalLine &&
    BallRadius <= p.y && p.y + BallRadius <= ScreenHeight
  }

  /** The point is beyond the left wall or the goal line. */
  predicate OutsideX(p: Vector2) {
    p.x - BallRadius < 0.0 || p.x + BallRadius > GoalLine
  }

  /** The point is beyond the top or the bottom wall. */
  predicate OutsideY(p: Vector2) {
    p.y - BallRadius < 0.0 || p.y + BallRadius > ScreenHeight
  }

  /** The first boundary, in the order left, goal line, top, bottom, that the point is beyond. */
  function WallHit(p: Vector2): (w: Wall)
    ensures w == NoWall <==> InsideArena(p)
    ensures (w == LeftWall || w == GoalWall) <==> OutsideX(p)
    ensures (w == TopWall || w == BottomWall) ==> OutsideY(p) && !OutsideX(p)
    ensures w == LeftWall <==> p.x - BallRadius < 0.0
    ensures w == TopWall <==> !OutsideX(p) && p.y - BallRadius < 0.0
  {
    if p.x - BallRadius < 0.0 then LeftWall
    else if p.x + BallRadius > GoalLine then GoalWall
    else if p.y - BallRadius < 0.0 then TopWall
    else if p.y + BallRadius > ScreenHeight then BottomWall
    else NoWall
  }

  /** The straight-line position at time t, before any collision is resolved. */
  function Candidate(s: BallState, t: real): Vector2 {
    ExtrapolatePosition(s.timestamp, t, s.position.x, s.position.y, s.velocity.x, s.velocity.y)
  }

  /**
   * The state after a serve: the ball is put back at x = 50, at a height in
   * the middle three quarters of the arena, with the launch velocity. The
   * timestamp is not touched.
   */
  function Served(s: BallState, serve: Serve): (r: BallState)
    ensures r.position.x == ServeX && r.velocity == serve.velocity && r.timestamp == s.timestamp
    ensures 0.0 <= serve.draw < 1.0 ==> ScreenHeight * 0.125 <= r.position.y < ScreenHeight * 0.875
  {
    BallState(s.timestamp, Vector2(ServeX, serve.draw * ScreenHeight * 0.75 + ScreenHeight * 0.125), serve.velocity)
  }

  /** Commit a resolved position at time t; a ball that is still at rest is then served. */
  function Commit(position: Vector2, velocity: Vector2, t: real, serve: Serve): BallState {
    var s := BallState(t, position, velocity);
    if velocity == Zero then Served(s, serve) else s
  }

  /** y of the crossing point at wall abscissa x on the segment from the old position to the candidate. */
  function CrossingY(s: BallState, c: Vector2, x: real): real {
    Interpolate(s.position.y, c.y, s.position.x, c.x, x)
  }

  /** x of the crossing point at wall ordinate y on the segment from the old position to the candidate. */
  function CrossingX(s: BallState, c: Vector2, y: real): real {
    Interpolate(s.position.x, c.x, s.position.y, c.y, y)
  }

  /** The ball misses the paddle: it is beyond the goal line and the crossing is outside the paddle's span. */
  predicate Misses(s: BallState, t: real, paddle: real) {
    var c := Candidate(s, t);
    var y := CrossingY(s, c, GoalLine - BallRadius);
    WallHit(c) == GoalWall && !(y >= paddle && y <= paddle + PaddleHeight)
  }

  /**
   * The state after an update to time t, with the paddle's top edge at
   * `paddle` and `serve` used should the ball be served.
   */
  function BallStep(s: BallState, t: real, paddle: real, serve: Serve): BallState {
    var c := Candidate(s, t);
    var v := s.velocity;
    match WallHit(c)
    case LeftWall =>
      Commit(Vector2(BallRadius, CrossingY(s, c, BallRadius)),
             if v.x < 0.0 then v.(x := -v.x) else v, t, serve)
    case GoalWall =>
      var y := CrossingY(s, c, GoalLine - BallRadius);
      if y >= paddle && y <= paddle + PaddleHeight then
        Commit(Vector2(GoalLine - BallRadius, y),
               if v.x > 0.0 then v.(x := -v.x) else v, t, serve)
      else
        Served(s, serve)
    case TopWall =>
      Commit(Vector2(CrossingX(s, c, BallRadius), BallRadius),
             if v.y < 0.0 then v.(y := -v.y) else v, t, serve)
    case BottomWall =>
      Commit(Vector2(CrossingX(s, c, ScreenHeight - BallRadius), ScreenHeight - BallRadius),
             if v.y > 0.0 then v.(y := -v.y) else v, t, serve)
    case NoWall =>
      Commit(c, v, t, serve)
  }

  /** The ball object; `update` and `reset` change its fields in place. */
  class Ball {
    var timestamp: real
    var position: Vector2
    var velocity: Vector2

    function State(): BallState
      reads this
    {
      BallState(timestamp, position, velocity)
    }

    /** The ball at program start: at the origin, at rest, at time 0. */
    constructor ()
      ensures State() == BallState(0.0, Zero, Zero)
    {
      timestamp := 0.0;
      position := Zero;
      velocity := Zero;
    }

    /** Put the ball back at x = 50 and launch it; the timestamp is left alone. */
    method Reset(serve: Serve)
      modifies this
      ensures State() == Served(old(State()), serve)
    {
      position := position.(x := ServeX);
      position := position.(y := serve.draw * ScreenHeight * 0.75 + ScreenHeight * 0.125);
      velocity := velocity.(x := serve.velocity.x);
      velocity := velocity.(y := serve.velocity.y);
    }

    /** Advance the ball to time t against a paddle whose top edge is at `paddle`. */
    method Update(t: real, paddle: real, serve: Serve)
      modifies this
      ensures State() == BallStep(old(State()), t, paddle, serve)
    {
      var newPosition := ExtrapolatePosition(timestamp, t, position.x, position.y, velocity.x, velocity.y);

      if newPosition.x - BallRadius < 0.0 {
        var newX := BallRadius;
        newPosition := newPosition.(y := Interpolate(position.y, newPosition.y, position.x, newPosition.x, newX));
        newPosition := newPosition.(x := newX);
        if velocity.x < 0.0 {
          velocity := velocity.(x := velocity.x * -1.0);
        }
      } else if newPosition.x + BallRadius > GoalLine {
        var newX := GoalLine - BallRadius;
        var newY := Interpolate(position.y, newPosition.y, position.x, newPosition.x, newX);
        if newY >= paddle && newY <= paddle + PaddleHeight {
          newPosition := Vector2(newX, newY);
          if velocity.x > 0.0 {
            velocity := velocity.(x := velocity.x * -1.0);
          }
        } else {
          Reset(serve);
          return;
        }
      } else if newPosition.y - BallRadius < 0.0 {
        var newY := BallRadius;
        newPosition := newPosition.(x := Interpolate(position.x, newPosition.x, position.y, newPosition.y, newY));
        newPosition := newPosition.(y := newY);
        if velocity.y < 0.0 {
          velocity := velocity.(y := velocity.y * -1.0);
        }
      } else if newPosition.y + BallRadius > ScreenHeight {
        var newY := ScreenHeight - BallRadius;
        newPosition := newPosition.(x := Interpolate(position.x, newPosition.x, position.y, newPosition.y, newY));
        newPosition := newPosition.(y := newY);
        if velocity.y > 0.0 {
          velocity := velocity.(y := velocity.y * -1.0);
        }
      }

      position := newPosition;
      timestamp := t;

      if velocity.x == 0.0 && velocity.y == 0.0 {
        Reset(serve);
      }
    }
  }
}
