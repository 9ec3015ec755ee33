// What one paddle update guarantees (script.js:181-195).
module PaddleProperties {
  import opened Config
  import opened Geometry
  import opened Paddle
  import opened Optional

  /** After any update, from any state, to any time, the paddle is wholly on screen. */
  lemma UpdateKeepsPaddleOnScreen(s: PaddleState, t: real, v: Option<real>)
    ensures OnScreen(PaddleStep(s, t, v))
  {
  }

  /** The update takes time t, and the velocity given, or keeps the old one when none is given. */
  lemma UpdateSetsTimeAndVelocity(s: PaddleState, t: real, v: Option<real>)
    ensures var r := PaddleStep(s, t, v);
            r.timestamp == t &&
            r.velocity == (match v case Some(w) => w case None => s.velocity)
  {
  }

  /**
   * The distance travelled uses the velocity held before the call: the
   * new position does not depend on the velocity commanded by it.
   */
  lemma UpdateMovesAtOldVelocity(s: PaddleState, t: real, a: real, b: real)
    ensures PaddleStep(s, t, Some(a)).position == PaddleStep(s, t, Some(b)).position
    ensures PaddleStep(s, t, Some(a)).position == PaddleStep(s, t, None).position
    ensures PaddleStep(s, t, None).position == Clamp(s.position + s.velocity * (t - s.timestamp))
  {
    assert ExtrapolatePosition(s.timestamp, t, 0.0, s.position, 0.0, s.velocity).y
        == s.position + s.velocity * (t - s.timestamp);
  }

  /** When the straight-line position stays on screen it is taken exactly. */
  lemma UpdateWithoutClamping(s: PaddleState, t: real, v: Option<real>)
    requires 0.0 <= s.position + s.velocity * (t - s.timestamp) <= PaddleMax
    ensures PaddleStep(s, t, v).position == s.position + s.velocity * (t - s.timestamp)
  {
    assert ExtrapolatePosition(s.timestamp, t, 0.0, s.position, 0.0, s.velocity).y
        == s.position + s.velocity * (t - s.timestamp);
  }

  /** An on-screen paddle updated to the time it already has, with no new velocity, is unchanged. */
  lemma UpdateAtSameTime(s: PaddleState)
    requires OnScreen(s)
    ensures PaddleStep(s, s.timestamp, None) == s
  {
  }

  /** Scaling by a non-negative duration keeps the sign of a velocity. */
  lemma ScaledSign(a: real, dt: real)
    requires dt >= 0.0
    ensures a >= 0.0 ==> a * dt >= 0.0
    ensures a <= 0.0 ==> a * dt <= 0.0
  {
  }

  /**
   * Going forward in time, an on-screen paddle moving down never ends
   * higher, and one moving up never ends lower.
   */
  lemma UpdateMovesWithVelocity(s: PaddleState, t: real, v: Option<real>)
    requires OnScreen(s) && s.timestamp <= t
    ensures s.velocity >= 0.0 ==> PaddleStep(s, t, v).position >= s.position
    ensures s.velocity <= 0.0 ==> PaddleStep(s, t, v).position <= s.position
  {
    var dt := t - s.timestamp;
    var moved := s.position + s.velocity * dt;
    assert ExtrapolatePosition(s.timestamp, t, 0.0, s.position, 0.0, s.velocity).y == moved;
    ScaledSign(s.velocity, dt);
    if s.velocity >= 0.0 {
      ClampMonotone(s.position, moved);
    }
    if s.velocity <= 0.0 {
      ClampMonotone(moved, s.position);
    }
  }
}
