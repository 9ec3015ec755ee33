// The paddle: a vertical position that moves at the velocity it held
// since its last update and is then clamped to the arena
// (script.js:174-195).
module Paddle {
  import opened Config
  import opened Geometry
  import opened Optional

  /** The paddle's state: the time of the last update, the y of its top edge and its vertical velocity. */
  datatype PaddleState = PaddleState(timestamp: real, position: real, velocity: real)

  /** The paddle lies wholly on screen. */
  predicate OnScreen(s: PaddleState) {
    0.0 <= s.position <= PaddleMax
  }

  /** The nearest position at which the whole paddle is on screen. */
  function Clamp(p: real): (r: real)
    ensures 0.0 <= r <= PaddleMax
    ensures 0.0 <= p <= PaddleMax ==> r == p
    ensures p < 0.0 ==> r == 0.0
    ensures p > PaddleMax ==> r == PaddleMax
  {
    if p < 0.0 then 0.0
    else if p + PaddleHeight > ScreenHeight then ScreenHeight - PaddleHeight
    else p
  }

  /** The paddle can only be nearer to the top when it was driven nearer to the top. */
  lemma ClampMonotone(p: real, q: real)
    requires p <= q
    ensures Clamp(p) <= Clamp(q)
  {
  }

  /**
   * The state after an update to time t. The distance moved uses the
   * velocity held before the call; the new velocity `v`, when given, only
   * takes effect from the next update. The horizontal part of the
   * extrapolation is unused: the source passes `null` for the x-coordinate
   * and x-velocity, which JavaScript arithmetic turns into 0, hence `0.0`.
   */
  function PaddleStep(s: PaddleState, t: real, v: Option<real>): PaddleState {
    var moved := ExtrapolatePosition(s.timestamp, t, 0.0, s.position, 0.0, s.velocity).y;
    PaddleState(t, Clamp(moved), if v.Some? then v.value else s.velocity)
  }

  /** The paddle object; `update` changes its fields in place. */
  class Paddle {
    var timestamp: real
    var position: real
    var velocity: real

    function State(): PaddleState
      reads this
    {
      PaddleState(timestamp, position, velocity)
    }

    /** The paddle at program start: vertically centred, at rest, at time 0. */
    constructor ()
      ensures State() == PaddleState(0.0, ScreenHeight / 2.0 - PaddleHeight / 2.0, 0.0)
      ensures OnScreen(State())
    {
      timestamp := 0.0;
      position := ScreenHeight / 2.0 - PaddleHeight / 2.0;
      velocity := 0.0;
    }

    /** Advance the paddle to time t and, when `v` is given, command velocity `v` from now on. */
    method Update(t: real, v: Option<real>)
      modifies this
      ensures State() == PaddleStep(old(State()), t, v)
      ensures OnScreen(State())
    {
      position := ExtrapolatePosition(timestamp, t, 0.0, position, 0.0, velocity).y;
      timestamp := t;
      if v.Some? {
        velocity := v.value;
      }

      if position < 0.0 {
        position := 0.0;
      } else if position + PaddleHeight > ScreenHeight {
        position := ScreenHeight - PaddleHeight;
      }
    }
  }
}
