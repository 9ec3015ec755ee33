// The two one-dimensional helpers of the simulation: straight-line
// extrapolation in time and linear interpolation between parallel ranges
// (script.js:55-74).
module Geometry {
  import opened Config

  /** A point or a velocity in the plane. */
  datatype Vector2 = Vector2(x: real, y: real)

  const Zero: Vector2 := Vector2(0.0, 0.0)

  /** Position at time t2 of a body that was at (x, y) at time t1 and moves at constant (vx, vy). */
  function ExtrapolatePosition(t1: real, t2: real, x: real, y: real, vx: real, vy: real): (r: Vector2)
    ensures t2 == t1 ==> r == Vector2(x, y)
    ensures vx == 0.0 ==> r.x == x
    ensures vy == 0.0 ==> r.y == y
  {
    var dt := t2 - t1;
    Vector2(x + vx * dt, y + vy * dt)
  }

  /** Extrapolating in two legs, t1 to t2 and then t2 to t3, lands where one leg t1 to t3 does. */
  lemma ExtrapolateCompose(t1: real, t2: real, t3: real, x: real, y: real, vx: real, vy: real)
    ensures var m := ExtrapolatePosition(t1, t2, x, y, vx, vy);
            ExtrapolatePosition(t2, t3, m.x, m.y, vx, vy) == ExtrapolatePosition(t1, t3, x, y, vx, vy)
  {
    var m := ExtrapolatePosition(t1, t2, x, y, vx, vy);
    assert m.x + vx * (t3 - t2) == x + vx * (t3 - t1) by {
      assert vx * (t2 - t1) + vx * (t3 - t2) == vx * (t3 - t1);
    }
    assert m.y + vy * (t3 - t2) == y + vy * (t3 - t1) by {
      assert vy * (t2 - t1) + vy * (t3 - t2) == vy * (t3 - t1);
    }
  }

  /** Extrapolating forward and then back to the starting time returns the starting point. */
  lemma ExtrapolateReverse(t1: real, t2: real, x: real, y: real, vx: real, vy: real)
    ensures var m := ExtrapolatePosition(t1, t2, x, y, vx, vy);
            ExtrapolatePosition(t2, t1, m.x, m.y, vx, vy) == Vector2(x, y)
  {
    ExtrapolateCompose(t1, t2, t1, x, y, vx, vy);
  }

  /**
   * The value that sits in [x1, x2] as t sits in [tLower, tUpper]. A
   * zero-length range is replaced by Epsilon rather than divided by.
   */
  function Interpolate(x1: real, x2: real, tLower: real, tUpper: real, t: real): (r: real)
    ensures tUpper != tLower && t == tUpper ==> r == x2
    ensures t == tLower ==> r == x1
    ensures x1 == x2 ==> r == x1
  {
    var range := if tUpper - tLower == 0.0 then Epsilon else tUpper - tLower;
    var offset := (x2 - x1) * (t - tLower);
    assert x1 == x2 || t == tLower ==> offset == 0.0;
    offset / range + x1
  }

  /**
   * Over a non-degenerate range the result is exactly the point on the line
   * through (tLower, x1) and (tUpper, x2) at abscissa t, and no other value.
   */
  lemma InterpolateOnLine(x1: real, x2: real, tLower: real, tUpper: real, t: real, r: real)
    requires tUpper != tLower
    ensures r == Interpolate(x1, x2, tLower, tUpper, t) <==> (r - x1) * (tUpper - tLower) == (x2 - x1) * (t - tLower)
  {
    var d := tUpper - tLower;
    var a := (x2 - x1) * (t - tLower);
    assert Interpolate(x1, x2, tLower, tUpper, t) == a / d + x1;
    QuotientUnique(a, d, r - x1);
  }

  /** Over the reals, q is the quotient a / d exactly when q times d is a. */
  lemma QuotientUnique(a: real, d: real, q: real)
    requires d != 0.0
    ensures q * d == a <==> q == a / d
  {
    if q * d == a {
      assert (q - a / d) * d == 0.0;
    }
  }

  /** The degenerate range divides by Epsilon, that is, multiplies the offset by 100000. */
  lemma InterpolateDegenerate(x1: real, x2: real, tLower: real, t: real)
    ensures Interpolate(x1, x2, tLower, tLower, t) == x1 + (x2 - x1) * (t - tLower) * 100000.0
  {
  }

  /** The worked example of the helper's own comment: 75 is halfway through [50, 100], so 5 is returned. */
  lemma InterpolateExample()
    ensures Interpolate(0.0, 10.0, 50.0, 100.0, 75.0) == 5.0
  {
  }

  /** A quotient of two numbers of the same sign whose numerator is no larger in size lies in [0, 1]. */
  lemma FractionInUnit(a: real, d: real)
    requires 0.0 <= a <= d || d <= a <= 0.0
    requires d != 0.0
    ensures 0.0 <= a / d <= 1.0
  {
    var f := a / d;
    assert f * d == a;
    if d < 0.0 && f > 1.0 {
      assert (f - 1.0) * d < 0.0;
    }
  }

  /** Scaling by a fraction in [0, 1] keeps a number between zero and itself. */
  lemma ScaleByFraction(w: real, f: real)
    requires 0.0 <= f <= 1.0
    ensures 0.0 <= w ==> 0.0 <= w * f <= w
    ensures w <= 0.0 ==> w <= w * f <= 0.0
  {
    assert w - w * f == w * (1.0 - f);
  }

  /** When t lies between the range ends, the result lies between x1 and x2. */
  lemma InterpolateBetween(x1: real, x2: real, tLower: real, tUpper: real, t: real)
    requires tUpper != tLower
    requires tLower <= t <= tUpper || tUpper <= t <= tLower
    ensures var r := Interpolate(x1, x2, tLower, tUpper, t);
            (x1 <= r <= x2) || (x2 <= r <= x1)
  {
    var f := (t - tLower) / (tUpper - tLower);
    FractionInUnit(t - tLower, tUpper - tLower);
    assert Interpolate(x1, x2, tLower, tUpper, t) == (x2 - x1) * f + x1;
    ScaleByFraction(x2 - x1, f);
    var r := Interpolate(x1, x2, tLower, tUpper, t);
    assert (x1 <= r <= x2) || (x2 <= r <= x1);
  }
}
