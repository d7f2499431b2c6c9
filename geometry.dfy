/** Plane points, cubic Bézier segments and the closest-parameter solver of the pen tool.
    Coordinates are exact reals; distances are kept squared, so no square root is needed. */
module Geometry {
  import opened Wrappers

  datatype Point = Point(x: real, y: real)

  function Add(a: Point, b: Point): Point { Point(a.x + b.x, a.y + b.y) }

  function Sub(a: Point, b: Point): Point { Point(a.x - b.x, a.y - b.y) }

  function Scale(k: real, a: Point): Point { Point(k * a.x, k * a.y) }

  function Dot(a: Point, b: Point): real { a.x * b.x + a.y * b.y }

  /** (1-t)*a + t*b, the interpolation the split and the neighbour rule use. */
  function Lerp(a: Point, b: Point, t: real): (r: Point)
    ensures t == 0.0 ==> r == a
    ensures t == 1.0 ==> r == b
  {
    Point(Lerp1(a.x, b.x, t), Lerp1(a.y, b.y, t))
  }

  function Lerp1(a: real, b: real, t: real): real { (1.0 - t) * a + t * b }

  /** Three times the offset of an interpolated point from its start is t times three times
      the whole offset. */
  lemma LerpOffset(a: Point, b: Point, t: real)
    ensures Scale(3.0, Sub(Lerp(a, b, t), a)) == Scale(t, Scale(3.0, Sub(b, a)))
  {
    assert 3.0 * (Lerp1(a.x, b.x, t) - a.x) == t * (3.0 * (b.x - a.x));
    assert 3.0 * (Lerp1(a.y, b.y, t) - a.y) == t * (3.0 * (b.y - a.y));
  }

  /** The square of `distance` (pen.py:159-160). */
  function Dist2(a: Point, b: Point): (d: real)
    ensures d >= 0.0
  {
    var dx, dy := a.x - b.x, a.y - b.y;
    assert dx * dx >= 0.0 && dy * dy >= 0.0;
    dx * dx + dy * dy
  }

  /** `sqrt(d2) < radius` for a squared distance d2 >= 0, without the square root: it holds
      exactly when the radius is positive and d2 is below its square. */
  predicate Below(d2: real, radius: real)
  {
    0.0 < radius && d2 < radius * radius
  }

  /** `distance(p, q) < radius` (pen.py:148, 150, 154). */
  predicate Within(p: Point, q: Point, radius: real)
  {
    Below(Dist2(p, q), radius)
  }

  /** Comparing squares decides `distance < radius`: for a distance d >= 0, the squared form
      holds exactly when d < radius. */
  lemma BelowIsDistanceBelow(d: real, radius: real)
    requires d >= 0.0
    ensures Below(d * d, radius) <==> d < radius
  {
    var dd, dr, rr := d * d, d * radius, radius * radius;
    if d < radius {
      assert dd <= dr;
      assert dr < rr;
    } else if 0.0 < radius {
      assert dd >= dr;
      assert dr >= rr;
    }
  }

  /** `distance(p, q) < radius` holds exactly when `Within(p, q, radius)` does, where d is the
      square root `distance` computes. */
  lemma WithinIsDistanceBelow(p: Point, q: Point, d: real, radius: real)
    requires d >= 0.0 && d * d == Dist2(p, q)
    ensures Within(p, q, radius) <==> d < radius
  {
    BelowIsDistanceBelow(d, radius);
  }

  /** Clamping as `max(0, min(1, t))` (pen.py:362). */
  function Clamp01(t: real): (r: real)
    ensures 0.0 <= r <= 1.0
    ensures 0.0 <= t <= 1.0 ==> r == t
    ensures t < 0.0 ==> r == 0.0
    ensures t > 1.0 ==> r == 1.0
  {
    if t < 0.0 then 0.0 else if t > 1.0 then 1.0 else t
  }

  /** A cubic Bézier segment: start, first control, second control, end. Between two anchors
      p1, p2 it is (p1 position, p1.control_out, p2.control_in, p2 position). */
  datatype Cubic = Cubic(p0: Point, p1: Point, p2: Point, p3: Point)

  /** One coordinate of the Bernstein form of `bezier_point` (pen.py:293-300). */
  function Bez1(a: real, b: real, c: real, d: real, t: real): real
  {
    (1.0 - t) * (1.0 - t) * (1.0 - t) * a
    + 3.0 * (1.0 - t) * (1.0 - t) * t * b
    + 3.0 * (1.0 - t) * t * t * c
    + t * t * t * d
  }

  /** One coordinate of `bezier_derivative` (pen.py:371-377). */
  function Der1(a: real, b: real, c: real, d: real, t: real): real
  {
    3.0 * (1.0 - t) * (1.0 - t) * (b - a)
    + 6.0 * (1.0 - t) * t * (c - b)
    + 3.0 * t * t * (d - c)
  }

  /** One coordinate of `bezier_second_derivative` (pen.py:383-387). */
  function Sec1(a: real, b: real, c: real, d: real, t: real): real
  {
    6.0 * (1.0 - t) * (c - 2.0 * b + a) + 6.0 * t * (d - 2.0 * c + b)
  }

  /** The constant third derivative of one coordinate. */
  function Third1(a: real, b: real, c: real, d: real): real
  {
    6.0 * (d - 3.0 * c + 3.0 * b - a)
  }

  /** `bezier_point` (pen.py:291-301). The curve starts at p0 and ends at p3. */
  function BezierPoint(c: Cubic, t: real): (r: Point)
    ensures t == 0.0 ==> r == c.p0
    ensures t == 1.0 ==> r == c.p3
  {
    Point(Bez1(c.p0.x, c.p1.x, c.p2.x, c.p3.x, t), Bez1(c.p0.y, c.p1.y, c.p2.y, c.p3.y, t))
  }

  /** `bezier_derivative` (pen.py:370-379). At the ends the tangent is three times the handle. */
  function BezierDerivative(c: Cubic, t: real): (r: Point)
    ensures t == 0.0 ==> r == Scale(3.0, Sub(c.p1, c.p0))
    ensures t == 1.0 ==> r == Scale(3.0, Sub(c.p3, c.p2))
  {
    Point(Der1(c.p0.x, c.p1.x, c.p2.x, c.p3.x, t), Der1(c.p0.y, c.p1.y, c.p2.y, c.p3.y, t))
  }

  /** `bezier_second_derivative` (pen.py:382-389). */
  function BezierSecondDerivative(c: Cubic, t: real): (r: Point)
    ensures t == 0.0 ==> r == Scale(6.0, Add(Sub(c.p2, Scale(2.0, c.p1)), c.p0))
    ensures t == 1.0 ==> r == Scale(6.0, Add(Sub(c.p3, Scale(2.0, c.p2)), c.p1))
  {
    Point(Sec1(c.p0.x, c.p1.x, c.p2.x, c.p3.x, t), Sec1(c.p0.y, c.p1.y, c.p2.y, c.p3.y, t))
  }

  /** The independent reference definition of the curve: repeated linear interpolation
      of the control polygon (de Casteljau's construction). */
  function DeCasteljau(c: Cubic, t: real): Point
  {
    var a, b, d := Lerp(c.p0, c.p1, t), Lerp(c.p1, c.p2, t), Lerp(c.p2, c.p3, t);
    Lerp(Lerp(a, b, t), Lerp(b, d, t), t)
  }

  lemma Bez1IsDeCasteljau(a: real, b: real, c: real, d: real, t: real)
    ensures Bez1(a, b, c, d, t)
         == Lerp1(Lerp1(Lerp1(a, b, t), Lerp1(b, c, t), t), Lerp1(Lerp1(b, c, t), Lerp1(c, d, t), t), t)
  {
    var u := 1.0 - t;
    var ab, bc, cd := u * a + t * b, u * b + t * c, u * c + t * d;
    var abc, bcd := u * ab + t * bc, u * bc + t * cd;
    assert abc == u * u * a + 2.0 * u * t * b + t * t * c;
    assert bcd == u * u * b + 2.0 * u * t * c + t * t * d;
    assert u * abc + t * bcd == u * u * u * a + 3.0 * u * u * t * b + 3.0 * u * t * t * c + t * t * t * d;
  }

  /** The Bernstein form evaluated by the source is the de Casteljau curve. */
  lemma BezierIsDeCasteljau(c: Cubic, t: real)
    ensures BezierPoint(c, t) == DeCasteljau(c, t)
  {
    Bez1IsDeCasteljau(c.p0.x, c.p1.x, c.p2.x, c.p3.x, t);
    Bez1IsDeCasteljau(c.p0.y, c.p1.y, c.p2.y, c.p3.y, t);
    var a, b, d := Lerp(c.p0, c.p1, t), Lerp(c.p1, c.p2, t), Lerp(c.p2, c.p3, t);
    var ab, bd := Lerp(a, b, t), Lerp(b, d, t);
    assert DeCasteljau(c, t) == Lerp(ab, bd, t);
  }

  // Coefficients of the power form a + K1*s + K2*s^2 + K3*s^3 of one coordinate.
  function K1(a: real, b: real): real { 3.0 * (b - a) }
  function K2(a: real, b: real, c: real): real { 3.0 * (c - 2.0 * b + a) }
  function K3(a: real, b: real, c: real, d: real): real { d - 3.0 * c + 3.0 * b - a }

  lemma Bez1Power(a: real, b: real, c: real, d: real, s: real)
    ensures Bez1(a, b, c, d, s) == a + K1(a, b) * s + K2(a, b, c) * s * s + K3(a, b, c, d) * s * s * s
  {
    var u := 1.0 - s;
    assert u * u == 1.0 - 2.0 * s + s * s;
    assert u * u * u == 1.0 - 3.0 * s + 3.0 * s * s - s * s * s;
    assert u * u * s == s - 2.0 * s * s + s * s * s;
    assert u * s * s == s * s - s * s * s;
  }

  lemma Der1Power(a: real, b: real, c: real, d: real, s: real)
    ensures Der1(a, b, c, d, s) == K1(a, b) + 2.0 * K2(a, b, c) * s + 3.0 * K3(a, b, c, d) * s * s
  {
    var u := 1.0 - s;
    assert u * u == 1.0 - 2.0 * s + s * s;
    assert u * s == s - s * s;
  }

  /** The exact Taylor expansion of one coordinate of a cubic around t, which shows that Der1,
      Sec1 and Third1 are its first, second and third derivatives. */
  lemma Taylor1(a: real, b: real, c: real, d: real, t: real, h: real)
    ensures Bez1(a, b, c, d, t + h)
         == Bez1(a, b, c, d, t) + h * Der1(a, b, c, d, t)
            + h * h / 2.0 * Sec1(a, b, c, d, t) + h * h * h / 6.0 * Third1(a, b, c, d)
  {
    Bez1Power(a, b, c, d, t + h);
    Bez1Power(a, b, c, d, t);
    Der1Power(a, b, c, d, t);
    var k1, k2, k3 := K1(a, b), K2(a, b, c), K3(a, b, c, d);
    assert Sec1(a, b, c, d, t) == 2.0 * k2 + 6.0 * k3 * t;
    assert Third1(a, b, c, d) == 6.0 * k3;
    var s := t + h;
    assert s * s == t * t + 2.0 * t * h + h * h;
    assert s * s * s == t * t * t + 3.0 * t * t * h + 3.0 * t * h * h + h * h * h;
    assert k2 * s * s == k2 * t * t + 2.0 * k2 * t * h + k2 * h * h;
    assert k3 * s * s * s == k3 * t * t * t + 3.0 * k3 * t * t * h + 3.0 * k3 * t * h * h + k3 * h * h * h;
    assert h * Der1(a, b, c, d, t) == k1 * h + 2.0 * k2 * t * h + 3.0 * k3 * t * t * h;
    assert h * h / 2.0 * Sec1(a, b, c, d, t) == k2 * h * h + 3.0 * k3 * t * h * h;
    assert h * h * h / 6.0 * Third1(a, b, c, d) == k3 * h * h * h;
  }

  /** One round of the Newton iteration in `find_closest_t` (pen.py:347-362): None when the
      denominator is zero (the loop breaks), otherwise the clamped next parameter. */
  function NewtonStep(c: Cubic, q: Point, t: real): (r: Option<real>)
    ensures r.Some? ==> 0.0 <= r.value <= 1.0
    ensures r.None? <==> Dot(BezierDerivative(c, t), BezierDerivative(c, t))
                         + Dot(Sub(BezierPoint(c, t), q), BezierSecondDerivative(c, t)) == 0.0
  {
    var d := Sub(BezierPoint(c, t), q);
    var d1, d2 := BezierDerivative(c, t), BezierSecondDerivative(c, t);
    var numerator := Dot(d, d1);
    var denominator := Dot(d1, d1) + Dot(d, d2);
    if denominator == 0.0 then None else Some(Clamp01(t - numerator / denominator))
  }

  /** The parameter reached after at most n Newton rounds from t, stopping at a zero
      denominator. From a start in [0,1] it stays in [0,1]. */
  function ClosestT(c: Cubic, q: Point, t: real, n: nat): (r: real)
    ensures 0.0 <= t <= 1.0 ==> 0.0 <= r <= 1.0
    ensures n == 0 ==> r == t
    decreases c, q, n
  {
    if n == 0 then t
    else match NewtonStep(c, q, t)
      case None => t
      case Some(t') => ClosestT(c, q, t', n - 1)
  }

  /** Number of Newton rounds (`iterations=10`, pen.py:343) and the start guess (pen.py:345). */
  const NewtonIterations: nat := 10
  const StartT: real := 0.5

  /** The squared distance from q to the curve point `find_closest_t` settles on after n rounds. */
  function ClosestDist2(c: Cubic, q: Point, n: nat): real
  {
    Dist2(BezierPoint(c, ClosestT(c, q, StartT, n)), q)
  }

  /** `find_closest_t` (pen.py:343-367): the parameter after the Newton rounds, which always lies
      in [0,1], and the squared distance from q to the curve point there. */
  method FindClosestT(c: Cubic, q: Point, iterations: nat) returns (t: real, dist2: real)
    ensures t == ClosestT(c, q, StartT, iterations)
    ensures 0.0 <= t <= 1.0
    ensures dist2 == Dist2(BezierPoint(c, t), q) == ClosestDist2(c, q, iterations)
  {
    t := StartT;
    var k := 0;
    while k < iterations
      invariant 0 <= k <= iterations
      invariant 0.0 <= t <= 1.0
      invariant ClosestT(c, q, t, iterations - k) == ClosestT(c, q, StartT, iterations)
    {
      var d := Sub(BezierPoint(c, t), q);
      var d1 := BezierDerivative(c, t);
      var d2 := BezierSecondDerivative(c, t);
      var numerator := Dot(d, d1);
      var denominator := Dot(d1, d1) + Dot(d, d2);
      if denominator == 0.0 {
        break;
      }
      t := t - numerator / denominator;
      t := Clamp01(t);
      k := k + 1;
    }
    var b := BezierPoint(c, t);
    dist2 := Dist2(b, q);
  }
}
