/** The planar geometry header: `Vec2D`, `Point2D` and the squared distance from a
    point to the line through two points. Coordinates are mathematical reals. */
module Geometry {
  import opened RealFacts

  /** Below this squared length the two points defining a line are treated as one
      point, 10^-14, an absolute threshold independent of the coordinates' scale. */
  const DegenerateThreshold: real := 1.0 / 100000000000000.0

  datatype Vec2D = Vec2D(x: real, y: real) {

    function Add(other: Vec2D): Vec2D {
      Vec2D(x + other.x, y + other.y)
    }

    function Sub(other: Vec2D): Vec2D {
      Vec2D(x - other.x, y - other.y)
    }

    function Scale(s: real): Vec2D {
      Vec2D(x * s, y * s)
    }

    function Dot(other: Vec2D): real {
      x * other.x + y * other.y
    }

    function LengthSquared(): (r: real)
      ensures r >= 0.0
    {
      Dot(this)
    }
  }

  datatype Point2D = Point2D(x: real, y: real) {

    function Sub(other: Point2D): Vec2D {
      Vec2D(x - other.x, y - other.y)
    }

    function Add(v: Vec2D): Point2D {
      Point2D(x + v.x, y + v.y)
    }
  }

  /** Squared distance from `p` to the line through `a` and `b`, or to `a` alone when
      `a` and `b` are closer than the threshold. */
  function PointToLineDistanceSquared2D(p: Point2D, a: Point2D, b: Point2D): (r: real)
    ensures r >= 0.0
  {
    var ab := b.Sub(a);
    if ab.LengthSquared() < DegenerateThreshold then
      p.Sub(a).LengthSquared()
    else
      var distance := ab.y * (p.x - a.x) - ab.x * (p.y - a.y);
      (distance * distance) / ab.LengthSquared()
  }

  // ---------------------------------------------------------------------------

  /** Moving `q` by the vector from `q` to `p` lands on `p`. */
  lemma AddSubRoundTrip2D(p: Point2D, q: Point2D)
    ensures q.Add(p.Sub(q)) == p
  {
  }

  /** The scaled vectors `t * (b - a)` added to `a` are the points of the line through `a` and `b`. */
  function OnLine2D(a: Point2D, b: Point2D, t: real): Point2D {
    a.Add(b.Sub(a).Scale(t))
  }

  /** The squared distance to the line is never negative and never exceeds the
      squared distance to `a`; on a degenerate line it is the squared distance to `a`. */
  lemma Distance2DBounds(p: Point2D, a: Point2D, b: Point2D)
    ensures 0.0 <= PointToLineDistanceSquared2D(p, a, b) <= p.Sub(a).LengthSquared()
    ensures b.Sub(a).LengthSquared() < DegenerateThreshold ==>
              PointToLineDistanceSquared2D(p, a, b) == p.Sub(a).LengthSquared()
  {
    var ab := b.Sub(a);
    if ab.LengthSquared() >= DegenerateThreshold {
      SubLengthSquared(p, a);
      var n := ab.y * (p.x - a.x) - ab.x * (p.y - a.y);
      assert ab.LengthSquared() == ab.x * ab.x + ab.y * ab.y;
      assert ab.LengthSquared() > 0.0;
      assert PointToLineDistanceSquared2D(p, a, b) == (n * n) / ab.LengthSquared();
      PlanarBound(ab.x, ab.y, p.x - a.x, p.y - a.y, ab.y * (p.x - a.x) - ab.x * (p.y - a.y),
                  ab.LengthSquared(), p.Sub(a).LengthSquared());
    }
  }

  lemma SubLengthSquared(p: Point2D, q: Point2D)
    ensures p.Sub(q).LengthSquared() == (p.x - q.x) * (p.x - q.x) + (p.y - q.y) * (p.y - q.y)
  {
  }

  /** The planar bound in coordinates: n^2 / l lies between 0 and d, for the cross
      term n of u and d, l = |u|^2 > 0 and d = |d|^2. */
  lemma PlanarBound(ux: real, uy: real, dx: real, dy: real, n: real, l: real, d: real)
    requires n == uy * dx - ux * dy
    requires l == ux * ux + uy * uy && l > 0.0 && d == dx * dx + dy * dy
    ensures 0.0 <= (n * n) / l <= d
  {
    var m := ux * dx + uy * dy;
    Lagrange2(ux, uy, dx, dy, n, m, l, d);
    SquareNonNegative(m);
    SquareNonNegative(n);
    QuotientAtMost(n * n, l, d);
  }

  /** Every point of a non-degenerate line, `a` and `b` among them, is at distance 0 from it. */
  lemma Distance2DZeroOnLine(a: Point2D, b: Point2D, t: real)
    requires b.Sub(a).LengthSquared() >= DegenerateThreshold
    ensures PointToLineDistanceSquared2D(OnLine2D(a, b, t), a, b) == 0.0
    ensures OnLine2D(a, b, 0.0) == a && OnLine2D(a, b, 1.0) == b
  {
    var ab := b.Sub(a);
    var p := OnLine2D(a, b, t);
    ParallelCrossTerm(p.x - a.x, p.y - a.y, ab.x, ab.y, t);
    ZeroSquareQuotient(ab.y * (p.x - a.x) - ab.x * (p.y - a.y), ab.LengthSquared());
  }
}
