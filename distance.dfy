/** Squared distance from a point to the line through two points, for `Point<2>`
    and `Point<3>`. Other dimensions have no distance path (the source stops them
    at compile time), so the model requires 2 or 3. */
module Distance {
  import opened Vectors
  import Geometry
  import opened RealFacts

  /** Three points of one dimension that has a distance path. */
  predicate SameSupportedDim(p: Point, a: Point, b: Point) {
    p.Dim() == a.Dim() == b.Dim() && (a.Dim() == 2 || a.Dim() == 3)
  }

  /** Squared distance from `p` to the line through `a` and `b`; when `a` and `b`
      are closer than the threshold, the squared distance from `p` to `a`.
      The planar numerator is the one of the planar geometry header. */
  function PointToLineDistanceSquared(p: Point, a: Point, b: Point): (r: real)
    requires SameSupportedDim(p, a, b)
    ensures r >= 0.0
  {
    var ab := b.Sub(a);
    if ab.LengthSquared() < Geometry.DegenerateThreshold then
      p.Sub(a).LengthSquared()
    else if a.Dim() == 2 then
      var distance := ab.data[1] * (p.data[0] - a.data[0]) - ab.data[0] * (p.data[1] - a.data[1]);
      (distance * distance) / ab.LengthSquared()
    else
      Cross(p.Sub(a), ab).LengthSquared() / ab.LengthSquared()
  }

  /** The point `a + t * (b - a)` of the line through `a` and `b`. */
  function OnLine(a: Point, b: Point, t: real): (p: Point)
    requires a.Dim() == b.Dim()
    ensures p.Dim() == a.Dim()
  {
    a.Add(b.Sub(a).Scale(t))
  }

  function To2D(p: Point): Geometry.Point2D
    requires p.Dim() == 2
  {
    Geometry.Point2D(p.data[0], p.data[1])
  }

  /** A planar point placed in space at z = 0. */
  function Lift(p: Point): (q: Point)
    requires p.Dim() == 2
    ensures q.Dim() == 3
  {
    Point(p.data + [0.0])
  }

  // ---------------------------------------------------------------------------
  // Properties of the distance

  /** The planar distance is the planar geometry header's distance of the same points. */
  lemma PlanarMatchesGeometry(p: Point, a: Point, b: Point)
    requires SameSupportedDim(p, a, b) && a.Dim() == 2
    ensures PointToLineDistanceSquared(p, a, b)
         == Geometry.PointToLineDistanceSquared2D(To2D(p), To2D(a), To2D(b))
    ensures p.Sub(a).LengthSquared() == To2D(p).Sub(To2D(a)).LengthSquared()
  {
    PlanarLengthSquared(b, a);
    PlanarLengthSquared(p, a);
    var ab, g := b.Sub(a), To2D(b).Sub(To2D(a));
    if ab.LengthSquared() >= Geometry.DegenerateThreshold {
      assert ab.data[0] == g.x && ab.data[1] == g.y;
    }
  }

  /** A planar difference has the same squared length as in the planar geometry header. */
  lemma PlanarLengthSquared(p: Point, a: Point)
    requires p.Dim() == 2 && a.Dim() == 2
    ensures p.Sub(a).LengthSquared() == To2D(p).Sub(To2D(a)).LengthSquared()
  {
    Dot2(p.Sub(a), p.Sub(a));
  }

  /** The spatial bound: |(p - a) x (b - a)|^2 / |b - a|^2 lies between 0 and |p - a|^2. */
  lemma SpatialBound(p: Point, a: Point, b: Point)
    requires SameSupportedDim(p, a, b) && a.Dim() == 3
    requires b.Sub(a).LengthSquared() > 0.0
    ensures 0.0 <= Cross(p.Sub(a), b.Sub(a)).LengthSquared() / b.Sub(a).LengthSquared()
                <= p.Sub(a).LengthSquared()
  {
    var ab, ap := b.Sub(a), p.Sub(a);
    CrossLagrange(ap, ab);
    SquareNonNegative(ap.Dot(ab));
    QuotientAtMost(Cross(ap, ab).LengthSquared(), ab.LengthSquared(), ap.LengthSquared());
  }

  /** The squared distance is never negative and never exceeds the squared distance
      to `a`, a point of the line; on a degenerate line it is the squared distance to `a`. */
  lemma DistanceBounds(p: Point, a: Point, b: Point)
    requires SameSupportedDim(p, a, b)
    ensures 0.0 <= PointToLineDistanceSquared(p, a, b) <= p.Sub(a).LengthSquared()
    ensures b.Sub(a).LengthSquared() < Geometry.DegenerateThreshold ==>
              PointToLineDistanceSquared(p, a, b) == p.Sub(a).LengthSquared()
  {
    if b.Sub(a).LengthSquared() < Geometry.DegenerateThreshold {
    } else if a.Dim() == 2 {
      PlanarMatchesGeometry(p, a, b);
      Geometry.Distance2DBounds(To2D(p), To2D(a), To2D(b));
    } else {
      SpatialBound(p, a, b);
    }
  }

  /** `a + t * (b - a)` differs from `a` by `t` times `b - a`, coordinate by coordinate. */
  lemma OnLineOffset(a: Point, b: Point, t: real, i: nat)
    requires a.Dim() == b.Dim() && i < a.Dim()
    ensures OnLine(a, b, t).data[i] - a.data[i] == b.Sub(a).data[i] * t
  {
  }

  /** Every point of a non-degenerate line, `a` and `b` among them, is at distance 0. */
  lemma DistanceZeroOnLine(a: Point, b: Point, t: real)
    requires a.Dim() == b.Dim() && (a.Dim() == 2 || a.Dim() == 3)
    requires b.Sub(a).LengthSquared() >= Geometry.DegenerateThreshold
    ensures PointToLineDistanceSquared(OnLine(a, b, t), a, b) == 0.0
    ensures OnLine(a, b, 0.0) == a && OnLine(a, b, 1.0) == b
  {
    if a.Dim() == 2 {
      PlanarZeroOnLine(a, b, t);
    } else {
      SpatialZeroOnLine(a, b, t);
    }
    OnLineEnds(a, b);
  }

  lemma PlanarZeroOnLine(a: Point, b: Point, t: real)
    requires a.Dim() == b.Dim() == 2
    requires b.Sub(a).LengthSquared() >= Geometry.DegenerateThreshold
    ensures PointToLineDistanceSquared(OnLine(a, b, t), a, b) == 0.0
  {
    var ab, p := b.Sub(a), OnLine(a, b, t);
    OnLineOffset(a, b, t, 0);
    OnLineOffset(a, b, t, 1);
    ParallelCrossTerm(p.data[0] - a.data[0], p.data[1] - a.data[1], ab.data[0], ab.data[1], t);
    ZeroSquareQuotient(ab.data[1] * (p.data[0] - a.data[0]) - ab.data[0] * (p.data[1] - a.data[1]),
                       ab.LengthSquared());
  }

  lemma SpatialZeroOnLine(a: Point, b: Point, t: real)
    requires a.Dim() == b.Dim() == 3
    requires b.Sub(a).LengthSquared() >= Geometry.DegenerateThreshold
    ensures PointToLineDistanceSquared(OnLine(a, b, t), a, b) == 0.0
  {
    var ab, p := b.Sub(a), OnLine(a, b, t);
    var ap := p.Sub(a);
    OnLineOffset(a, b, t, 0);
    OnLineOffset(a, b, t, 1);
    OnLineOffset(a, b, t, 2);
    ParallelCrossTerm(ap.data[1], ap.data[2], ab.data[1], ab.data[2], t);
    ParallelCrossTerm(ap.data[2], ap.data[0], ab.data[2], ab.data[0], t);
    ParallelCrossTerm(ap.data[0], ap.data[1], ab.data[0], ab.data[1], t);
    var c := Cross(ap, ab);
    assert c.data[0] == 0.0 && c.data[1] == 0.0 && c.data[2] == 0.0 && |c.data| == 3;
    assert c == Vec([0.0, 0.0, 0.0]);
    Dot3(c, c);
  }

  /** The parameters 0 and 1 give the two points that define the line. */
  lemma OnLineEnds(a: Point, b: Point)
    requires a.Dim() == b.Dim()
    ensures OnLine(a, b, 0.0) == a && OnLine(a, b, 1.0) == b
  {
    assert OnLine(a, b, 0.0).data == a.data;
    assert b.Sub(a).Scale(1.0) == b.Sub(a);
    AddSubRoundTrip(a, b);
  }

  /** The cross product of two vectors of the plane z = 0 is `(0, 0, x0 u1 - x1 u0)`. */
  lemma PlanarCross(x0: real, x1: real, u0: real, u1: real)
    ensures Cross(Vec([x0, x1, 0.0]), Vec([u0, u1, 0.0])) == Vec([0.0, 0.0, x0 * u1 - x1 * u0])
  {
    var c := Cross(Vec([x0, x1, 0.0]), Vec([u0, u1, 0.0]));
    assert c.data[0] == 0.0 && c.data[1] == 0.0 && c.data[2] == x0 * u1 - x1 * u0;
    assert |c.data| == 3;
  }

  /** Placing a planar vector at z = 0 keeps its squared length. */
  lemma LiftedLengthSquared(u0: real, u1: real)
    ensures Vec([u0, u1, 0.0]).LengthSquared() == Vec([u0, u1]).LengthSquared()
  {
    Dot3(Vec([u0, u1, 0.0]), Vec([u0, u1, 0.0]));
    Dot2(Vec([u0, u1]), Vec([u0, u1]));
  }

  lemma VerticalLengthSquared(z: real)
    ensures Vec([0.0, 0.0, z]).LengthSquared() == z * z
  {
    Dot3(Vec([0.0, 0.0, z]), Vec([0.0, 0.0, z]));
  }

  /** A planar distance equals the spatial distance of the same points lifted to z = 0,
      so planar input and the same input with a zero third coordinate are simplified alike. */
  lemma PlanarMatchesLifted(p: Point, a: Point, b: Point)
    requires SameSupportedDim(p, a, b) && a.Dim() == 2
    ensures PointToLineDistanceSquared(p, a, b)
         == PointToLineDistanceSquared(Lift(p), Lift(a), Lift(b))
  {
    LiftedDifferenceLength(b, a);
    var length := b.Sub(a).LengthSquared();
    if length < Geometry.DegenerateThreshold {
      LiftedDifferenceLength(p, a);
    } else {
      var ab := b.Sub(a);
      var distance := ab.data[1] * (p.data[0] - a.data[0]) - ab.data[0] * (p.data[1] - a.data[1]);
      LiftedCrossLength(p, a, b);
      var p3, a3, b3 := Lift(p), Lift(a), Lift(b);
      assert PointToLineDistanceSquared(p3, a3, b3)
          == Cross(p3.Sub(a3), b3.Sub(a3)).LengthSquared() / b3.Sub(a3).LengthSquared();
    }
  }

  /** Lifting two planar points to z = 0 keeps the squared length of their difference. */
  lemma LiftedDifferenceLength(p: Point, a: Point)
    requires p.Dim() == 2 && a.Dim() == 2
    ensures Lift(p).Sub(Lift(a)).LengthSquared() == p.Sub(a).LengthSquared()
  {
    LiftedDifference(p, a);
    LiftedLengthSquared(p.data[0] - a.data[0], p.data[1] - a.data[1]);
  }

  /** The cross product of lifted differences has the planar numerator squared as
      its squared length. */
  lemma LiftedCrossLength(p: Point, a: Point, b: Point)
    requires SameSupportedDim(p, a, b) && a.Dim() == 2
    ensures var ab := b.Sub(a);
            var distance := ab.data[1] * (p.data[0] - a.data[0]) - ab.data[0] * (p.data[1] - a.data[1]);
            Cross(Lift(p).Sub(Lift(a)), Lift(b).Sub(Lift(a))).LengthSquared() == distance * distance
  {
    var x0, x1 := p.data[0] - a.data[0], p.data[1] - a.data[1];
    var u0, u1 := b.data[0] - a.data[0], b.data[1] - a.data[1];
    LiftedDifference(b, a);
    LiftedDifference(p, a);
    var z := x0 * u1 - x1 * u0;
    PlanarCross(x0, x1, u0, u1);
    VerticalLengthSquared(z);
    SquareOfEqual(u1 * x0 - u0 * x1, z);
  }

  /** The difference of two planar points, and of the same points lifted to z = 0,
      written out. */
  lemma LiftedDifference(p: Point, a: Point)
    requires p.Dim() == 2 && a.Dim() == 2
    ensures p.Sub(a) == Vec([p.data[0] - a.data[0], p.data[1] - a.data[1]])
    ensures Lift(p).Sub(Lift(a)) == Vec([p.data[0] - a.data[0], p.data[1] - a.data[1], 0.0])
  {
    var d, d3 := p.Sub(a), Lift(p).Sub(Lift(a));
    assert |d.data| == 2 && d.data[0] == p.data[0] - a.data[0] && d.data[1] == p.data[1] - a.data[1];
    assert |d3.data| == 3 && d3.data[0] == p.data[0] - a.data[0] && d3.data[1] == p.data[1] - a.data[1];
    assert d3.data[2] == 0.0;
  }

  // ---------------------------------------------------------------------------
  // The planar branch of the generic distance as it is written

  /** The numerator of the generic template's planar branch as written: the term
      `ab.x * p.y` carries `+` where the line equation needs `-`, so it exceeds the
      line equation's numerator by `2 * ab.x * p.y`. */
  function PlanarNumeratorAsWritten(p: Point, a: Point, b: Point): (r: real)
    requires SameSupportedDim(p, a, b) && a.Dim() == 2
    ensures r == b.Sub(a).data[1] * (p.data[0] - a.data[0]) - b.Sub(a).data[0] * (p.data[1] - a.data[1])
                 + 2.0 * b.Sub(a).data[0] * p.data[1]
  {
    var ab := b.Sub(a);
    ab.data[1] * p.data[0] + ab.data[0] * p.data[1] + b.data[0] * a.data[1] - b.data[1] * a.data[0]
  }

  /** The generic template's planar distance with the numerator as written. */
  function PlanarDistanceSquaredAsWritten(p: Point, a: Point, b: Point): (r: real)
    requires SameSupportedDim(p, a, b) && a.Dim() == 2
    ensures r >= 0.0
  {
    var ab := b.Sub(a);
    if ab.LengthSquared() < Geometry.DegenerateThreshold then
      p.Sub(a).LengthSquared()
    else
      var distance := PlanarNumeratorAsWritten(p, a, b);
      (distance * distance) / ab.LengthSquared()
  }

  /** With the numerator as written, the end point (1, 1) of the line from (0, 0) to
      (1, 1) is at squared distance 2 from its own line; the model's distance gives 0. */
  lemma AsWrittenMisplacesEndPoint()
    ensures PlanarDistanceSquaredAsWritten(Point([1.0, 1.0]), Point([0.0, 0.0]), Point([1.0, 1.0])) == 2.0
    ensures PointToLineDistanceSquared(Point([1.0, 1.0]), Point([0.0, 0.0]), Point([1.0, 1.0])) == 0.0
  {
    var a, b := Point([0.0, 0.0]), Point([1.0, 1.0]);
    var ab := b.Sub(a);
    assert ab.data == [1.0, 1.0];
    Dot2(ab, ab);
    assert PlanarNumeratorAsWritten(b, a, b) == 2.0;
  }
}
