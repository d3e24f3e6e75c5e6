/** Point and vector arithmetic of the simplifier.

    Two families are modelled, as in the C++ source:
    - the fixed 3-D structs `Vec3D` and `Point3D`, and
    - the dimension-generic `Vec<N>` and `Point<N>`, whose `std::array<double, N>`
      becomes a `seq<real>`; the dimension N is the length of that sequence.
    Coordinates are mathematical reals, so there is no rounding. */
module Vectors {
  import opened RealFacts

  /** A 3-D vector with named components. */
  datatype Vec3D = Vec3D(x: real, y: real, z: real) {

    function Add(other: Vec3D): Vec3D {
      Vec3D(x + other.x, y + other.y, z + other.z)
    }

    function Sub(other: Vec3D): Vec3D {
      Vec3D(x - other.x, y - other.y, z - other.z)
    }

    function Scale(s: real): Vec3D {
      Vec3D(x * s, y * s, z * s)
    }

    function Dot(other: Vec3D): real {
      x * other.x + y * other.y + z * other.z
    }

    /** The cross product, orthogonal to both of its operands. */
    function Cross(other: Vec3D): (r: Vec3D)
      ensures r.Dot(this) == 0.0 && r.Dot(other) == 0.0
    {
      Vec3D(y * other.z - z * other.y,
            z * other.x - x * other.z,
            x * other.y - y * other.x)
    }

    /** Written out component-wise in the source rather than through `Dot`. */
    function LengthSquared(): (r: real)
      ensures r >= 0.0
      ensures r == Dot(this)
    {
      x * x + y * y + z * z
    }
  }

  /** A 3-D point; subtracting points gives a `Vec3D`, adding a `Vec3D` moves a point. */
  datatype Point3D = Point3D(x: real, y: real, z: real) {

    function Sub(other: Point3D): Vec3D {
      Vec3D(x - other.x, y - other.y, z - other.z)
    }

    function Add(v: Vec3D): Point3D {
      Point3D(x + v.x, y + v.y, z + v.z)
    }
  }

  /** `Vec<N>`: N components; every binary operation needs both operands of the same N. */
  datatype Vec = Vec(data: seq<real>) {

    function Dim(): nat {
      |data|
    }

    function Add(other: Vec): Vec
      requires other.Dim() == Dim()
    {
      Vec(seq(|data|, i requires 0 <= i < |data| => data[i] + other.data[i]))
    }

    function Sub(other: Vec): Vec
      requires other.Dim() == Dim()
    {
      Vec(seq(|data|, i requires 0 <= i < |data| => data[i] - other.data[i]))
    }

    function Scale(s: real): Vec {
      Vec(seq(|data|, i requires 0 <= i < |data| => data[i] * s))
    }

    /** The running sum `data[0] * other.data[0] + ... + data[k-1] * other.data[k-1]`
        that the source's dot-product loop has accumulated after k iterations. */
    function DotUpTo(other: Vec, k: nat): real
      requires other.Dim() == Dim() && k <= Dim()
      decreases k
    {
      if k == 0 then 0.0 else DotUpTo(other, k - 1) + data[k - 1] * other.data[k - 1]
    }

    function Dot(other: Vec): real
      requires other.Dim() == Dim()
    {
      DotUpTo(other, Dim())
    }

    /** Never negative: every partial sum of the dot-product loop is non-negative. */
    function LengthSquared(): (r: real)
      ensures r >= 0.0
    {
      DotUpToSelfNonNegative(this, Dim());
      Dot(this)
    }
  }

  /** `Point<N>`: N coordinates. */
  datatype Point = Point(data: seq<real>) {

    function Dim(): nat {
      |data|
    }

    function Sub(other: Point): Vec
      requires other.Dim() == Dim()
    {
      Vec(seq(|data|, i requires 0 <= i < |data| => data[i] - other.data[i]))
    }

    function Add(v: Vec): Point
      requires v.Dim() == Dim()
    {
      Point(seq(|data|, i requires 0 <= i < |data| => data[i] + v.data[i]))
    }
  }

  /** The cross product, defined for `Vec<3>` only. */
  function Cross(a: Vec, b: Vec): (r: Vec)
    requires a.Dim() == 3 && b.Dim() == 3
    ensures r.Dim() == 3
  {
    Vec([a.data[1] * b.data[2] - a.data[2] * b.data[1],
         a.data[2] * b.data[0] - a.data[0] * b.data[2],
         a.data[0] * b.data[1] - a.data[1] * b.data[0]])
  }

  // ---------------------------------------------------------------------------
  // Properties of the generic vectors

  lemma {:induction false} DotUpToSelfNonNegative(v: Vec, k: nat)
    requires k <= v.Dim()
    ensures v.DotUpTo(v, k) >= 0.0
  {
    if k > 0 {
      DotUpToSelfNonNegative(v, k - 1);
      assert v.data[k - 1] * v.data[k - 1] >= 0.0;
    }
  }

  lemma {:induction false} DotUpToNegated(u: Vec, v: Vec, k: nat)
    requires u.Dim() == v.Dim() && k <= u.Dim()
    requires forall i | 0 <= i < u.Dim() :: v.data[i] == -u.data[i]
    ensures u.DotUpTo(u, k) == v.DotUpTo(v, k)
  {
    if k > 0 {
      DotUpToNegated(u, v, k - 1);
      SquareOfNegation(u.data[k - 1], v.data[k - 1]);
    }
  }

  /** The squared distance between two points does not depend on their order. */
  lemma SubLengthSquaredSymmetric(p: Point, q: Point)
    requires p.Dim() == q.Dim()
    ensures p.Sub(q).LengthSquared() == q.Sub(p).LengthSquared()
  {
    DotUpToNegated(p.Sub(q), q.Sub(p), p.Dim());
  }

  /** The cross product is orthogonal to both of its operands. */
  lemma CrossOrthogonal(u: Vec, v: Vec)
    requires u.Dim() == 3 && v.Dim() == 3
    ensures Cross(u, v).Dot(u) == 0.0
    ensures Cross(u, v).Dot(v) == 0.0
  {
    Dot3(Cross(u, v), u);
    Dot3(Cross(u, v), v);
  }

  /** Lagrange's identity: |u x v|^2 + (u . v)^2 == |u|^2 |v|^2. */
  lemma CrossLagrange(u: Vec, v: Vec)
    requires u.Dim() == 3 && v.Dim() == 3
    ensures Cross(u, v).LengthSquared() + u.Dot(v) * u.Dot(v) == v.LengthSquared() * u.LengthSquared()
  {
    var c := Cross(u, v);
    Dot3(c, c);
    Dot3(u, u);
    Dot3(v, v);
    Dot3(u, v);
    Lagrange3(u.data[0], u.data[1], u.data[2], v.data[0], v.data[1], v.data[2],
              c.data[0], c.data[1], c.data[2], c.LengthSquared(), u.Dot(v),
              v.LengthSquared(), u.LengthSquared());
  }

  /** `Vec<2>` dot product written out. */
  lemma Dot2(u: Vec, v: Vec)
    requires u.Dim() == 2 && v.Dim() == 2
    ensures u.Dot(v) == u.data[0] * v.data[0] + u.data[1] * v.data[1]
  {
    assert u.Dot(v) == u.DotUpTo(v, 2);
  }

  /** `Vec<3>` dot product written out. */
  lemma Dot3(u: Vec, v: Vec)
    requires u.Dim() == 3 && v.Dim() == 3
    ensures u.Dot(v) == u.data[0] * v.data[0] + u.data[1] * v.data[1] + u.data[2] * v.data[2]
  {
    assert u.Dot(v) == u.DotUpTo(v, 3);
  }

  /** Moving `a` by the vector from `a` to `b` lands on `b`. */
  lemma AddSubRoundTrip(a: Point, b: Point)
    requires a.Dim() == b.Dim()
    ensures a.Add(b.Sub(a)) == b
  {
    var r := a.Add(b.Sub(a));
    assert |r.data| == |b.data|;
    forall i | 0 <= i < |b.data| ensures r.data[i] == b.data[i] {
    }
    assert r.data == b.data;
  }

  // ---------------------------------------------------------------------------
  // Properties of the 3-D structs, and their agreement with Vec<3>/Point<3>

  /** Moving `a` by the vector from `a` to `b` lands on `b`. */
  lemma AddSubRoundTrip3D(a: Point3D, b: Point3D)
    ensures a.Add(b.Sub(a)) == b
  {
  }

  function AsVec(v: Vec3D): (r: Vec)
    ensures r.Dim() == 3
  {
    Vec([v.x, v.y, v.z])
  }

  function AsPoint(p: Point3D): (r: Point)
    ensures r.Dim() == 3
  {
    Point([p.x, p.y, p.z])
  }

  /** `Vec3D` and `Vec<3>` compute the same sums, differences and multiples. */
  lemma Vec3DArithmeticAgrees(u: Vec3D, v: Vec3D, s: real)
    ensures AsVec(u.Add(v)) == AsVec(u).Add(AsVec(v))
    ensures AsVec(u.Sub(v)) == AsVec(u).Sub(AsVec(v))
    ensures AsVec(u.Scale(s)) == AsVec(u).Scale(s)
  {
    var sum, diff := AsVec(u).Add(AsVec(v)), AsVec(u).Sub(AsVec(v));
    assert sum.data == [u.x + v.x, u.y + v.y, u.z + v.z];
    assert diff.data == [u.x - v.x, u.y - v.y, u.z - v.z];
    assert AsVec(u.Scale(s)).data == AsVec(u).Scale(s).data by {
      var w, scaled := u.Scale(s), AsVec(u).Scale(s);
      assert w == Vec3D(u.x * s, u.y * s, u.z * s);
      assert AsVec(w).data == [u.x * s, u.y * s, u.z * s];
      assert scaled.data[0] == u.x * s && scaled.data[1] == u.y * s && scaled.data[2] == u.z * s;
    }
  }

  /** `Vec3D` and `Vec<3>` compute the same dot and cross products and squared lengths. */
  lemma Vec3DProductsAgree(u: Vec3D, v: Vec3D)
    ensures u.Dot(v) == AsVec(u).Dot(AsVec(v))
    ensures AsVec(u.Cross(v)) == Cross(AsVec(u), AsVec(v))
    ensures u.LengthSquared() == AsVec(u).LengthSquared()
  {
    Dot3(AsVec(u), AsVec(v));
    Dot3(AsVec(u), AsVec(u));
    assert AsVec(u.Cross(v)).data == Cross(AsVec(u), AsVec(v)).data by {
      var c := Cross(AsVec(u), AsVec(v));
      assert c.data[0] == u.y * v.z - u.z * v.y;
      assert c.data[1] == u.z * v.x - u.x * v.z;
      assert c.data[2] == u.x * v.y - u.y * v.x;
    }
  }

  /** `Point3D` and `Point<3>` subtract and translate alike. */
  lemma Point3DAgrees(p: Point3D, q: Point3D, v: Vec3D)
    ensures AsVec(p.Sub(q)) == AsPoint(p).Sub(AsPoint(q))
    ensures AsPoint(p.Add(v)) == AsPoint(p).Add(AsVec(v))
  {
    assert AsVec(p.Sub(q)).data == AsPoint(p).Sub(AsPoint(q)).data;
    assert AsPoint(p.Add(v)).data == AsPoint(p).Add(AsVec(v)).data;
  }
}
