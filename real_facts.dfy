/** Facts of real arithmetic used by the distance proofs. Each is stated over plain
    variables, so that the solver meets every polynomial identity in isolation. */
module RealFacts {

  lemma SquareNonNegative(m: real)
    ensures m * m >= 0.0
  {
  }

  /** A number and its negation have the same square. */
  lemma SquareOfNegation(x: real, y: real)
    requires y == -x
    ensures x * x == y * y
  {
  }

  /** Squaring preserves the order of non-negative numbers. */
  lemma SquareMonotone(e: real, f: real)
    requires 0.0 <= e <= f
    ensures e * e <= f * f
  {
    assert e * e <= e * f;
    assert e * f <= f * f;
  }

  lemma SquareOfEqual(x: real, y: real)
    requires x == y
    ensures x * x == y * y
  {
  }

  /** Dividing a number bounded by `l * d` by the positive `l` stays below `d`. */
  lemma QuotientAtMost(c: real, l: real, d: real)
    requires l > 0.0 && 0.0 <= c <= l * d
    ensures 0.0 <= c / l <= d
  {
    var q := c / l;
    assert q * l == c;
    assert q * l <= d * l;
  }

  lemma ZeroSquareQuotient(x: real, l: real)
    requires x == 0.0 && l != 0.0
    ensures (x * x) / l == 0.0
  {
  }

  /** Lagrange's identity in the plane, with `n` the cross term, `m` the dot product,
      `l` and `d` the two squared lengths: n^2 + m^2 = l d. */
  lemma Lagrange2(ux: real, uy: real, dx: real, dy: real, n: real, m: real, l: real, d: real)
    requires n == uy * dx - ux * dy && m == ux * dx + uy * dy
    requires l == ux * ux + uy * uy && d == dx * dx + dy * dy
    ensures n * n + m * m == l * d
  {
  }

  /** Lagrange's identity in space, with `c0, c1, c2` the cross product of `d` and `u`,
      `c` its squared length, `m` the dot product, `l` and `dd` the squared lengths of
      `u` and `d`: c + m^2 = dd l. */
  lemma Lagrange3(d0: real, d1: real, d2: real, u0: real, u1: real, u2: real,
                  c0: real, c1: real, c2: real, c: real, m: real, l: real, dd: real)
    requires c0 == d1 * u2 - d2 * u1 && c1 == d2 * u0 - d0 * u2 && c2 == d0 * u1 - d1 * u0
    requires c == c0 * c0 + c1 * c1 + c2 * c2
    requires m == d0 * u0 + d1 * u1 + d2 * u2
    requires l == u0 * u0 + u1 * u1 + u2 * u2 && dd == d0 * d0 + d1 * d1 + d2 * d2
    ensures c + m * m == dd * l
  {
  }

  /** The cross term of two parallel vectors `x = t u` vanishes. */
  lemma ParallelCrossTerm(xi: real, xj: real, ui: real, uj: real, t: real)
    requires xi == ui * t && xj == uj * t
    ensures xi * uj - xj * ui == 0.0
    ensures uj * xi - ui * xj == 0.0
  {
  }
}
