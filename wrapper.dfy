/** The sequential logic of the planar Python entry point `rdp(x, y, epsilon)`: argument
    checks, the short-cut for short input, building the points, seeding the index list,
    running the engine with the squared tolerance and gathering the kept coordinates.
    The NumPy arrays are modelled as sequences of reals; raising a Python `ValueError`
    is modelled as the `ValueError` outcome carrying the message. */
module Wrapper {
  import opened Vectors
  import opened Distance
  import opened Scan
  import opened Simplify
  import opened RealFacts
  import Geometry

  const NegativeEpsilon: string := "epsilon must be non-negative"
  const LengthMismatch: string := "Inputs have different lengths"

  /** What the entry point returns: the two coordinate arrays, or the error it raises. */
  datatype Outcome = Simplified(xs: seq<real>, ys: seq<real>) | ValueError(message: string)

  /** The planar points `(xs[i], ys[i])`. */
  function PlanarPoints(xs: seq<real>, ys: seq<real>): (r: seq<Point>)
    requires |xs| == |ys|
    ensures |r| == |xs| && Planar(r) && Supported(r)
    ensures forall i | 0 <= i < |r| :: r[i] == Point([xs[i], ys[i]])
  {
    seq(|xs|, i requires 0 <= i < |xs| => Point([xs[i], ys[i]]))
  }

  /** The index list after the engine has run on `[0, n - 1]` from the seed `[0]`. */
  function KeptIndices(xs: seq<real>, ys: seq<real>, epsilon: real): (r: seq<nat>)
    requires |xs| == |ys| >= 3 && 0.0 <= epsilon
    ensures |r| >= 2 && r[0] == 0 && r[|r| - 1] == |xs| - 1
    ensures forall j | 0 <= j < |r| :: r[j] < |xs|
    ensures StrictlyIncreasing(r)
  {
    SquareNonNegative(epsilon);
    var appended := Appended(PlanarPoints(xs, ys), 0, |xs| - 1, epsilon * epsilon);
    PrependIncreasing(0, appended);
    [0] + appended
  }

  lemma EngineResultIsKeptIndices(xs: seq<real>, ys: seq<real>, epsilon: real, points: seq<Point>,
                                  n: nat, kept: seq<nat>)
    requires |xs| == |ys| == n >= 3 && 0.0 <= epsilon
    requires |points| == |xs| && forall k | 0 <= k < |xs| :: points[k] == Point([xs[k], ys[k]])
    requires Supported(points) && 0.0 <= epsilon * epsilon
    requires kept == [0] + Appended(points, 0, n - 1, epsilon * epsilon)
    ensures kept == KeptIndices(xs, ys, epsilon)
  {
    assert points == PlanarPoints(xs, ys);
  }

  /** `values[indices[0]], values[indices[1]], ...` */
  function Gather(values: seq<real>, indices: seq<nat>): (r: seq<real>)
    requires forall j | 0 <= j < |indices| :: indices[j] < |values|
    ensures |r| == |indices| && forall j | 0 <= j < |indices| :: r[j] == values[indices[j]]
  {
    seq(|indices|, j requires 0 <= j < |indices| => values[indices[j]])
  }

  /** Gathering at every index in order gives the values back. */
  lemma GatherEveryIndex(values: seq<real>, indices: seq<nat>)
    requires |indices| == |values| && forall j | 0 <= j < |indices| :: indices[j] == j
    ensures Gather(values, indices) == values
  {
  }

  /** What the entry point computes, stated on values. A successful result has
      coordinate arrays of equal length and keeps the first and the last point. */
  function Simplification(xs: seq<real>, ys: seq<real>, epsilon: real): (r: Outcome)
    ensures r.Simplified? ==> |xs| == |ys| && |r.xs| == |r.ys| && (|r.xs| == 0 <==> |xs| == 0)
    ensures r.Simplified? && |xs| > 0 ==>
              r.xs[0] == xs[0] && r.ys[0] == ys[0] &&
              r.xs[|r.xs| - 1] == xs[|xs| - 1] && r.ys[|r.ys| - 1] == ys[|ys| - 1]
  {
    if epsilon < 0.0 then
      ValueError(NegativeEpsilon)
    else if |xs| != |ys| then
      ValueError(LengthMismatch)
    else if |xs| <= 2 then
      Simplified(xs, ys)
    else
      var kept := KeptIndices(xs, ys, epsilon);
      Simplified(Gather(xs, kept), Gather(ys, kept))
  }

  /** The entry point: checks, points loop, engine call and gather loop. */
  method Rdp(xs: seq<real>, ys: seq<real>, epsilon: real) returns (r: Outcome)
    ensures r == Simplification(xs, ys, epsilon)
  {
    if epsilon < 0.0 {
      return ValueError(NegativeEpsilon);
    }
    var nPoints := |xs|;
    if nPoints != |ys| {
      return ValueError(LengthMismatch);
    }
    if nPoints <= 2 {
      return Simplified(xs, ys);
    }

    var points: seq<Point> := [];
    var i := 0;
    while i < nPoints
      invariant 0 <= i <= nPoints && |points| == i
      invariant forall k | 0 <= k < i :: points[k] == Point([xs[k], ys[k]])
    {
      points := points + [Point([xs[i], ys[i]])];
      i := i + 1;
    }

    var indicesToKeep: seq<nat> := [0];
    SquareNonNegative(epsilon);
    indicesToKeep := RamerDouglasPeucker(points, 0, nPoints - 1, epsilon * epsilon, indicesToKeep);
    EngineResultIsKeptIndices(xs, ys, epsilon, points, nPoints, indicesToKeep);
    assert forall k | 0 <= k < |indicesToKeep| :: indicesToKeep[k] < nPoints;

    var result1, result2 := GatherCoordinates(xs, ys, indicesToKeep);
    r := Simplified(result1, result2);
  }

  /** Copies the kept coordinates into two new arrays of the index list's length. */
  method GatherCoordinates(xs: seq<real>, ys: seq<real>, indicesToKeep: seq<nat>)
      returns (xsKept: seq<real>, ysKept: seq<real>)
    requires |xs| == |ys|
    requires forall k | 0 <= k < |indicesToKeep| :: indicesToKeep[k] < |xs|
    ensures xsKept == Gather(xs, indicesToKeep) && ysKept == Gather(ys, indicesToKeep)
  {
    var nIndices := |indicesToKeep|;
    var result1 := new real[nIndices];
    var result2 := new real[nIndices];
    for j := 0 to nIndices
      invariant forall k | 0 <= k < j :: result1[k] == xs[indicesToKeep[k]]
      invariant forall k | 0 <= k < j :: result2[k] == ys[indicesToKeep[k]]
    {
      var index := indicesToKeep[j];
      result1[j] := xs[index];
      result2[j] := ys[index];
    }
    xsKept, ysKept := result1[..], result2[..];
  }

  // ---------------------------------------------------------------------------
  // Properties of the entry point

  /** The error cases: a negative tolerance is reported first, then unequal lengths;
      every other call succeeds. */
  lemma ErrorsAreChecked(xs: seq<real>, ys: seq<real>, epsilon: real)
    ensures Simplification(xs, ys, epsilon).ValueError? <==> epsilon < 0.0 || |xs| != |ys|
    ensures epsilon < 0.0 ==> Simplification(xs, ys, epsilon) == ValueError(NegativeEpsilon)
    ensures 0.0 <= epsilon && |xs| != |ys| ==>
              Simplification(xs, ys, epsilon) == ValueError(LengthMismatch)
  {
  }

  /** A successful result is a subsequence of the input that starts with its first
      point and ends with its last one; with at most two points it is the input itself. */
  lemma OutputIsSubsequence(xs: seq<real>, ys: seq<real>, epsilon: real)
    requires 0.0 <= epsilon && |xs| == |ys|
    ensures Simplification(xs, ys, epsilon).Simplified?
    ensures |xs| <= 2 ==> Simplification(xs, ys, epsilon) == Simplified(xs, ys)
    ensures |xs| > 2 ==>
              var out := Simplification(xs, ys, epsilon);
              var kept := KeptIndices(xs, ys, epsilon);
              && |out.xs| == |out.ys| == |kept| <= |xs|
              && (forall j | 0 <= j < |kept| :: out.xs[j] == xs[kept[j]] && out.ys[j] == ys[kept[j]])
              && out.xs[0] == xs[0] && out.ys[0] == ys[0]
              && out.xs[|out.xs| - 1] == xs[|xs| - 1] && out.ys[|out.ys| - 1] == ys[|ys| - 1]
  {
    if |xs| > 2 {
      var kept := KeptIndices(xs, ys, epsilon);
      IncreasingBounded(kept, |xs|);
    }
  }

  /** A strictly increasing list of indices below `n` has at most `n` entries. */
  lemma {:induction false} IncreasingBounded(s: seq<nat>, n: nat)
    requires StrictlyIncreasing(s) && forall j | 0 <= j < |s| :: s[j] < n
    ensures |s| <= n
    decreases n
  {
    if |s| > 0 {
      var init := s[..|s| - 1];
      assert forall j | 0 <= j < |init| :: init[j] < s[|s| - 1] < n;
      IncreasingBounded(init, n - 1);
    }
  }

  /** Every dropped point is within `epsilon` of the chord between the kept points
      around it. */
  lemma DroppedPointsWithinTolerance(xs: seq<real>, ys: seq<real>, epsilon: real)
    requires 0.0 <= epsilon && |xs| == |ys| >= 3
    ensures ChordsWithin(PlanarPoints(xs, ys), KeptIndices(xs, ys, epsilon), epsilon * epsilon)
  {
    AppendedWithinTolerance(PlanarPoints(xs, ys), 0, |xs| - 1, epsilon * epsilon);
  }

  /** The kept indices are the seed `0` followed by what the engine appends. */
  lemma KeptIndicesAppended(xs: seq<real>, ys: seq<real>, epsilon: real)
    requires |xs| == |ys| >= 3 && 0.0 <= epsilon
    ensures 0.0 <= epsilon * epsilon
    ensures KeptIndices(xs, ys, epsilon) == [0] + Appended(PlanarPoints(xs, ys), 0, |xs| - 1, epsilon * epsilon)
  {
  }

  /** A larger tolerance keeps a subset of the indices. */
  lemma LargerToleranceKeepsFewer(xs: seq<real>, ys: seq<real>, epsilon: real, larger: real)
    requires 0.0 <= epsilon <= larger && |xs| == |ys| >= 3
    ensures forall x | x in KeptIndices(xs, ys, larger) :: x in KeptIndices(xs, ys, epsilon)
    ensures |KeptIndices(xs, ys, larger)| <= |KeptIndices(xs, ys, epsilon)|
  {
    SquareMonotone(epsilon, larger);
    AppendedMonotone(PlanarPoints(xs, ys), 0, |xs| - 1, epsilon * epsilon, larger * larger);
    KeptIndicesAppended(xs, ys, epsilon);
    KeptIndicesAppended(xs, ys, larger);
    PrefixedSubset(KeptIndices(xs, ys, epsilon), KeptIndices(xs, ys, larger),
                   Appended(PlanarPoints(xs, ys), 0, |xs| - 1, epsilon * epsilon),
                   Appended(PlanarPoints(xs, ys), 0, |xs| - 1, larger * larger));
  }

  /** Putting the same index in front of two lists keeps one a subset of the other,
      and no longer. */
  lemma PrefixedSubset(seededFine: seq<nat>, seededCoarse: seq<nat>, fine: seq<nat>, coarse: seq<nat>)
    requires seededFine == [0] + fine && seededCoarse == [0] + coarse
    requires forall y | y in coarse :: y in fine
    requires |coarse| <= |fine|
    ensures forall y | y in seededCoarse :: y in seededFine
    ensures |seededCoarse| <= |seededFine|
  {
  }

  /** Point `i` is the point of parameter `t` on the line through the first and the
      last input point. */
  predicate AtParameter(xs: seq<real>, ys: seq<real>, i: nat, t: real)
    requires |xs| == |ys| && i < |xs|
  {
    xs[i] == xs[0] + (xs[|xs| - 1] - xs[0]) * t && ys[i] == ys[0] + (ys[|ys| - 1] - ys[0]) * t
  }

  /** Point `i` lies on the line through the first and the last input point. */
  ghost predicate OnEndToEndLine(xs: seq<real>, ys: seq<real>, i: nat)
    requires |xs| == |ys| && i < |xs|
  {
    exists t :: AtParameter(xs, ys, i, t)
  }

  /** Points that all lie on the line through the first and the last one, which are
      apart, simplify to those two points. */
  lemma CollinearInputKeepsEnds(xs: seq<real>, ys: seq<real>, epsilon: real)
    requires 0.0 <= epsilon && |xs| == |ys| >= 3
    requires (xs[|xs| - 1] - xs[0]) * (xs[|xs| - 1] - xs[0]) + (ys[|ys| - 1] - ys[0]) * (ys[|ys| - 1] - ys[0])
             >= Geometry.DegenerateThreshold
    requires forall i | 0 < i < |xs| - 1 :: OnEndToEndLine(xs, ys, i)
    ensures KeptIndices(xs, ys, epsilon) == [0, |xs| - 1]
  {
    var points := PlanarPoints(xs, ys);
    var n := |xs|;
    var ab := points[n - 1].Sub(points[0]);
    Dot2(ab, ab);
    var last := n - 1;
    forall i | 0 < i < last ensures OnChord(points, 0, last, i) {
      assert OnEndToEndLine(xs, ys, i);
      var t :| AtParameter(xs, ys, i, t);
      var q := OnLine(points[0], points[last], t);
      assert xs[last] == xs[|xs| - 1] && ys[last] == ys[|ys| - 1];
      assert points[last].data == [xs[last], ys[last]] && points[0].data == [xs[0], ys[0]];
      OnLineOffset(points[0], points[last], t, 0);
      OnLineOffset(points[0], points[last], t, 1);
      assert q.data[0] == xs[i] && q.data[1] == ys[i];
      assert q.data == [xs[i], ys[i]];
      assert points[i] == q;
    }
    SquareNonNegative(epsilon);
    CollinearKeepsEndpoints(points, 0, last, epsilon * epsilon);
  }

  /** The squared distance between two of the planar points, written out. */
  lemma PlanarSquaredDistance(xs: seq<real>, ys: seq<real>, i: nat, s: nat)
    requires |xs| == |ys| && i < |xs| && s < |xs|
    ensures PlanarPoints(xs, ys)[i].Sub(PlanarPoints(xs, ys)[s]).LengthSquared()
         == (xs[i] - xs[s]) * (xs[i] - xs[s]) + (ys[i] - ys[s]) * (ys[i] - ys[s])
  {
    var d := PlanarPoints(xs, ys)[i].Sub(PlanarPoints(xs, ys)[s]);
    assert d.data[0] == xs[i] - xs[s] && d.data[1] == ys[i] - ys[s];
    Dot2(d, d);
  }

  /** When every interior point is within `epsilon` of the first point, only the first
      and the last point are kept. */
  lemma LargeToleranceKeepsEnds(xs: seq<real>, ys: seq<real>, epsilon: real)
    requires 0.0 <= epsilon && |xs| == |ys| >= 3
    requires forall i | 0 < i < |xs| - 1 ::
               (xs[i] - xs[0]) * (xs[i] - xs[0]) + (ys[i] - ys[0]) * (ys[i] - ys[0]) <= epsilon * epsilon
    ensures KeptIndices(xs, ys, epsilon) == [0, |xs| - 1]
    ensures Simplification(xs, ys, epsilon) == Simplified([xs[0], xs[|xs| - 1]], [ys[0], ys[|ys| - 1]])
  {
    EndsWithinTolerance(xs, ys, epsilon);
    EndsOnlyOutcome(xs, ys, epsilon);
  }

  lemma EndsWithinTolerance(xs: seq<real>, ys: seq<real>, epsilon: real)
    requires 0.0 <= epsilon && |xs| == |ys| >= 3
    requires forall i | 0 < i < |xs| - 1 ::
               (xs[i] - xs[0]) * (xs[i] - xs[0]) + (ys[i] - ys[0]) * (ys[i] - ys[0]) <= epsilon * epsilon
    ensures KeptIndices(xs, ys, epsilon) == [0, |xs| - 1]
  {
    SquareNonNegative(epsilon);
    NearFirstAppendsEnd(xs, ys, epsilon * epsilon);
    KeptIndicesAppended(xs, ys, epsilon);
  }

  lemma NearFirstAppendsEnd(xs: seq<real>, ys: seq<real>, epsilonSquared: real)
    requires |xs| == |ys| >= 3 && 0.0 <= epsilonSquared
    requires forall i | 0 < i < |xs| - 1 ::
               (xs[i] - xs[0]) * (xs[i] - xs[0]) + (ys[i] - ys[0]) * (ys[i] - ys[0]) <= epsilonSquared
    ensures Appended(PlanarPoints(xs, ys), 0, |xs| - 1, epsilonSquared) == [|xs| - 1]
  {
    InteriorNearFirst(xs, ys, epsilonSquared);
    LargeToleranceKeepsEnd(PlanarPoints(xs, ys), 0, |xs| - 1, epsilonSquared);
  }

  lemma InteriorNearFirst(xs: seq<real>, ys: seq<real>, epsilonSquared: real)
    requires |xs| == |ys| >= 3
    requires forall i | 0 < i < |xs| - 1 ::
               (xs[i] - xs[0]) * (xs[i] - xs[0]) + (ys[i] - ys[0]) * (ys[i] - ys[0]) <= epsilonSquared
    ensures forall i | 0 < i < |xs| - 1 ::
              PlanarPoints(xs, ys)[i].Sub(PlanarPoints(xs, ys)[0]).LengthSquared() <= epsilonSquared
  {
    forall i | 0 < i < |xs| - 1
      ensures PlanarPoints(xs, ys)[i].Sub(PlanarPoints(xs, ys)[0]).LengthSquared() <= epsilonSquared
    {
      PlanarSquaredDistance(xs, ys, i, 0);
    }
  }

  lemma EndsOnlyOutcome(xs: seq<real>, ys: seq<real>, epsilon: real)
    requires 0.0 <= epsilon && |xs| == |ys| >= 3 && KeptIndices(xs, ys, epsilon) == [0, |xs| - 1]
    ensures Simplification(xs, ys, epsilon) == Simplified([xs[0], xs[|xs| - 1]], [ys[0], ys[|ys| - 1]])
  {
    assert Gather(xs, [0, |xs| - 1]) == [xs[0], xs[|xs| - 1]];
    assert Gather(ys, [0, |xs| - 1]) == [ys[0], ys[|ys| - 1]];
  }

  /** Simplifying a simplified polyline again with the same tolerance changes nothing. */
  lemma SimplificationIdempotent(xs: seq<real>, ys: seq<real>, epsilon: real)
    requires 0.0 <= epsilon && |xs| == |ys|
    ensures Simplification(xs, ys, epsilon).Simplified?
    ensures Simplification(Simplification(xs, ys, epsilon).xs, Simplification(xs, ys, epsilon).ys, epsilon)
         == Simplification(xs, ys, epsilon)
  {
    if |xs| > 2 && |KeptIndices(xs, ys, epsilon)| > 2 {
      KeptIndicesRun(xs, ys, epsilon, |xs| - 1, epsilon * epsilon);
      GatherPlanarPoints(xs, ys, KeptIndices(xs, ys, epsilon));
      KeptAgain(PlanarPoints(xs, ys), KeptIndices(xs, ys, epsilon), |xs| - 1, epsilon * epsilon);
      KeptEvery(Gather(xs, KeptIndices(xs, ys, epsilon)), Gather(ys, KeptIndices(xs, ys, epsilon)),
                Subsample(PlanarPoints(xs, ys), KeptIndices(xs, ys, epsilon)), |KeptIndices(xs, ys, epsilon)| - 1, epsilon);
      var kept := KeptIndices(xs, ys, epsilon);
      SeedThenBetween(|kept| - 1);
      GatherEveryIndex(Gather(xs, kept), [0] + Between(0, |kept| - 1));
      GatherEveryIndex(Gather(ys, kept), [0] + Between(0, |kept| - 1));
    }
  }

  /** `[0] + Between(0, last)` lists the positions `0 .. last`. */
  lemma SeedThenBetween(last: nat)
    ensures |[0] + Between(0, last)| == last + 1
    ensures forall j | 0 <= j < last + 1 :: ([0] + Between(0, last))[j] == j
  {
  }

  /** After the seed `0`, the kept indices are exactly what the engine appends for the
      range `[0, end]` with the squared tolerance `epsilonSquared`. */
  lemma KeptIndicesRun(xs: seq<real>, ys: seq<real>, epsilon: real, end: nat, epsilonSquared: real)
    requires 0.0 <= epsilon && |xs| == |ys| >= 3 && end == |xs| - 1 && epsilonSquared == epsilon * epsilon
    ensures 0.0 <= epsilonSquared
    ensures |KeptIndices(xs, ys, epsilon)| - 1 == |Appended(PlanarPoints(xs, ys), 0, end, epsilonSquared)|
    ensures forall j | 0 <= j < |KeptIndices(xs, ys, epsilon)| - 1 ::
              KeptIndices(xs, ys, epsilon)[0 + 1 + j] == Appended(PlanarPoints(xs, ys), 0, end, epsilonSquared)[j]
  {
    KeptIndicesAppended(xs, ys, epsilon);
    SeededRun(KeptIndices(xs, ys, epsilon), Appended(PlanarPoints(xs, ys), 0, end, epsilonSquared));
  }

  /** When the engine appends every later position of the planar points, every index
      is kept. */
  lemma KeptEvery(xs: seq<real>, ys: seq<real>, q: seq<Point>, last: nat, epsilon: real)
    requires 0.0 <= epsilon && |xs| == |ys| >= 3 && last == |xs| - 1
    requires PlanarPoints(xs, ys) == q && Supported(q) && |q| == |xs|
    requires 0.0 <= epsilon * epsilon && Appended(q, 0, last, epsilon * epsilon) == Between(0, last)
    ensures KeptIndices(xs, ys, epsilon) == [0] + Between(0, last)
  {
    KeptIndicesAppended(xs, ys, epsilon);
  }

  /** The planar points of the gathered coordinates are the planar points at the
      gathered indices. */
  lemma GatherPlanarPoints(xs: seq<real>, ys: seq<real>, kept: seq<nat>)
    requires |xs| == |ys| && forall j | 0 <= j < |kept| :: kept[j] < |xs|
    ensures PlanarPoints(Gather(xs, kept), Gather(ys, kept)) == Subsample(PlanarPoints(xs, ys), kept)
  {
  }

  // ---------------------------------------------------------------------------
  // The four-point example (0, 2), (1, 1), (3, 0), (5, 1)

  predicate IsExample(xs: seq<real>, ys: seq<real>) {
    xs == [0.0, 1.0, 3.0, 5.0] && ys == [2.0, 1.0, 0.0, 1.0]
  }

  /** The chord distances of the example polyline. */
  lemma ExampleDistances(xs: seq<real>, ys: seq<real>)
    requires IsExample(xs, ys)
    ensures |xs| == |ys| == 4
    ensures var p := PlanarPoints(xs, ys);
            && ScanDistance(p, 0, 3, 1, FromChord) == 16.0 / 26.0
            && ScanDistance(p, 0, 3, 2, FromChord) == 49.0 / 26.0
            && ScanDistance(p, 0, 2, 1, FromChord) == 1.0 / 13.0
  {
    PlanarChordDistance(xs, ys, 1, 0, 3, 4.0, 26.0);
    PlanarChordDistance(xs, ys, 2, 0, 3, 7.0, 26.0);
    PlanarChordDistance(xs, ys, 1, 0, 2, 1.0, 13.0);
  }

  /** The chord distance of the planar point `i` for the chord from `s` to `e`, when that
      chord's squared length `l` is at least 1 and the cross term is `n`. */
  lemma PlanarChordDistance(xs: seq<real>, ys: seq<real>, i: nat, s: nat, e: nat, n: real, l: real)
    requires |xs| == |ys| && s < e < |xs| && i < |xs|
    requires (xs[e] - xs[s]) * (xs[e] - xs[s]) + (ys[e] - ys[s]) * (ys[e] - ys[s]) == l && l >= 1.0
    requires (ys[e] - ys[s]) * (xs[i] - xs[s]) - (xs[e] - xs[s]) * (ys[i] - ys[s]) == n
    ensures ScanDistance(PlanarPoints(xs, ys), s, e, i, FromChord) == (n * n) / l
  {
    var p := PlanarPoints(xs, ys);
    PlanarMatchesGeometry(p[i], p[s], p[e]);
    assert To2D(p[i]) == Geometry.Point2D(xs[i], ys[i]);
    assert To2D(p[s]) == Geometry.Point2D(xs[s], ys[s]);
    assert To2D(p[e]) == Geometry.Point2D(xs[e], ys[e]);
    ChordDistance2D(xs[i], ys[i], xs[s], ys[s], xs[e], ys[e], n, l);
  }

  /** The planar distance for a chord of squared length `l` at least 1 whose cross
      term is `n`. */
  lemma ChordDistance2D(px: real, py: real, ax: real, ay: real, ex: real, ey: real, n: real, l: real)
    requires (ex - ax) * (ex - ax) + (ey - ay) * (ey - ay) == l && l >= 1.0
    requires (ey - ay) * (px - ax) - (ex - ax) * (py - ay) == n
    ensures Geometry.PointToLineDistanceSquared2D(
              Geometry.Point2D(px, py), Geometry.Point2D(ax, ay), Geometry.Point2D(ex, ey)) == (n * n) / l
  {
    var ab := Geometry.Point2D(ex, ey).Sub(Geometry.Point2D(ax, ay));
    assert ab.LengthSquared() == l;
  }

  /** With tolerance 0.5 the example keeps indices 0, 2 and 3; with 0.1 it keeps all four. */
  lemma ExampleKeptIndices(xs: seq<real>, ys: seq<real>)
    requires IsExample(xs, ys)
    ensures |xs| == |ys| == 4
    ensures KeptIndices(xs, ys, 0.5) == [0, 2, 3]
    ensures KeptIndices(xs, ys, 0.1) == [0, 1, 2, 3]
  {
    var p := PlanarPoints(xs, ys);
    ExampleDistances(xs, ys);
    assert ScanUpTo(p, 0, 3, 2, FromChord) == Candidate(16.0 / 26.0, 1);
    assert Furthest(p, 0, 3) == Candidate(49.0 / 26.0, 2);
    assert Furthest(p, 0, 2) == Candidate(1.0 / 13.0, 1);
    assert Furthest(p, 2, 3) == Candidate(0.0, 2);
    assert Furthest(p, 0, 1) == Candidate(0.0, 0);
    assert Furthest(p, 1, 2) == Candidate(0.0, 1);
    assert Appended(p, 0, 3, 0.25) == [2, 3];
    assert Appended(p, 0, 2, 0.01) == [1, 2];
    assert Appended(p, 0, 3, 0.01) == [1, 2, 3];
  }

  /** The example through the entry point: the kept coordinates for tolerance 0.5, and
      the unchanged input for tolerance 0.1. */
  lemma ExampleOutcome(xs: seq<real>, ys: seq<real>)
    requires IsExample(xs, ys)
    ensures Simplification(xs, ys, 0.5) == Simplified([0.0, 3.0, 5.0], [2.0, 0.0, 1.0])
    ensures Simplification(xs, ys, 0.1) == Simplified(xs, ys)
  {
    ExampleKeptIndices(xs, ys);
    CoarseOutcome(xs, ys);
    FineOutcome(xs, ys);
  }

  lemma CoarseOutcome(xs: seq<real>, ys: seq<real>)
    requires IsExample(xs, ys) && KeptIndices(xs, ys, 0.5) == [0, 2, 3]
    ensures Simplification(xs, ys, 0.5) == Simplified([0.0, 3.0, 5.0], [2.0, 0.0, 1.0])
  {
    var kept := KeptIndices(xs, ys, 0.5);
    assert Gather(xs, kept) == [0.0, 3.0, 5.0];
    assert Gather(ys, kept) == [2.0, 0.0, 1.0];
  }

  lemma FineOutcome(xs: seq<real>, ys: seq<real>)
    requires IsExample(xs, ys) && KeptIndices(xs, ys, 0.1) == [0, 1, 2, 3]
    ensures Simplification(xs, ys, 0.1) == Simplified(xs, ys)
  {
    var kept := KeptIndices(xs, ys, 0.1);
    assert forall j | 0 <= j < |kept| :: kept[j] == j;
    GatherEveryIndex(xs, kept);
    GatherEveryIndex(ys, kept);
  }
}
