/** The recursive engine: split the polyline at the point furthest from the chord
    while that point is farther than the tolerance, otherwise keep only the chord's
    end index. The shared output list `indicesToKeep` is modelled as a value that
    goes in and comes back with the new indices appended. */
module Simplify {
  import opened Vectors
  import opened Distance
  import opened Scan
  import Geometry

  /** Every index is smaller than every later one. */
  predicate StrictlyIncreasing(s: seq<nat>) {
    forall i, j | 0 <= i < j < |s| :: s[i] < s[j]
  }

  /** The indices one call of the engine on `[start, end]` appends, in order. */
  function Appended(points: seq<Point>, start: nat, end: nat, epsilonSquared: real): (r: seq<nat>)
    requires Supported(points) && start < end < |points| && 0.0 <= epsilonSquared
    ensures |r| >= 1 && r[|r| - 1] == end
    ensures forall j | 0 <= j < |r| :: start < r[j] <= end
    ensures StrictlyIncreasing(r)
    decreases end - start
  {
    var c := Furthest(points, start, end);
    if c.distanceSquared > epsilonSquared then
      FurthestInside(points, start, end, epsilonSquared);
      ConcatRanges(Appended(points, start, c.index, epsilonSquared), Appended(points, c.index, end, epsilonSquared),
                   start, c.index, end);
      Appended(points, start, c.index, epsilonSquared) + Appended(points, c.index, end, epsilonSquared)
    else
      [end]
  }

  /** Two increasing runs, one in `(start, mid]` ending at `mid` and one in `(mid, end]`
      ending at `end`, make one increasing run in `(start, end]` ending at `end`. */
  lemma ConcatRanges(left: seq<nat>, right: seq<nat>, start: nat, mid: nat, end: nat)
    requires |left| >= 1 && left[|left| - 1] == mid && StrictlyIncreasing(left)
    requires forall j | 0 <= j < |left| :: start < left[j] <= mid
    requires |right| >= 1 && right[|right| - 1] == end && StrictlyIncreasing(right)
    requires forall j | 0 <= j < |right| :: mid < right[j] <= end
    ensures |left + right| >= 1 && (left + right)[|left + right| - 1] == end
    ensures forall j | 0 <= j < |left + right| :: start < (left + right)[j] <= end
    ensures StrictlyIncreasing(left + right)
  {
    var r := left + right;
    forall i, j | 0 <= i < j < |r| ensures r[i] < r[j] {
      if j < |left| {
      } else if i >= |left| {
        assert r[i] == right[i - |left|] && r[j] == right[j - |left|];
      } else {
        assert r[j] == right[j - |left|];
      }
    }
  }

  /** Consecutive kept indices `k < k'`: every point strictly between them is within
      squared distance `epsilonSquared` of the chord from `points[k]` to `points[k']`. */
  predicate ChordsWithin(points: seq<Point>, kept: seq<nat>, epsilonSquared: real)
    requires Supported(points)
  {
    forall j, i | 0 <= j < |kept| - 1 && kept[j] < i < kept[j + 1] < |points| ::
      PointToLineDistanceSquared(points[i], points[kept[j]], points[kept[j + 1]]) <= epsilonSquared
  }

  /** The engine on `[start, end]` appends `Appended(points, start, end, epsilonSquared)`
      to `indicesToKeep` and leaves what was there untouched. */
  method RamerDouglasPeucker(points: seq<Point>, start: nat, end: nat, epsilonSquared: real,
                             indicesToKeep: seq<nat>) returns (kept: seq<nat>)
    requires Supported(points) && start < end < |points|
    requires 0.0 <= epsilonSquared
    requires |indicesToKeep| >= 1 && indicesToKeep[0] == 0
    ensures kept == indicesToKeep + Appended(points, start, end, epsilonSquared)
    ensures |kept| > |indicesToKeep| && kept[|kept| - 1] == end
    ensures forall j | 0 <= j < |indicesToKeep| :: kept[j] == indicesToKeep[j]
    decreases end - start
  {
    var c := FindMostDistantPointFromLine(points, start, end);
    if c.distanceSquared > epsilonSquared {
      kept := RamerDouglasPeucker(points, start, c.index, epsilonSquared, indicesToKeep);
      kept := RamerDouglasPeucker(points, c.index, end, epsilonSquared, kept);
      ConcatAssociative(indicesToKeep, Appended(points, start, c.index, epsilonSquared),
                        Appended(points, c.index, end, epsilonSquared));
    } else {
      kept := indicesToKeep + [end];
    }
    ExtendsWith(indicesToKeep, Appended(points, start, end, epsilonSquared), kept);
  }

  lemma ConcatAssociative(a: seq<nat>, b: seq<nat>, c: seq<nat>)
    ensures (a + b) + c == a + (b + c)
  {
  }

  /** Appending a non-empty list keeps the prefix and ends with the list's last entry. */
  lemma ExtendsWith(prefix: seq<nat>, appended: seq<nat>, kept: seq<nat>)
    requires |appended| >= 1 && kept == prefix + appended
    ensures |kept| > |prefix| && kept[|kept| - 1] == appended[|appended| - 1]
    ensures forall j | 0 <= j < |prefix| :: kept[j] == prefix[j]
  {
  }

  // ---------------------------------------------------------------------------
  // Properties of the appended indices

  /** Every point the engine drops lies within the tolerance of the chord between the
      two kept indices around it. */
  lemma {:induction false} AppendedWithinTolerance(points: seq<Point>, start: nat, end: nat,
                                                   epsilonSquared: real)
    requires Supported(points) && start < end < |points| && 0.0 <= epsilonSquared
    ensures ChordsWithin(points, [start] + Appended(points, start, end, epsilonSquared), epsilonSquared)
    decreases end - start
  {
    var c := Furthest(points, start, end);
    var r := Appended(points, start, end, epsilonSquared);
    if c.distanceSquared > epsilonSquared {
      var left := Appended(points, start, c.index, epsilonSquared);
      var right := Appended(points, c.index, end, epsilonSquared);
      AppendedWithinTolerance(points, start, c.index, epsilonSquared);
      AppendedWithinTolerance(points, c.index, end, epsilonSquared);
      ConcatAssociative([start], left, right);
      ChordsConcat(points, [start] + left, right, epsilonSquared);
    } else {
      assert r == [end];
      SingleChordWithin(points, start, end, epsilonSquared);
    }
  }

  /** A chord whose furthest interior point is within the tolerance covers its points. */
  lemma SingleChordWithin(points: seq<Point>, start: nat, end: nat, epsilonSquared: real)
    requires Supported(points) && start < end < |points|
    requires Furthest(points, start, end).distanceSquared <= epsilonSquared
    ensures ChordsWithin(points, [start] + [end], epsilonSquared)
  {
    var c := Furthest(points, start, end);
    var kept := [start] + [end];
    assert |kept| == 2 && kept[0] == start && kept[1] == end;
    forall i | start < i < end
      ensures PointToLineDistanceSquared(points[i], points[start], points[end]) <= epsilonSquared
    {
      assert ScanDistance(points, start, end, i, FromChord) <= c.distanceSquared;
    }
  }

  /** Two runs of kept indices that share their joining index combine into one. */
  lemma ChordsConcat(points: seq<Point>, left: seq<nat>, right: seq<nat>, epsilonSquared: real)
    requires Supported(points) && |left| >= 1
    requires ChordsWithin(points, left, epsilonSquared)
    requires ChordsWithin(points, [left[|left| - 1]] + right, epsilonSquared)
    ensures ChordsWithin(points, left + right, epsilonSquared)
  {
    var kept := left + right;
    var joined := [left[|left| - 1]] + right;
    forall j, i | 0 <= j < |kept| - 1 && kept[j] < i < kept[j + 1] < |points|
      ensures PointToLineDistanceSquared(points[i], points[kept[j]], points[kept[j + 1]]) <= epsilonSquared
    {
      if j < |left| - 1 {
        assert kept[j] == left[j] && kept[j + 1] == left[j + 1];
      } else {
        var k := j - (|left| - 1);
        assert kept[j] == joined[k] && kept[j + 1] == joined[k + 1];
      }
    }
  }

  /** The engine appends only the end index exactly when every interior point is
      within the tolerance of the chord. */
  lemma EndOnlyIffWithin(points: seq<Point>, start: nat, end: nat, epsilonSquared: real)
    requires Supported(points) && start < end < |points| && 0.0 <= epsilonSquared
    ensures Appended(points, start, end, epsilonSquared) == [end] <==>
            forall i | start < i < end ::
              PointToLineDistanceSquared(points[i], points[start], points[end]) <= epsilonSquared
  {
    var c := Furthest(points, start, end);
    if c.distanceSquared > epsilonSquared {
      var left := Appended(points, start, c.index, epsilonSquared);
      assert Appended(points, start, end, epsilonSquared)[0] == left[0] < end;
      assert ScanDistance(points, start, end, c.index, FromChord) > epsilonSquared;
    } else {
      forall i | start < i < end
        ensures PointToLineDistanceSquared(points[i], points[start], points[end]) <= epsilonSquared
      {
        assert ScanDistance(points, start, end, i, FromChord) <= c.distanceSquared;
      }
    }
  }

  /** Point `i` lies on the line through `points[start]` and `points[end]`. */
  ghost predicate OnChord(points: seq<Point>, start: nat, end: nat, i: nat)
    requires Supported(points) && start < end < |points| && i < |points|
  {
    exists t :: points[i] == OnLine(points[start], points[end], t)
  }

  /** When every interior point lies on a non-degenerate chord, only the end index is
      appended, whatever the tolerance. */
  lemma CollinearKeepsEndpoints(points: seq<Point>, start: nat, end: nat, epsilonSquared: real)
    requires Supported(points) && start < end < |points| && 0.0 <= epsilonSquared
    requires points[end].Sub(points[start]).LengthSquared() >= Geometry.DegenerateThreshold
    requires forall i | start < i < end :: OnChord(points, start, end, i)
    ensures Appended(points, start, end, epsilonSquared) == [end]
  {
    forall i | start < i < end
      ensures PointToLineDistanceSquared(points[i], points[start], points[end]) <= epsilonSquared
    {
      OnChordAtDistanceZero(points, start, end, i);
    }
    EndOnlyIffWithin(points, start, end, epsilonSquared);
  }

  lemma OnChordAtDistanceZero(points: seq<Point>, start: nat, end: nat, i: nat)
    requires Supported(points) && start < end < |points| && i < |points|
    requires points[end].Sub(points[start]).LengthSquared() >= Geometry.DegenerateThreshold
    requires OnChord(points, start, end, i)
    ensures PointToLineDistanceSquared(points[i], points[start], points[end]) == 0.0
  {
    var t :| points[i] == OnLine(points[start], points[end], t);
    DistanceZeroOnLine(points[start], points[end], t);
  }

  /** A larger tolerance keeps a subset of the indices, and no more of them. */
  lemma {:induction false} AppendedMonotone(points: seq<Point>, start: nat, end: nat,
                                            epsilonSquared: real, largerSquared: real)
    requires Supported(points) && start < end < |points|
    requires 0.0 <= epsilonSquared <= largerSquared
    ensures forall x | x in Appended(points, start, end, largerSquared) ::
              x in Appended(points, start, end, epsilonSquared)
    ensures |Appended(points, start, end, largerSquared)| <= |Appended(points, start, end, epsilonSquared)|
    decreases end - start
  {
    var c := Furthest(points, start, end);
    if c.distanceSquared > largerSquared {
      AppendedMonotone(points, start, c.index, epsilonSquared, largerSquared);
      AppendedMonotone(points, c.index, end, epsilonSquared, largerSquared);
    } else {
      var r := Appended(points, start, end, epsilonSquared);
      assert r[|r| - 1] in r;
    }
  }

  // ---------------------------------------------------------------------------
  // Planar input and the same input in space

  /** All points are planar. */
  predicate Planar(points: seq<Point>) {
    forall i | 0 <= i < |points| :: points[i].Dim() == 2
  }

  /** Each planar point placed in space at z = 0. */
  function LiftAll(points: seq<Point>): (r: seq<Point>)
    requires Planar(points)
    ensures |r| == |points| && Supported(r)
    ensures forall i | 0 <= i < |r| :: r[i] == Lift(points[i])
  {
    seq(|points|, i requires 0 <= i < |points| => Lift(points[i]))
  }

  /** A planar polyline and the same polyline at z = 0 in space keep the same indices. */
  lemma {:induction false} LiftedAppended(points: seq<Point>, start: nat, end: nat, epsilonSquared: real)
    requires Planar(points) && start < end < |points| && 0.0 <= epsilonSquared
    ensures Supported(points)
    ensures Appended(LiftAll(points), start, end, epsilonSquared) == Appended(points, start, end, epsilonSquared)
    decreases end - start
  {
    var lifted := LiftAll(points);
    forall i | start < i < end
      ensures ScanDistance(points, start, end, i, FromChord) == ScanDistance(lifted, start, end, i, FromChord)
    {
      PlanarMatchesLifted(points[i], points[start], points[end]);
    }
    ScansAgree(points, lifted, start, end, end, FromChord, FromChord);
    var c := Furthest(points, start, end);
    if c.distanceSquared > epsilonSquared {
      LiftedAppended(points, start, c.index, epsilonSquared);
      LiftedAppended(points, c.index, end, epsilonSquared);
    }
  }

  // ---------------------------------------------------------------------------
  // A large tolerance, and simplifying a simplified polyline again

  /** When no interior point is farther than the tolerance from the start point, only
      the end index is appended. */
  lemma LargeToleranceKeepsEnd(points: seq<Point>, start: nat, end: nat, epsilonSquared: real)
    requires Supported(points) && start < end < |points| && 0.0 <= epsilonSquared
    requires forall i | start < i < end :: points[i].Sub(points[start]).LengthSquared() <= epsilonSquared
    ensures Appended(points, start, end, epsilonSquared) == [end]
  {
    forall i | start < i < end
      ensures PointToLineDistanceSquared(points[i], points[start], points[end]) <= epsilonSquared
    {
      DistanceBounds(points[i], points[start], points[end]);
    }
    EndOnlyIffWithin(points, start, end, epsilonSquared);
  }

  /** The points at the given indices, in the order of the indices. */
  function Subsample(points: seq<Point>, indices: seq<nat>): (r: seq<Point>)
    requires forall j | 0 <= j < |indices| :: indices[j] < |points|
    ensures |r| == |indices| && forall j | 0 <= j < |r| :: r[j] == points[indices[j]]
    ensures Supported(points) ==> Supported(r)
  {
    seq(|indices|, j requires 0 <= j < |indices| => points[indices[j]])
  }

  /** The indices `lo + 1, ..., hi`. */
  function Between(lo: nat, hi: nat): (r: seq<nat>)
    requires lo <= hi
    ensures |r| == hi - lo && forall j | 0 <= j < |r| :: r[j] == lo + 1 + j
  {
    seq(hi - lo, j requires 0 <= j < hi - lo => lo + 1 + j)
  }

  lemma BetweenConcat(lo: nat, mid: nat, hi: nat)
    requires lo <= mid <= hi
    ensures Between(lo, mid) + Between(mid, hi) == Between(lo, hi)
  {
  }

  /** Simplifying the kept points again keeps all of them: if positions `a .. b` of a
      strictly increasing index list are the start index followed by what one call on
      `[start, end]` appends, the same call on the subsampled polyline appends every
      position after `a` up to `b`. The split point of a range is its first furthest
      point, and it is kept, so it is still the first furthest among the kept points;
      a range that was not split has no kept point inside. */
  lemma {:induction false} AppendedOfKept(points: seq<Point>, indices: seq<nat>, a: nat, b: nat,
                                          start: nat, end: nat, epsilonSquared: real)
    requires Supported(points) && start < end < |points| && 0.0 <= epsilonSquared
    requires StrictlyIncreasing(indices) && forall j | 0 <= j < |indices| :: indices[j] < |points|
    requires a < b < |indices| && indices[a] == start
    requires b - a == |Appended(points, start, end, epsilonSquared)|
    requires forall j | 0 <= j < b - a :: indices[a + 1 + j] == Appended(points, start, end, epsilonSquared)[j]
    ensures Appended(Subsample(points, indices), a, b, epsilonSquared) == Between(a, b)
    decreases end - start, 1
  {
    if Furthest(points, start, end).distanceSquared > epsilonSquared {
      SplitOfKept(points, indices, a, b, start, end, epsilonSquared);
    } else {
      AdjacentKeepsEnd(Subsample(points, indices), a, b, epsilonSquared);
    }
  }

  /** The split case of `AppendedOfKept`: the kept split point is the first furthest
      point of the subsampled range, and both halves keep all their positions. */
  lemma {:induction false} SplitOfKept(points: seq<Point>, indices: seq<nat>, a: nat, b: nat,
                                       start: nat, end: nat, epsilonSquared: real)
    requires Supported(points) && start < end < |points| && 0.0 <= epsilonSquared
    requires StrictlyIncreasing(indices) && forall j | 0 <= j < |indices| :: indices[j] < |points|
    requires a < b < |indices| && indices[a] == start
    requires b - a == |Appended(points, start, end, epsilonSquared)|
    requires forall j | 0 <= j < b - a :: indices[a + 1 + j] == Appended(points, start, end, epsilonSquared)[j]
    requires Furthest(points, start, end).distanceSquared > epsilonSquared
    ensures Appended(Subsample(points, indices), a, b, epsilonSquared) == Between(a, b)
    decreases end - start, 0
  {
    var c := Furthest(points, start, end);
    var left := Appended(points, start, c.index, epsilonSquared);
    var right := Appended(points, c.index, end, epsilonSquared);
    var m := a + |left|;
    SplitRun(indices, a, m, b, Appended(points, start, end, epsilonSquared), left, right);
    SplitIsFirstFurthest(points, indices, a, b, m, start, end);
    AppendedOfKept(points, indices, a, m, start, c.index, epsilonSquared);
    AppendedOfKept(points, indices, m, b, c.index, end, epsilonSquared);
    BetweenConcat(a, m, b);
  }

  /** Prefixing a strictly increasing list with a smaller entry keeps it strictly increasing. */
  lemma PrependIncreasing(x: nat, s: seq<nat>)
    requires StrictlyIncreasing(s) && forall j | 0 <= j < |s| :: x < s[j]
    ensures StrictlyIncreasing([x] + s)
  {
    var r := [x] + s;
    forall i, j | 0 <= i < j < |r| ensures r[i] < r[j] {
      assert r[j] == s[j - 1];
      if i > 0 {
        assert r[i] == s[i - 1];
      }
    }
  }

  /** The positions of an index list that starts with the seed `0`. */
  lemma SeededRun(kept: seq<nat>, appended: seq<nat>)
    requires kept == [0] + appended
    ensures kept[0] == 0 && |kept| - 1 == |appended|
    ensures forall j | 0 <= j < |kept| - 1 :: kept[0 + 1 + j] == appended[j]
  {
  }

  /** Running the engine again, from the seed `0`, on the points it kept for the range
      `[0, end]` appends every later position of them. */
  lemma KeptAgain(points: seq<Point>, kept: seq<nat>, end: nat, epsilonSquared: real)
    requires Supported(points) && 0 < end < |points| && 0.0 <= epsilonSquared
    requires StrictlyIncreasing(kept) && forall j | 0 <= j < |kept| :: kept[j] < |points|
    requires |kept| >= 2 && kept[0] == 0
    requires |kept| - 1 == |Appended(points, 0, end, epsilonSquared)|
    requires forall j | 0 <= j < |kept| - 1 :: kept[0 + 1 + j] == Appended(points, 0, end, epsilonSquared)[j]
    ensures Supported(Subsample(points, kept)) && |Subsample(points, kept)| == |kept|
    ensures Appended(Subsample(points, kept), 0, |kept| - 1, epsilonSquared) == Between(0, |kept| - 1)
  {
    AppendedOfKept(points, kept, 0, |kept| - 1, 0, end, epsilonSquared);
  }

  /** A chord between two neighbouring points has nothing to split. */
  lemma AdjacentKeepsEnd(points: seq<Point>, start: nat, end: nat, epsilonSquared: real)
    requires Supported(points) && start < end < |points| && 0.0 <= epsilonSquared
    requires end == start + 1
    ensures Appended(points, start, end, epsilonSquared) == Between(start, end)
  {
    assert Furthest(points, start, end) == Candidate(0.0, start);
  }

  /** Cutting the run after position `a` of an index list that holds `left + right`
      at position `m`, the last entry of `left`, gives the runs of the two halves. */
  lemma SplitRun(indices: seq<nat>, a: nat, m: nat, b: nat, appended: seq<nat>, left: seq<nat>, right: seq<nat>)
    requires a < b < |indices| && |left| >= 1 && |right| >= 1 && appended == left + right
    requires b - a == |appended| && forall j | 0 <= j < b - a :: indices[a + 1 + j] == appended[j]
    requires m == a + |left|
    ensures a < m < b && indices[m] == left[|left| - 1] && indices[b] == right[|right| - 1]
    ensures forall j | 0 <= j < m - a :: indices[a + 1 + j] == left[j]
    ensures forall j | 0 <= j < b - m :: indices[m + 1 + j] == right[j]
  {
    forall j | 0 <= j < m - a ensures indices[a + 1 + j] == left[j] {
      assert appended[j] == left[j];
    }
    forall j | 0 <= j < b - m ensures indices[m + 1 + j] == right[j] {
      assert indices[a + 1 + (|left| + j)] == appended[|left| + j];
    }
    assert indices[a + 1 + (|left| - 1)] == appended[|left| - 1];
    assert indices[a + 1 + (b - a - 1)] == appended[b - a - 1];
  }

  /** A kept split point at position `m` is the first furthest point of the subsampled
      range `a .. b`, with the same distance. */
  lemma SplitIsFirstFurthest(points: seq<Point>, indices: seq<nat>, a: nat, b: nat, m: nat,
                             start: nat, end: nat)
    requires Supported(points) && start < end < |points|
    requires StrictlyIncreasing(indices) && forall j | 0 <= j < |indices| :: indices[j] < |points|
    requires a < m < b < |indices| && indices[a] == start && indices[b] == end
    requires indices[m] == Furthest(points, start, end).index != start
    ensures Furthest(Subsample(points, indices), a, b)
         == Candidate(Furthest(points, start, end).distanceSquared, m)
  {
    var q := Subsample(points, indices);
    var c := Furthest(points, start, end);
    var d := Candidate(c.distanceSquared, m);
    forall i | a < i < b
      ensures ScanDistance(q, a, b, i, FromChord) == ScanDistance(points, start, end, indices[i], FromChord)
      ensures start < indices[i] < end
      ensures i < m ==> indices[i] < c.index
    {
    }
    assert FirstFurthest(q, a, b, b, FromChord, d);
    FirstFurthestUnique(q, a, b, b, FromChord, Furthest(q, a, b), d);
  }
}
