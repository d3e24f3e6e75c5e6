/** The two furthest-point scans of the simplifier. Each walks the open index range
    (start, end) once, keeping a running maximum that only a strictly larger distance
    replaces; `ScanUpTo` is that running maximum after a prefix of the range, and
    `FirstFurthest` says what it is without reference to the loop. */
module Scan {
  import opened Vectors
  import opened Distance
  import Geometry

  /** A polyline the engine accepts: every point has the same dimension, 2 or 3. */
  predicate Supported(points: seq<Point>) {
    |points| == 0 ||
    ((points[0].Dim() == 2 || points[0].Dim() == 3) &&
     forall i | 0 <= i < |points| :: points[i].Dim() == points[0].Dim())
  }

  /** What a scan returns: the largest squared distance seen and where it was seen. */
  datatype Candidate = Candidate(distanceSquared: real, index: nat)

  /** The two distances a scan can measure: to the start point, or to the chord. */
  datatype Metric = FromStart | FromChord

  /** The distance of point `i` under `metric`, for the chord from `start` to `end`. */
  function ScanDistance(points: seq<Point>, start: nat, end: nat, i: nat, metric: Metric): real
    requires Supported(points) && start < end < |points| && i < |points|
  {
    match metric
    case FromStart => points[i].Sub(points[start]).LengthSquared()
    case FromChord => PointToLineDistanceSquared(points[i], points[start], points[end])
  }

  /** The running maximum after the loop has visited `start + 1 .. k - 1`. */
  function ScanUpTo(points: seq<Point>, start: nat, end: nat, k: nat, metric: Metric): (c: Candidate)
    requires Supported(points) && start < end < |points| && start < k <= end
    ensures c.index == start || start < c.index < k
    ensures 0.0 <= c.distanceSquared
    decreases k
  {
    if k == start + 1 then
      Candidate(0.0, start)
    else
      var c := ScanUpTo(points, start, end, k - 1, metric);
      var d := ScanDistance(points, start, end, k - 1, metric);
      if d > c.distanceSquared then Candidate(d, k - 1) else c
  }

  /** `c` is the first furthest point among `start + 1 .. k - 1`, or `(0, start)` when
      none of them is at a positive distance. */
  predicate FirstFurthest(points: seq<Point>, start: nat, end: nat, k: nat, metric: Metric, c: Candidate)
    requires Supported(points) && start < end < |points| && start < k <= end
  {
    && (c.index == start || start < c.index < k)
    && 0.0 <= c.distanceSquared
    && (forall i | start < i < k :: ScanDistance(points, start, end, i, metric) <= c.distanceSquared)
    && (c.index == start ==> c.distanceSquared == 0.0)
    && (c.index != start ==>
          0.0 < c.distanceSquared == ScanDistance(points, start, end, c.index, metric))
    && (forall i | start < i < c.index :: ScanDistance(points, start, end, i, metric) < c.distanceSquared)
  }

  /** The running maximum is the first furthest point of the prefix scanned so far. */
  lemma {:induction false} ScanUpToIsFirstFurthest(points: seq<Point>, start: nat, end: nat, k: nat,
                                                   metric: Metric)
    requires Supported(points) && start < end < |points| && start < k <= end
    ensures FirstFurthest(points, start, end, k, metric, ScanUpTo(points, start, end, k, metric))
    decreases k
  {
    if k > start + 1 {
      ScanUpToIsFirstFurthest(points, start, end, k - 1, metric);
    }
  }

  /** The characterisation pins the candidate down: at most one satisfies it. */
  lemma FirstFurthestUnique(points: seq<Point>, start: nat, end: nat, k: nat, metric: Metric,
                            c: Candidate, c': Candidate)
    requires Supported(points) && start < end < |points| && start < k <= end
    requires FirstFurthest(points, start, end, k, metric, c)
    requires FirstFurthest(points, start, end, k, metric, c')
    ensures c == c'
  {
  }

  /** Two scans whose distances agree at every visited index keep the same maximum. */
  lemma {:induction false} ScansAgree(points: seq<Point>, points': seq<Point>, start: nat, end: nat,
                                      k: nat, metric: Metric, metric': Metric)
    requires Supported(points) && start < end < |points|
    requires Supported(points') && end < |points'|
    requires start < k <= end
    requires forall i | start < i < end ::
               ScanDistance(points, start, end, i, metric) == ScanDistance(points', start, end, i, metric')
    ensures ScanUpTo(points, start, end, k, metric) == ScanUpTo(points', start, end, k, metric')
    decreases k
  {
    if k > start + 1 {
      ScansAgree(points, points', start, end, k - 1, metric, metric');
    }
  }

  /** On a chord shorter than the threshold the chord distance is the distance to the
      start point, so the two scans return the same candidate. */
  lemma DegenerateScansAgree(points: seq<Point>, start: nat, end: nat)
    requires Supported(points) && start < end < |points|
    requires points[end].Sub(points[start]).LengthSquared() < Geometry.DegenerateThreshold
    ensures ScanUpTo(points, start, end, end, FromStart) == ScanUpTo(points, start, end, end, FromChord)
  {
    ScansAgree(points, points, start, end, end, FromStart, FromChord);
  }

  /** The point a simplification step splits at: the first point furthest from the chord. */
  function Furthest(points: seq<Point>, start: nat, end: nat): (c: Candidate)
    requires Supported(points) && start < end < |points|
    ensures FirstFurthest(points, start, end, end, FromChord, c)
  {
    ScanUpToIsFirstFurthest(points, start, end, end, FromChord);
    ScanUpTo(points, start, end, end, FromChord)
  }

  /** A furthest point at a positive distance lies strictly inside the range. */
  lemma FurthestInside(points: seq<Point>, start: nat, end: nat, bound: real)
    requires Supported(points) && start < end < |points|
    requires 0.0 <= bound < Furthest(points, start, end).distanceSquared
    ensures start < Furthest(points, start, end).index < end
  {
  }

  /** The condition under which the chord scan hands over to the start-point scan also
      meets the start-point scan's own precondition, which subtracts the other way round. */
  lemma HandOverPrecondition(points: seq<Point>, start: nat, end: nat)
    requires Supported(points) && start < end < |points|
    ensures points[end].Sub(points[start]).LengthSquared() == 0.0 <==>
            points[start].Sub(points[end]).LengthSquared() == 0.0
  {
    SubLengthSquaredSymmetric(points[end], points[start]);
  }

  /** The scan for a closed polyline, whose start and end points coincide: the first
      point furthest from the start point. */
  method FindMostDistantPoint(points: seq<Point>, start: nat, end: nat) returns (r: Candidate)
    requires Supported(points) && start < end < |points|
    requires points[start].Sub(points[end]).LengthSquared() == 0.0
    ensures r == ScanUpTo(points, start, end, end, FromStart)
    ensures FirstFurthest(points, start, end, end, FromStart, r)
  {
    var maxDistanceSquared := 0.0;
    var maxDistanceIndex: nat := start;
    var i: nat := start + 1;
    while i != end
      invariant start < i <= end
      invariant Candidate(maxDistanceSquared, maxDistanceIndex) == ScanUpTo(points, start, end, i, FromStart)
      decreases end - i
    {
      var distanceSquared := points[i].Sub(points[start]).LengthSquared();
      if distanceSquared > maxDistanceSquared {
        maxDistanceIndex := i;
        maxDistanceSquared := distanceSquared;
      }
      i := i + 1;
    }
    r := Candidate(maxDistanceSquared, maxDistanceIndex);
    ScanUpToIsFirstFurthest(points, start, end, end, FromStart);
  }

  /** The first point furthest from the chord from `start` to `end`; a chord of length
      exactly 0 is handed over to the start-point scan. */
  method FindMostDistantPointFromLine(points: seq<Point>, start: nat, end: nat) returns (r: Candidate)
    requires Supported(points) && start < end < |points|
    ensures r == Furthest(points, start, end)
    ensures FirstFurthest(points, start, end, end, FromChord, r)
  {
    var lineDiff := points[end].Sub(points[start]);
    var lineLengthSquared := lineDiff.LengthSquared();
    if lineLengthSquared == 0.0 {
      HandOverPrecondition(points, start, end);
      r := FindMostDistantPoint(points, start, end);
      DegenerateScansAgree(points, start, end);
      return;
    }
    var maxDistanceSquared := 0.0;
    var maxDistanceIndex: nat := start;
    var i: nat := start + 1;
    while i != end
      invariant start < i <= end
      invariant Candidate(maxDistanceSquared, maxDistanceIndex) == ScanUpTo(points, start, end, i, FromChord)
      decreases end - i
    {
      var distanceSquared := PointToLineDistanceSquared(points[i], points[start], points[end]);
      if distanceSquared > maxDistanceSquared {
        maxDistanceIndex := i;
        maxDistanceSquared := distanceSquared;
      }
      i := i + 1;
    }
    r := Candidate(maxDistanceSquared, maxDistanceIndex);
  }
}
