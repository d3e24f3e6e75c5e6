# fastrdp in Dafny

A model of the core of `fastrdp`, a Ramer–Douglas–Peucker polyline simplifier. Given an
ordered list of points and a tolerance `epsilon`, the simplifier decides which point
indices survive. It starts from the chord between the first and the last point. It looks
for the interior point furthest from that chord. If that point is farther than `epsilon`,
it splits there and recurses on both halves, left half first. Otherwise it keeps only the
chord's end index.

The Dafny modules follow the source files:

| module | file | models |
|---|---|---|
| `RealFacts` | `real_facts.dfy` | scalar identities of real arithmetic used by the distance proofs |
| `Geometry` | `geometry.dfy` | `Geometry.h`: `Vec2D`, `Point2D`, `point2LineDistanceSquared2D` |
| `Vectors` | `vectors.dfy` | `Vec3D`, `Vec<N>`, `cross`, `Point3D`, `Point<N>` of `RamerDouglasPeucker.cpp` |
| `Distance` | `distance.dfy` | `point2LineDistanceSquared` for `N = 2` and `N = 3` |
| `Scan` | `scan.dfy` | `findMostDistantPoint`, `findMostDistantPointFromLine` |
| `Simplify` | `simplify.dfy` | the recursive `RamerDouglasPeucker` engine |
| `Wrapper` | `wrapper.dfy` | the sequential logic of the planar entry point `rdp(x, y, epsilon)` |

Modelling choices:

- Coordinates are mathematical reals.
- `Vec<N>` and `Point<N>` are datatypes over `seq<real>`. N is the length of the sequence.
- The degeneracy threshold `1.0e-14` is the exact real `1/10^14` (`Geometry.DegenerateThreshold`).
- The two scans are methods with the source's loops. Each is proved against `Scan.ScanUpTo`, the running maximum after a prefix of the range. `Scan.FirstFurthest` states what that maximum is without reference to the loop: the lowest interior index of greatest positive distance, or `(0, start)` when there is none.
- The engine's shared output vector `indicesToKeep` is threaded through the recursive method as a sequence value. It is proved to come back as the old list followed by `Simplify.Appended`, the indices one call appends.
- The entry point `Wrapper.Rdp` keeps the source's checks and loops. Its result is proved equal to the value-level `Wrapper.Simplification`.
- Raising a Python `ValueError` is modelled as the outcome `ValueError(message)`, with the source's message.

## Model

| member | source | states |
|---|---|---|
| Geometry.Vec2D.LengthSquared | src/fastrdp/Geometry.h:34-36 | the squared length of a planar vector is never negative |
| Geometry.PointToLineDistanceSquared2D | src/fastrdp/Geometry.h:59-69 | the planar squared distance, with the fallback `|p - a|^2` below the threshold, is never negative |
| Geometry.AddSubRoundTrip2D | src/fastrdp/Geometry.h:50-56 | `q + (p - q) == p` for planar points |
| Geometry.Distance2DBounds | src/fastrdp/Geometry.h:59-69 | the planar distance lies between 0 and `|p - a|^2`; below the threshold it is exactly `|p - a|^2` |
| Geometry.PlanarBound | src/fastrdp/Geometry.h:66-68 | for a chord of positive squared length, the quotient `n^2 / |b - a|^2` of the cross term lies between 0 and `|p - a|^2` |
| Geometry.Distance2DZeroOnLine | src/fastrdp/Geometry.h:59-69 | on a non-degenerate line every point `a + t (b - a)` is at distance 0; `t = 0` and `t = 1` give `a` and `b` |
| Vectors.Vec3D.LengthSquared | src/fastrdp/RamerDouglasPeucker.cpp:19-27 | the component-wise squared length of a `Vec3D` is its dot product with itself and is never negative |
| Vectors.Vec3DArithmeticAgrees | src/fastrdp/RamerDouglasPeucker.cpp:15-17 | `Vec3D` and `Vec<3>` give the same sum, difference and multiple |
| Vectors.Vec3DProductsAgree | src/fastrdp/RamerDouglasPeucker.cpp:19-27 | `Vec3D` and `Vec<3>` give the same dot product, cross product and squared length |
| Vectors.Vec3D.Cross | src/fastrdp/RamerDouglasPeucker.cpp:20-24 | `u.cross(v)` is orthogonal to `u` and to `v` |
| Vectors.DotUpToSelfNonNegative | src/fastrdp/RamerDouglasPeucker.cpp:57-61 | every partial sum of the dot-product loop of a vector with itself is non-negative |
| Vectors.Vec.LengthSquared | src/fastrdp/RamerDouglasPeucker.cpp:63 | the squared length of a `Vec<N>`, its dot product with itself, is never negative |
| Vectors.Cross | src/fastrdp/RamerDouglasPeucker.cpp:67-73 | `cross(a, b)` of two `Vec<3>` is again a `Vec<3>` |
| Vectors.CrossOrthogonal | src/fastrdp/RamerDouglasPeucker.cpp:67-73 | `cross(u, v)` of two `Vec<3>` is orthogonal to `u` and to `v` |
| Vectors.CrossLagrange | src/fastrdp/RamerDouglasPeucker.cpp:67-73 | Lagrange's identity: `|u x v|^2 + (u . v)^2 == |u|^2 |v|^2` |
| Vectors.AddSubRoundTrip3D | src/fastrdp/RamerDouglasPeucker.cpp:82-83 | `a + (b - a) == b` for `Point3D` |
| Vectors.Point3DAgrees | src/fastrdp/RamerDouglasPeucker.cpp:82-83 | `Point3D` and `Point<3>` subtract and translate alike |
| Vectors.AddSubRoundTrip | src/fastrdp/RamerDouglasPeucker.cpp:95-104 | `a + (b - a) == b` for `Point<N>` |
| Vectors.SubLengthSquaredSymmetric | src/fastrdp/RamerDouglasPeucker.cpp:95-99 | `|p - q|^2 == |q - p|^2` |
| Distance.PointToLineDistanceSquared | src/fastrdp/RamerDouglasPeucker.cpp:107-153 | the squared distance to the line, or to `a` below the threshold, is never negative in 2 or 3 dimensions |
| Distance.PlanarMatchesGeometry | src/fastrdp/RamerDouglasPeucker.cpp:112-146 | the `N = 2` distance equals the planar geometry header's distance of the same points |
| Distance.SpatialBound | src/fastrdp/RamerDouglasPeucker.cpp:149 | for a chord of positive squared length, `|(p - a) x (b - a)|^2 / |b - a|^2` lies between 0 and `|p - a|^2` |
| Distance.DistanceBounds | src/fastrdp/RamerDouglasPeucker.cpp:112-153 | the distance lies between 0 and `|p - a|^2` in both dimensions; below the threshold it is exactly `|p - a|^2` |
| Distance.OnLineOffset | src/fastrdp/RamerDouglasPeucker.cpp:95-104 | the point `a + t (b - a)` differs from `a` by `t (b - a)` in every coordinate |
| Distance.OnLineEnds | src/fastrdp/RamerDouglasPeucker.cpp:95-104 | `a + t (b - a)` is `a` at `t = 0` and `b` at `t = 1` |
| Distance.DistanceZeroOnLine | src/fastrdp/RamerDouglasPeucker.cpp:112-149 | on a non-degenerate line, in 2 or 3 dimensions, every point of the line, `a` and `b` among them, is at distance 0 |
| Distance.PlanarMatchesLifted | src/fastrdp/Geometry.h:66-73 | the planar distance equals the cross-product distance of the same points lifted to z = 0 |
| Distance.PlanarNumeratorAsWritten | src/fastrdp/RamerDouglasPeucker.cpp:143 | the written planar numerator exceeds the line equation's by `2 * ab.x * p.y` |
| Distance.PlanarDistanceSquaredAsWritten | src/fastrdp/RamerDouglasPeucker.cpp:112-146 | the planar distance with the numerator as written is never negative, with the same fallback below the threshold |
| Distance.AsWrittenMisplacesEndPoint | src/fastrdp/RamerDouglasPeucker.cpp:143-146 | with the written numerator, the end point (1, 1) of the line from (0, 0) is at squared distance 2 from its own line; the corrected distance is 0 |
| Scan.ScanUpTo | src/fastrdp/RamerDouglasPeucker.cpp:166-178 | the running maximum after a prefix `start + 1 .. k - 1` is `start` or an index of that prefix, at a non-negative distance |
| Scan.ScanUpToIsFirstFurthest | src/fastrdp/RamerDouglasPeucker.cpp:166-178 | after any prefix, the running maximum is `(0, start)` or an interior index. Its distance is non-negative and at least every scanned distance. It is the distance of the index when that index is not `start`. It is the first index reaching the maximum |
| Scan.FirstFurthestUnique | src/fastrdp/RamerDouglasPeucker.cpp:173-176 | the strict `>` tie-break pins the scan's result down: at most one candidate meets that characterisation |
| Scan.ScansAgree | src/fastrdp/RamerDouglasPeucker.cpp:209-221 | two scans whose distances agree at every interior index return the same candidate |
| Scan.DegenerateScansAgree | src/fastrdp/RamerDouglasPeucker.cpp:196-202 | on a chord below the threshold, the start-point scan and the chord scan return the same candidate |
| Scan.HandOverPrecondition | src/fastrdp/RamerDouglasPeucker.cpp:164-201 | the hand-over condition `|end - start|^2 == 0` is the start-point scan's precondition `|start - end|^2 == 0` |
| Scan.Furthest | src/fastrdp/RamerDouglasPeucker.cpp:206-226 | the chord scan's result over the whole range is the first furthest interior point from the chord, or `(0, start)` |
| Scan.FurthestInside | src/fastrdp/RamerDouglasPeucker.cpp:206-221 | a furthest point at a distance above a non-negative bound lies strictly inside the range |
| Scan.FindMostDistantPoint | src/fastrdp/RamerDouglasPeucker.cpp:155-181 | the loop returns the running maximum of the distances to the start point, which is the first furthest interior point |
| Scan.FindMostDistantPointFromLine | src/fastrdp/RamerDouglasPeucker.cpp:187-227 | in both branches, delegation for a zero-length chord and the loop otherwise, the result is `Furthest`, the first furthest point from the chord |
| Simplify.Appended | src/fastrdp/RamerDouglasPeucker.cpp:244-257 | the indices one call appends are non-empty and strictly increasing, lie in `(start, end]` and end with `end`; its termination measure `end - start` decreases because the split index is interior |
| Simplify.RamerDouglasPeucker | src/fastrdp/RamerDouglasPeucker.cpp:229-258 | the engine leaves the existing list, seed included, untouched and appends exactly `Appended`, ending with `end` |
| Simplify.AppendedWithinTolerance | src/fastrdp/RamerDouglasPeucker.cpp:244-257 | between two consecutive kept indices, every point is within `epsilonSquared` of their chord |
| Simplify.EndOnlyIffWithin | src/fastrdp/RamerDouglasPeucker.cpp:247-256 | one call appends only `end` exactly when every interior point is within `epsilonSquared` of the chord |
| Simplify.CollinearKeepsEndpoints | tests/test_RDP_3D.py:41-64 | when every interior point lies on a non-degenerate chord, only `end` is appended, whatever the tolerance, in 2 or 3 dimensions |
| Simplify.AppendedMonotone | src/fastrdp/RamerDouglasPeucker.cpp:247-250 | a larger tolerance appends a subset of the indices, and no more of them |
| Simplify.LiftedAppended | tests/test_rdpN.py:15-21 | planar input and the same input lifted to z = 0 keep the same indices |
| Simplify.LargeToleranceKeepsEnd | src/fastrdp/RamerDouglasPeucker.cpp:244-256 | when every interior point is within `epsilonSquared` of the start point, only `end` is appended |
| Simplify.SplitIsFirstFurthest | src/fastrdp/RamerDouglasPeucker.cpp:209-221 | a kept split point is still the first furthest point, at the same distance, among the kept points of its range |
| Simplify.AppendedOfKept | src/fastrdp/RamerDouglasPeucker.cpp:244-257 | run again on the points it kept for a range, the engine appends every kept position of that range |
| Simplify.KeptAgain | src/fastrdp/RamerDouglasPeucker.cpp:229-258 | run again from the seed `0` on the points it kept for `[0, end]`, the engine keeps all of them |
| Wrapper.PlanarPoints | src/fastrdp/wrapper.cpp:60-64 | the points are `(x[i], y[i])`, one per input, all planar |
| Wrapper.KeptIndices | src/fastrdp/wrapper.cpp:67-71 | the engine run from the seed `[0]` on `[0, n - 1]` with `epsilon * epsilon` keeps at least two strictly increasing indices below n, starting at 0 and ending at `n - 1` |
| Wrapper.Gather | src/fastrdp/wrapper.cpp:90-94 | the gathered array has one entry per kept index, the input value at that index |
| Wrapper.GatherCoordinates | src/fastrdp/wrapper.cpp:74-94 | the loop over fresh arrays of the index list's length fills both result arrays with the gathered coordinates |
| Wrapper.Simplification | src/fastrdp/wrapper.cpp:30-94 | a successful outcome has coordinate arrays of equal length, empty only for empty input, that start and end with the input's first and last points |
| Wrapper.Rdp | src/fastrdp/wrapper.cpp:30-94 | the entry point, with its checks, point loop, seeding, engine call and gather loop, returns `Simplification` |
| Wrapper.ErrorsAreChecked | src/fastrdp/wrapper.cpp:30-51 | a negative tolerance gives "epsilon must be non-negative" and is checked first; unequal lengths give "Inputs have different lengths"; nothing else fails |
| Wrapper.OutputIsSubsequence | src/fastrdp/wrapper.cpp:53-94 | with at most two points the input comes back unchanged. Otherwise the output is the input at the kept indices, no longer than the input, and it starts and ends with the input's first and last points |
| Wrapper.DroppedPointsWithinTolerance | src/fastrdp/wrapper.cpp:67-71 | every dropped point is within `epsilon` of the chord between the kept points around it |
| Wrapper.LargerToleranceKeepsFewer | src/fastrdp/wrapper.cpp:71 | a larger tolerance keeps a subset of the indices kept by a smaller one |
| Wrapper.LargeToleranceKeepsEnds | src/fastrdp/wrapper.cpp:67-94 | when every point is within `epsilon` of the first point, the kept indices are `[0, n - 1]` and the output is the first and the last point |
| Wrapper.SimplificationIdempotent | src/fastrdp/wrapper.cpp:30-94 | simplification always succeeds for a non-negative tolerance and equal lengths, and simplifying its output again with the same tolerance returns that output |
| Wrapper.CollinearInputKeepsEnds | tests/test_RDP_3D.py:42-53 | points that all lie on the line through the first and last point, which are apart, simplify to those two points |
| Wrapper.ExampleDistances | tests/test_RDP.py:5-7 | for (0, 2), (1, 1), (3, 0), (5, 1) the chord distances are 16/26, 49/26 and 1/13 |
| Wrapper.ExampleKeptIndices | tests/test_RDP.py:9-19 | that example keeps indices [0, 2, 3] for tolerance 0.5 and all four for 0.1 |
| Wrapper.ExampleOutcome | tests/test_RDP.py:9-19 | through the entry point it returns x = [0, 3, 5], y = [2, 0, 1] for 0.5 and the input unchanged for 0.1 |
| Wrapper.CoarseOutcome | tests/test_RDP.py:9-13 | for that example, keeping [0, 2, 3] gives x = [0, 3, 5], y = [2, 0, 1] |
| Wrapper.FineOutcome | tests/test_RDP.py:15-19 | for that example, keeping all four indices gives the input back |

## Left out

- The Python and NumPy plumbing of `src/fastrdp/wrapper.cpp` is not modelled: argument parsing, `check_numpy_array`, array allocation and its failure path, reference counting and module initialisation. NumPy arrays are sequences of reals.
- `src/fastrdp/__init__.py`, `src/PyRDP/wrapper.cpp`, `performance/` and the plotting scripts are not part of this model.
- `length()` on `Vec2D`, `Vec3D` and `Vec<N>` takes a square root, which has no counterpart over the reals here. The algorithm never calls it.
- Floating-point rounding: all arithmetic is exact. Tests that need random data in general position are not stated, for example "every point is kept when epsilon is 0".
- Dimensions other than 2 and 3 are not modelled. The source has only a `static_assert` for them, with no distance path. The engine requires one common dimension of 2 or 3 (`Scan.Supported`).
- The generic `Point<N>` template is called with `Point2D` values from the planar entry point, and the header declares it against a `Point<N>` that `Geometry.h` does not define. The model passes the planar points as two-coordinate `Point` values.
- The missing `;` at `src/fastrdp/RamerDouglasPeucker.cpp:215` is not modelled. The scan treats the statement as terminated.
- Simplify.RamerDouglasPeucker: the shared `std::vector` is passed by reference in the source. The model passes it as a value and returns the extended list, so aliasing is not modelled.
- Wrapper.GatherCoordinates: the gather loop is a helper method of the entry point rather than inline, and it returns sequences read back from the arrays it fills.
- Scan.FindMostDistantPoint: its precondition is kept in the source's form, a squared length of 0, and not as equality of the two points. Over the reals the two are the same, but the model does not prove it.
- The degeneracy threshold is absolute. The model states no scale-invariance, because the source has none.

## Findings

| source | as written | input that shows it | evidently intended | confidence | as-written member | corrected member |
|---|---|---|---|---|---|---|
| src/fastrdp/RamerDouglasPeucker.cpp:143 | the planar numerator is `ab.y * p.x + ab.x * p.y + b.x * a.y - b.y * a.x`; the term `ab.x * p.y` carries `+`, and the statement also lacks a declaration and a `;` | a = (0, 0), b = p = (1, 1): the written numerator is 2 and the squared distance 2, although b lies on its own line | `ab.y * (p.x - a.x) - ab.x * (p.y - a.y)`, the numerator of `src/fastrdp/Geometry.h:66` | not executed | Distance.PlanarNumeratorAsWritten, Distance.AsWrittenMisplacesEndPoint | Distance.DistanceZeroOnLine |
