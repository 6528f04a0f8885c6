# Bézier curves: a verified model of the curve core

This project models the curve computations of the `Bezier` object in `js/bezier.js`:

- the control points and drawing parameters the object holds, with their setters;
- evaluation of the curve in Bernstein form, using the iterative binomial coefficient;
- halving a curve at t = 1/2 (subdivision);
- the frames of the de Casteljau animation;
- the subdivision work queue that splits every curve once per level;
- the two piecewise compositions: C0, with shared endpoints, and C1, with synthesized midpoints and the
  source's two fallbacks.

Drawing is left out. The model keeps only the point sequences the drawing code would be given.

Real numbers stand for JavaScript floats. Each `Bezier` object becomes a Dafny `class` whose methods
update its fields in place. The JavaScript arrays the methods build (`beziers`, `pointArray`,
`new_points`, `next_points`) become sequences. `Evaluate` computes each summand through the `Contribution` function,
with the same factors in the same order as the source. The specifications are the following functions:

- `Bernstein.BernsteinSum`: the explicit Bernstein polynomial;
- `DeCasteljau.Level`, `CurvePoint`, `Frames`, `LeftEdge` and `RightEdge`: the de Casteljau construction;
- `Subdivision.LeftHalf`, `RightHalf`, `SplitAll` and `Rounds`: subdivision;
- `Piecewise.IsC0Partition` and `IsC1Partition`: the piecewise cuts.

Each method's `ensures` ties its result to these functions. Lemmas then prove what the functions promise:

- the curve starts at p[0] and ends at p[n − 1];
- the de Casteljau point equals the Bernstein sum;
- the two halves meet at the curve's midpoint;
- the queue doubles the number of curves each round;
- C0 pieces share endpoints;
- C1 boundaries are midpoints, so the control-polygon legs on their two sides are equal.

Files:

| file | contents |
|---|---|
| `wrappers.dfy` | `Option`, the result of `evaluate` |
| `seqfacts.dfy` | small sequence identities used by the loop proofs |
| `geometry.dfy` | `Point` and its arithmetic, linear interpolation, midpoints |
| `binomial.dfy` | Pascal's binomial coefficient and the source's iterative `binomialCoefficient` |
| `bernstein.dfy` | the Bernstein form, its end points and its degree recurrence |
| `decasteljau.dfy` | the de Casteljau construction and its agreement with the Bernstein form |
| `subdivision.dfy` | halving at 1/2 and the rounds of the subdivision queue |
| `piecewise.dfy` | the C0 and C1 partitions and their continuity properties |
| `bezier.dfy` | the `Bezier` class: fields, setters, `evaluate`, `subdivide`, `animateSubdivision`, the subdivision queue and the two piecewise partitions |

The source emits `curve2`'s subdivision points starting from the last control point and going inward.
`RightHalf` keeps that order: p[n − 1] comes first and the midpoint of the curve comes last. It is not
reversed into the usual left-to-right order.

## Model

| member | source | states |
|---|---|---|
| `BezierCurve.Bezier.constructor` | js/bezier.js:5-14 | A new curve has no control points, mode Basic, continuity C0, subdivision level 0, piecewise degree 1, de Casteljau t = 0.5 and animation off. |
| `BezierCurve.Bezier.SetCurveMode` | js/bezier.js:381-383 | Sets the curve mode to the given one and changes no other field. |
| `BezierCurve.Bezier.SetContinuityMode` | js/bezier.js:385-387 | Sets the continuity mode to the given one and changes no other field. |
| `BezierCurve.Bezier.SetSubdivisionLevel` | js/bezier.js:389-391 | Sets the subdivision level to the given one and changes no other field. |
| `BezierCurve.Bezier.SetPiecewiseDegree` | js/bezier.js:393-395 | Sets the piecewise degree to the given one and changes no other field. |
| `BezierCurve.Bezier.SetDeCasteljauT` | js/bezier.js:397-399 | Sets the de Casteljau parameter to the given one and changes no other field. |
| `BezierCurve.Bezier.SetAnimation` | js/bezier.js:401-403 | Sets the animation flag to the given one and changes no other field. |
| `BezierCurve.Bezier.AddControlPoint` | js/bezier.js:447-449 | Appends the point after the existing control points, keeping their order. |
| `BezierCurve.Bezier.ClearControlPoints` | js/bezier.js:463-465 | Leaves the curve with no control points. |
| `Binomial.BinomialCoefficient` | js/bezier.js:359-371 | Returns the binomial coefficient C(n, k) when 0 ≤ k ≤ n, and −1 otherwise. The running product stays exact after every division. |
| `Binomial.ChooseStep` | js/bezier.js:364-367 | One step of the running product: C(m − 1, i − 1)·m / i is exactly C(m, i), so the integer division loses nothing. |
| `Binomial.Absorption` | js/bezier.js:364-367 | The absorption identity k·C(n, k) = n·C(n − 1, k − 1) that makes each division exact. |
| `BezierCurve.Bezier.Evaluate` | js/bezier.js:21-41 | Returns nothing exactly when t < 0, t > 1.000005 or there are fewer than two control points. Otherwise it returns Σ C(m, i)·t^i·(1 − t)^(m − i)·p[i], summed from the last control point down. |
| `Bernstein.SumFromStep` | js/bezier.js:32-36 | Adding summand i, with its factors multiplied in the source's order, to the sum of the summands above i gives the sum from i on. |
| `Bernstein.BernsteinAtZero` | js/bezier.js:21-41 | The evaluated curve starts at its first control point: P(0) = p[0]. |
| `Bernstein.BernsteinAtOne` | js/bezier.js:21-41 | The evaluated curve ends at its last control point: P(1) = p[n − 1]. |
| `Bernstein.BernsteinSplit` | js/bezier.js:21-41 | The Bernstein sum obeys P(t) = (1 − t)·P_front(t) + t·P_back(t), where the front and back curves drop the last and the first control point. |
| `DeCasteljau.CurvePointIsBernstein` | js/bezier.js:81-102 | The point the de Casteljau construction ends in equals the Bernstein sum of `evaluate`, for every t and every non-empty curve. |
| `DeCasteljau.ConstantCurve` | js/bezier.js:21-41 | A curve whose control points all coincide evaluates to that point for every t, because the Bernstein weights sum to one. |
| `DeCasteljau.FramesShape` | js/bezier.js:81-102 | The animation produces one frame per control point. For i < n − 1, frame i has n − 1 − i points; frame 0 is the first level of the control points, and each later frame before the last is the blend of the frame before it. The last frame is the single point [P(t)], a copy of the one-point frame before it rather than a blend. |
| `DeCasteljau.EdgesShape` | js/bezier.js:48-79 | The first and the last points of the levels each form a sequence of n points. Both start at the curve's two ends and end in the de Casteljau point. |
| `DeCasteljau.LevelPush` | js/bezier.js:90-93 | Blending the next pair of neighbours extends the level built so far by its next point. |
| `DeCasteljau.BlendPush` | js/bezier.js:91-93 | The source's coordinate formula p[i+1]·t + p[i]·(1 − t) computes the next point of the level. |
| `BezierCurve.Bezier.Subdivide` | js/bezier.js:48-79 | Appends LeftHalf(p) to curve1 and RightHalf(p) to curve2. LeftHalf is p[0] followed by the first midpoint of every level at t = 1/2. RightHalf is p[n − 1] followed by the last midpoint of every level. An empty curve appends nothing. |
| `Subdivision.MidpointPush` | js/bezier.js:62-68 | The source's coordinate midpoint of two neighbours is the next point of the level at 1/2. |
| `Subdivision.HalvesMeetAtMidCurve` | js/bezier.js:48-79 | Both halves have n points. They start at p[0] and p[n − 1] and end in the same point, P(1/2). As curves of their own, both evaluate at 1 to P(1/2). |
| `Subdivision.HalvesOfSegment` | js/bezier.js:48-79 | Halving the segment (0,0)–(2,2) gives [(0,0), (1,1)] and, last point first, [(2,2), (1,1)]. |
| `BezierCurve.Bezier.AnimateSubdivision` | js/bezier.js:81-102 | Appends to the given frames every de Casteljau level at the curve's t, then a one-point frame. There is one new frame per control point, the frames already present are unchanged, and the last frame is [P(t)]. |
| `BezierCurve.Bezier.SubdivisionCurves` | js/bezier.js:141-162 | After L ≥ 1 levels the queue holds Rounds([p], L): 2^L curves, each with as many points as p. |
| `BezierCurve.Bezier.Halves` | js/bezier.js:144-149 | The first split produces the two halves of the curve, in order. |
| `BezierCurve.SubdivideRound` | js/bezier.js:152-161 | One pass of the shift/push loop replaces every queued curve, in order, by its two halves. |
| `BezierCurve.SplitFront` | js/bezier.js:153-160 | Shifting the front curve off the queue and pushing two fresh curves holding its halves leaves the other curves' points in order, followed by LeftHalf and RightHalf of the front curve. |
| `Subdivision.QueueStep` | js/bezier.js:153-160 | Partway through a round, the queue holds the curves still to split followed by the halves of those already split. Shifting one curve off and pushing its halves advances the round by one curve. |
| `Subdivision.FirstRound` | js/bezier.js:144-149 | One round turns one curve into its two halves. |
| `Subdivision.RoundsOfOneCurve` | js/bezier.js:151-162 | L rounds from one curve give 2^L curves with as many points as the curve. |
| `Subdivision.RoundsShape` | js/bezier.js:151-162 | When every queued curve has n points, each round doubles the number of queued curves and keeps n points in each. |
| `Subdivision.SplitAllAppend` | js/bezier.js:158-159 | Pushing a curve's halves at the back of the queue extends the round's result by those halves. |
| `BezierCurve.Bezier.PartitionC0` | js/bezier.js:178-200 | The groups satisfy `IsC0Partition` for the control points. Every group but the last has d + 1 points, each group ends where the next begins, the last group has at most d points, and dropping the shared points gives back the control points. |
| `BezierCurve.Bezier.TakeGroup` | js/bezier.js:184-192 | The inner loop collects the d + 1 control points from the current index on and leaves the index on the last of them, d further on, with the remaining length reduced by d. |
| `BezierCurve.Bezier.TakeRest` | js/bezier.js:196-199 | The closing loop appends every control point from the current index to the end, in order, after the points the group already holds. |
| `Piecewise.C0ProgressStep` | js/bezier.js:182-193 | Each pass of the outer loop takes the window of d + 1 points at the current index and advances the index by d, keeping the groups glued to a prefix of the control points. |
| `Piecewise.C0ProgressFinish` | js/bezier.js:195-200 | The remaining at most d points, taken as the last group, complete a C0 partition. |
| `Piecewise.C0Window` | js/bezier.js:182-193 | When the first k + 1 groups have d + 1 points each, each starts where the one before ends, and their join is a prefix of the control points, group k is exactly the control points k·d to k·d + d and the join is the first k·d + d + 1 of them. |
| `Piecewise.C0PartitionWindow` | js/bezier.js:182-193 | In a C0 partition, every group but the last is exactly the control points k·d to k·d + d. |
| `Piecewise.C0Facts` | js/bezier.js:182-193 | In a C0 partition with two or more groups the degree is at least 1, the groups before the last have d + 1 points, each starts where the one before ends, and every prefix of the groups joins into a prefix of the control points. |
| `Piecewise.JoinLength` | js/bezier.js:182-193 | Joining k + 1 groups of d + 1 points on their shared ends gives k·d + d + 1 points, so the index moves d per group. |
| `Piecewise.JoinPrefix` | js/bezier.js:182-193 | Joining fewer of the groups gives a prefix of joining more of them. |
| `Piecewise.C0WindowAfter` | js/bezier.js:184-192 | A group of d + 1 points joined after a prefix of s + 1 points that ends in its first point, when the result is a prefix of the control points, is the window of control points s to s + d. |
| `Piecewise.C0GroupCount` | js/bezier.js:182-200 | A C0 partition of n ≥ 1 points into g groups has (g − 1)·d + 1 ≤ n ≤ (g − 1)·d + d, and its last group has between 1 and d points. |
| `Piecewise.C0PiecesMeet` | js/bezier.js:173-176 | The Bernstein sum of each C0 piece at 1 equals the Bernstein sum of the next piece at 0: adjacent pieces share an endpoint. |
| `BezierCurve.Bezier.PartitionC1` | js/bezier.js:218-271 | The result is the control polygon exactly when the degree is below 2. It is the whole curve exactly when the degree is at least 2 and there are at most degree + 1 points. Otherwise the segments satisfy `IsC1Partition`. |
| `BezierCurve.Bezier.SegmentsC1` | js/bezier.js:221-257 | With degree d ≥ 2 and more than d + 1 points, the segments satisfy `IsC1Partition`. |
| `BezierCurve.Bezier.TakeFirst` | js/bezier.js:226-231 | The first loop collects the first d control points and leaves the index at d. |
| `BezierCurve.Bezier.TakeMiddle` | js/bezier.js:238-244 | A middle segment starts with the boundary point and continues with the d − 1 control points from the current index, which moves d − 1 further on. |
| `Piecewise.C1ProgressFirst` | js/bezier.js:226-235 | The first segment is the first d control points followed by the midpoint of p[d − 1] and p[d]. |
| `Piecewise.C1ProgressStep` | js/bezier.js:237-249 | Each middle segment is the previous boundary, the next d − 1 raw points and the next midpoint. The new boundary lies half-way between the segment's last raw point and the next control point, so the legs on its two sides are equal. |
| `Piecewise.C1ProgressFinish` | js/bezier.js:251-257 | The boundary followed by the 2 to d remaining points completes a C1 partition. |
| `Piecewise.C1Boundary` | js/bezier.js:212-217 | Every boundary point of a C1 partition is the midpoint of its neighbours, so the control-polygon legs on its two sides are equal. Adjacent segments meet there when evaluated. |
| `Geometry.MidIffEqualLegs` | js/bezier.js:232-233 | A point is the midpoint of two others exactly when the step into it equals the step out of it. |

## Left out

- Drawing (`drawLine`, `drawControlPolygon`, `drawControlPoints`, the WebGL calls and `setGL`) is not modelled. The model returns the point sequences that would be drawn.
- The fixed-step float sampling loops that feed `evaluate` to `drawLine` are not modelled. They are drawing and depend on float step accumulation.
- Animation playback and `sleep` are not modelled. They are timers and promises. `animateSubdivision` itself is modelled.
- `removeControlPoint` is not modelled. It calls `indexOf` on `this.points`, a property the object never defines, so it fails whenever it runs.
- `printControlPoints` is not modelled. It only writes to the console.
- The getters are not modelled as separate members, because each one only reads a field. The model reads the fields directly.
- `js/main.js` is not part of this model. It is the page's user-interface and event wiring.
- The setters: the modes are modelled as datatypes instead of the source's strings, so an unrecognised mode string cannot be represented.
- `BezierCurve.Bezier.SetSubdivisionLevel` and `BezierCurve.Bezier.SetPiecewiseDegree` take a `nat`. The page passes them the raw form string (js/main.js:169 and js/main.js:197). JavaScript's coercion of that string is not modelled. With a string degree, `this.piecewise_degree + 1` in the C1 fallback test (js/bezier.js:221) concatenates instead of adding. The fallback then fires at a different point count.
- `Piecewise.C1Boundary` proves equal control-polygon legs at every joint. That gives equal derivatives only when both segments have the same degree. The last segment can have r + 1 points with 2 ≤ r < d, for example 5 points at degree 3 (js/bezier.js:251-256). At that last joint the derivatives are d·v and r·v, so the curve is only G1 there. The model does not state derivative continuity.
- Float arithmetic is modelled as exact real arithmetic throughout. The model does not capture rounding in `evaluate`, in the midpoints or in the blends.
- `Binomial.BinomialCoefficient` does not model the float rounding or the overflow for very large n that the source warns about. The model's division is exact integer division, and the model proves that each division is exact.
- `BezierCurve.Bezier.Subdivide` requires the two target curves to be distinct from each other and from the curve being split. Aliasing among them is not modelled; the source never passes aliased curves.
- `BezierCurve.Bezier.AnimateSubdivision` requires at least one control point. With none, the source pushes a frame holding `undefined`. It also receives and returns the frame list by value instead of pushing into a caller's array.
- `BezierCurve.Bezier.SubdivisionCurves` requires level ≥ 1. Level 0 goes to a separate branch that draws the control polygon.
- `BezierCurve.Bezier.PartitionC0` requires piecewise degree ≥ 1. With degree 0 the source's loop never advances and never ends.
- The source pushes shared `Vector2D` references into several curves. Points are values in the model, so sharing a reference is not distinguishable from copying it.
- `BezierCurve.Bezier.PartitionC0` and `BezierCurve.Bezier.PartitionC1` return each group as its sequence of points rather than as a new `Bezier` object. The groups are only ever read to be drawn.
- The loops of `drawCurve` are split into the methods `SplitFront`, `TakeGroup`, `TakeRest`, `TakeFirst`, `TakeMiddle` and `SegmentsC1`. Each one keeps the source's loop, index and length updates. The source writes them inline.
- `Piecewise.C0PiecesMeet` is about the Bernstein sums of the pieces, not about `evaluate`. When d divides n − 1, the C0 loop leaves a one-point last group (js/bezier.js:195-200). This always happens at the default degree 1: n = 2 gives [[p0, p1], [p1]]. `evaluate` returns nothing on such a group (js/bezier.js:23), so the source draws lines to `undefined` there (js/bezier.js:202-206). The model keeps the group, as `Piecewise.C0GroupCount` allows a last group of one point, but does not model the drawing of it.
