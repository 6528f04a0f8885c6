/**
 * The Bezier object: the control points and drawing parameters it holds, the setters that change
 * them, and the curve computations the drawing code runs over them.
 */
module BezierCurve {
  import opened Wrappers
  import opened SeqFacts
  import opened Geometry
  import opened Binomial
  import opened Bernstein
  import opened DeCasteljau
  import opened Subdivision
  import opened Piecewise

  datatype CurveMode = BasicMode | SubdivisionMode | PiecewiseMode | DeCasteljauMode

  datatype Continuity = C0 | C1

  /** What the C1 composition draws: the control polygon, the whole curve, or the segments. */
  datatype C1Plan = ControlPolygon | WholeCurve | Segments(segments: seq<seq<Point>>)

  /** The largest parameter evaluate accepts; the slack above 1 absorbs the drawing loop's steps. */
  const T_MAX: real := 1.000005

  /** The control points of each curve, in order. */
  function ControlPointsOf(bs: seq<Bezier>): seq<seq<Point>>
    reads bs
  {
    seq(|bs|, k reads bs requires 0 <= k < |bs| => bs[k].controlPoints)
  }

  class Bezier {
    var controlPoints: seq<Point>
    var curveMode: CurveMode
    var continuityMode: Continuity
    var subdivideLevel: nat
    var piecewiseDegree: nat
    var deCasteljauT: real
    var animation: bool

    constructor ()
      ensures controlPoints == [] && curveMode == BasicMode && continuityMode == C0
      ensures subdivideLevel == 0 && piecewiseDegree == 1 && deCasteljauT == 0.5 && !animation
    {
      controlPoints := [];
      curveMode := BasicMode;
      continuityMode := C0;
      subdivideLevel := 0;
      piecewiseDegree := 1;
      deCasteljauT := 0.5;
      animation := false;
    }

    method SetCurveMode(mode: CurveMode)
      modifies this`curveMode
      ensures curveMode == mode
    {
      curveMode := mode;
    }

    method SetContinuityMode(mode: Continuity)
      modifies this`continuityMode
      ensures continuityMode == mode
    {
      continuityMode := mode;
    }

    method SetSubdivisionLevel(level: nat)
      modifies this`subdivideLevel
      ensures subdivideLevel == level
    {
      subdivideLevel := level;
    }

    method SetPiecewiseDegree(degree: nat)
      modifies this`piecewiseDegree
      ensures piecewiseDegree == degree
    {
      piecewiseDegree := degree;
    }

    method SetDeCasteljauT(t: real)
      modifies this`deCasteljauT
      ensures deCasteljauT == t
    {
      deCasteljauT := t;
    }

    method SetAnimation(on: bool)
      modifies this`animation
      ensures animation == on
    {
      animation := on;
    }

    method AddControlPoint(p: Point)
      modifies this`controlPoints
      ensures controlPoints == old(controlPoints) + [p]
    {
      controlPoints := controlPoints + [p];
    }

    method ClearControlPoints()
      modifies this`controlPoints
      ensures controlPoints == []
    {
      controlPoints := [];
    }

    /**
     * The curve point at t, summed in Bernstein form from the last control point down; nothing when t
     * lies outside [0, 1.000005] or there are fewer than two control points.
     */
    method Evaluate(t: real) returns (r: Option<Point>)
      ensures r.None? <==> t < 0.0 || t > T_MAX || |controlPoints| < 2
      ensures r.Some? ==> r.value == BernsteinSum(controlPoints, t)
    {
      if t >= 0.0 && t <= T_MAX {
        if |controlPoints| > 1 {
          var totalX, totalY := 0.0, 0.0;
          var i: nat := |controlPoints|;
          var m: nat := |controlPoints| - 1;
          while i > 0
            invariant 0 <= i <= |controlPoints|
            invariant Point(totalX, totalY) == SumFrom(controlPoints, t, i)
          {
            i := i - 1;
            var c := BinomialCoefficient(m, i);
            assert c == Choose(m, i);
            var termX := Contribution(controlPoints[i].x, c, t, i, m);
            var termY := Contribution(controlPoints[i].y, c, t, i, m);
            SumFromStep(controlPoints, t, m, i, c, totalX, totalY, termX, termY);
            totalX := totalX + termX;
            totalY := totalY + termY;
          }
          return Some(Point(totalX, totalY));
        }
      }
      return None;
    }

    /**
     * Halving at t = 1/2: appends p[0] and the first point of every de Casteljau level to curve1, and
     * p[n − 1] and the last point of every level to curve2; an empty curve appends nothing.
     */
    method Subdivide(curve1: Bezier, curve2: Bezier)
      requires curve1 != this && curve2 != this && curve1 != curve2
      modifies curve1`controlPoints, curve2`controlPoints
      ensures curve1.controlPoints == old(curve1.controlPoints) + LeftHalf(controlPoints)
      ensures curve2.controlPoints == old(curve2.controlPoints) + RightHalf(controlPoints)
    {
      ghost var cp := controlPoints;
      ghost var target1 := curve1.controlPoints + LeftHalf(cp);
      ghost var target2 := curve2.controlPoints + RightHalf(cp);
      var n := |controlPoints|;
      if n > 0 {
        ShiftFirst(curve1.controlPoints, LeftEdge(cp, HALF));
        ShiftFirst(curve2.controlPoints, RightEdge(cp, HALF));
        curve1.controlPoints := curve1.controlPoints + [controlPoints[0]];
        curve2.controlPoints := curve2.controlPoints + [controlPoints[n - 1]];
        var newPoints: seq<Point> := [];
        var i := 0;
        while i < n
          invariant 0 <= i <= n && newPoints == cp[..i]
        {
          newPoints := newPoints + [controlPoints[i]];
          i := i + 1;
        }
        WholePrefix(cp, n);
        while |newPoints| > 1
          invariant |newPoints| >= 1
          invariant target1 == curve1.controlPoints + LeftEdge(newPoints, HALF)[1..]
          invariant target2 == curve2.controlPoints + RightEdge(newPoints, HALF)[1..]
          decreases |newPoints|
        {
          var newPointLength := |newPoints| - 1;
          ghost var level := Level(newPoints, HALF);
          var nextPoints: seq<Point> := [];
          ghost var before1, before2 := curve1.controlPoints, curve2.controlPoints;
          i := 0;
          while i < newPointLength
            invariant 0 <= i <= newPointLength
            invariant nextPoints == level[..i]
            invariant curve1.controlPoints == if i == 0 then before1 else before1 + [level[0]]
            invariant curve2.controlPoints == if i < newPointLength then before2 else before2 + [level[i - 1]]
          {
            var totalX := (newPoints[i].x + newPoints[i + 1].x) / 2.0;
            var totalY := (newPoints[i].y + newPoints[i + 1].y) / 2.0;
            MidpointPush(newPoints, i, nextPoints, totalX, totalY);
            nextPoints := nextPoints + [Point(totalX, totalY)];
            if i == 0 {
              curve1.controlPoints := curve1.controlPoints + [Point(totalX, totalY)];
            }
            if i == newPointLength - 1 {
              curve2.controlPoints := curve2.controlPoints + [Point(totalX, totalY)];
            }
            i := i + 1;
          }
          WholePrefix(level, newPointLength);
          LeftEdgeAdvance(newPoints, HALF, target1, before1);
          RightEdgeAdvance(newPoints, HALF, target2, before2);
          newPoints := nextPoints;
        }
        AppendNothing(curve1.controlPoints, LeftEdge(newPoints, HALF)[1..]);
        AppendNothing(curve2.controlPoints, RightEdge(newPoints, HALF)[1..]);
      }
    }

    /**
     * The de Casteljau animation frames at deCasteljauT, appended to pointArray: one frame per control
     * point, the last holding only the curve point at deCasteljauT.
     */
    method AnimateSubdivision(pointArray: seq<seq<Point>>) returns (frames: seq<seq<Point>>)
      requires |controlPoints| >= 1
      ensures frames == pointArray + Frames(controlPoints, deCasteljauT)
      ensures |frames| == |pointArray| + |controlPoints| && frames[..|pointArray|] == pointArray
      ensures frames[|frames| - 1] == [BernsteinSum(controlPoints, deCasteljauT)]
    {
      var t := deCasteljauT;
      frames := pointArray;
      var newPoints: seq<Point> := [];
      var i := 0;
      while i < |controlPoints|
        invariant 0 <= i <= |controlPoints| && newPoints == controlPoints[..i]
      {
        newPoints := newPoints + [controlPoints[i]];
        i := i + 1;
      }
      assert newPoints == controlPoints;
      while |newPoints| > 1
        invariant |newPoints| >= 1
        invariant frames + Frames(newPoints, t) == pointArray + Frames(controlPoints, t)
        decreases |newPoints|
      {
        var nextPoints: seq<Point> := [];
        i := 0;
        while i < |newPoints| - 1
          invariant 0 <= i <= |newPoints| - 1
          invariant nextPoints == Level(newPoints, t)[..i]
        {
          var totalX := (newPoints[i + 1].x * t) + (newPoints[i].x * (1.0 - t));
          var totalY := (newPoints[i + 1].y * t) + (newPoints[i].y * (1.0 - t));
          BlendPush(newPoints, t, i, nextPoints, totalX, totalY);
          nextPoints := nextPoints + [Point(totalX, totalY)];
          i := i + 1;
        }
        assert nextPoints == Level(newPoints, t);
        frames := frames + [nextPoints];
        newPoints := nextPoints;
      }
      var finalPoint := [newPoints[0]];
      frames := frames + [finalPoint];
      FramesShape(controlPoints, t);
      CurvePointIsBernstein(controlPoints, t);
    }

    /**
     * The work queue of the subdivision drawing mode: the curve is halved, then every curve in the
     * queue is shifted off the front and its halves pushed at the back, subdivideLevel rounds in all.
     */
    method SubdivisionCurves() returns (curves: seq<seq<Point>>)
      requires subdivideLevel >= 1
      ensures curves == Rounds([controlPoints], subdivideLevel)
      ensures |curves| == Pow2(subdivideLevel)
      ensures forall k :: 0 <= k < |curves| ==> |curves[k]| == |controlPoints|
    {
      ghost var cp := controlPoints;
      var level := subdivideLevel;
      var beziers := Halves();
      var j := 1;
      while j < level
        invariant 1 <= j <= level
        invariant ControlPointsOf(beziers) == Rounds([cp], j)
        invariant controlPoints == cp
      {
        ghost var before := ControlPointsOf(beziers);
        beziers := SubdivideRound(beziers);
        assert ControlPointsOf(beziers) == SplitAll(before) == Rounds([cp], j + 1);
        j := j + 1;
      }
      curves := ControlPointsOf(beziers);
      RoundsOfOneCurve(cp, level);
    }

    /** The start of the subdivision work queue: this curve's two halves, as two fresh curves. */
    method Halves() returns (beziers: seq<Bezier>)
      ensures ControlPointsOf(beziers) == Rounds([controlPoints], 1)
    {
      var curve1 := new Bezier();
      var curve2 := new Bezier();
      ghost var empty1, empty2 := curve1.controlPoints, curve2.controlPoints;
      Subdivide(curve1, curve2);
      AppendToEmpty(empty1, LeftHalf(controlPoints));
      AppendToEmpty(empty2, RightHalf(controlPoints));
      beziers := [curve1, curve2];
      ghost var first := ControlPointsOf(beziers);
      assert first[0] == LeftHalf(controlPoints) && first[1] == RightHalf(controlPoints);
      FirstRound(controlPoints);
    }

    /**
     * The C0 piecewise composition: groups of piecewiseDegree + 1 points, each starting at the
     * previous group's last point, then one group with the remaining points.
     */
    method PartitionC0() returns (beziers: seq<seq<Point>>)
      requires piecewiseDegree >= 1
      ensures IsC0Partition(controlPoints, piecewiseDegree, beziers)
    {
      var d := piecewiseDegree;
      var n := |controlPoints|;
      var currentIndex := 0;
      var controlLength := n;
      beziers := [];
      while controlLength > d
        invariant 0 <= currentIndex <= n && controlLength == n - currentIndex
        invariant C0Progress(controlPoints, d, beziers, currentIndex)
      {
        ghost var start := currentIndex;
        var newBezier;
        newBezier, currentIndex, controlLength := TakeGroup(currentIndex, controlLength, d);
        C0ProgressStep(controlPoints, d, beziers, start, newBezier);
        beziers := beziers + [newBezier];
      }
      var lastBezier := TakeRest([], currentIndex);
      AppendToEmpty([], controlPoints[currentIndex..]);
      C0ProgressFinish(controlPoints, d, beziers, currentIndex, lastBezier);
      beziers := beziers + [lastBezier];
    }

    /**
     * The inner loop of the C0 composition: d + 1 points from the current index, which is left on
     * the group's last point, the point the next group starts with.
     */
    method TakeGroup(from: nat, length: nat, d: nat) returns (group: seq<Point>, currentIndex: nat, controlLength: nat)
      requires from + d < |controlPoints| && length == |controlPoints| - from
      ensures group == controlPoints[from .. from + d + 1]
      ensures currentIndex == from + d && controlLength == length - d
    {
      currentIndex, controlLength := from, length;
      group := [];
      var i := 0;
      while i <= d
        invariant 0 <= i <= d + 1
        invariant currentIndex == from + (if i <= d then i else d)
        invariant controlLength == length - (currentIndex - from)
        invariant group == controlPoints[from .. from + i]
      {
        SliceExtend(controlPoints, from, from + i);
        group := group + [controlPoints[currentIndex]];
        if i == d {
          // the group's last point is also the next group's first
        } else {
          currentIndex := currentIndex + 1;
          controlLength := controlLength - 1;
        }
        i := i + 1;
      }
    }

    /** The closing loop of both compositions: the given points, then every point from the index on. */
    method TakeRest(first: seq<Point>, from: nat) returns (group: seq<Point>)
      requires from <= |controlPoints|
      ensures group == first + controlPoints[from..]
    {
      group := first;
      var currentIndex := from;
      while currentIndex < |controlPoints|
        invariant from <= currentIndex <= |controlPoints|
        invariant group == first + controlPoints[from .. currentIndex]
      {
        SliceExtend(controlPoints, from, currentIndex);
        group := group + [controlPoints[currentIndex]];
        currentIndex := currentIndex + 1;
      }
      WholeSuffix(controlPoints, from, currentIndex);
    }

    /**
     * The C1 piecewise composition. Below degree 2 it falls back to the control polygon, and with at
     * most piecewiseDegree + 1 points to the whole curve; otherwise it cuts the points into segments
     * joined at synthesized midpoints.
     */
    method PartitionC1() returns (plan: C1Plan)
      ensures plan == ControlPolygon <==> piecewiseDegree < 2
      ensures plan == WholeCurve <==> piecewiseDegree >= 2 && |controlPoints| <= piecewiseDegree + 1
      ensures plan.Segments? ==> IsC1Partition(controlPoints, piecewiseDegree, plan.segments)
    {
      var d := piecewiseDegree;
      var n := |controlPoints|;
      if d < 2 {
        return ControlPolygon;
      }
      if n <= d + 1 {
        return WholeCurve;
      }
      var segments := SegmentsC1(d);
      plan := Segments(segments);
    }

    /** The main branch of the C1 composition, for degree d >= 2 and more than d + 1 points. */
    method SegmentsC1(d: nat) returns (segments: seq<seq<Point>>)
      requires 2 <= d && d + 1 < |controlPoints|
      ensures IsC1Partition(controlPoints, d, segments)
    {
      var n := |controlPoints|;
      segments := [];
      var firstBezier, currentIndex, controlLength := TakeFirst(d);
      var totalX := (controlPoints[currentIndex - 1].x + controlPoints[currentIndex].x) / 2.0;
      var totalY := (controlPoints[currentIndex - 1].y + controlPoints[currentIndex].y) / 2.0;
      C1ProgressFirst(controlPoints, d, firstBezier + [Point(totalX, totalY)], totalX, totalY);
      firstBezier := firstBezier + [Point(totalX, totalY)];
      segments := segments + [firstBezier];
      while controlLength > d
        invariant controlLength == n - currentIndex && currentIndex + 2 <= n
        invariant C1Progress(controlPoints, d, segments, currentIndex, Point(totalX, totalY))
      {
        ghost var start := currentIndex;
        var boundary := Point(totalX, totalY);
        var nextBezier;
        nextBezier, currentIndex, controlLength := TakeMiddle(boundary, currentIndex, controlLength, d);
        totalX := (controlPoints[currentIndex - 1].x + controlPoints[currentIndex].x) / 2.0;
        totalY := (controlPoints[currentIndex - 1].y + controlPoints[currentIndex].y) / 2.0;
        C1ProgressStep(controlPoints, d, segments, start, boundary, currentIndex,
                       nextBezier + [Point(totalX, totalY)], totalX, totalY);
        nextBezier := nextBezier + [Point(totalX, totalY)];
        segments := segments + [nextBezier];
      }
      var lastBezier := TakeRest([Point(totalX, totalY)], currentIndex);
      C1ProgressFinish(controlPoints, d, segments, currentIndex, Point(totalX, totalY), lastBezier);
      segments := segments + [lastBezier];
    }

    /** The first loop of the C1 composition: the first d control points. */
    method TakeFirst(d: nat) returns (firstBezier: seq<Point>, currentIndex: nat, controlLength: nat)
      requires d <= |controlPoints|
      ensures firstBezier == controlPoints[..d] && currentIndex == d
      ensures controlLength == |controlPoints| - d
    {
      currentIndex, controlLength := 0, |controlPoints|;
      firstBezier := [];
      while |firstBezier| < d
        invariant currentIndex == |firstBezier| <= d && controlLength == |controlPoints| - currentIndex
        invariant firstBezier == controlPoints[..currentIndex]
      {
        SliceExtend(controlPoints, 0, currentIndex);
        firstBezier := firstBezier + [controlPoints[currentIndex]];
        currentIndex := currentIndex + 1;
        controlLength := controlLength - 1;
      }
    }

    /**
     * The inner loop of a middle C1 segment: the boundary point, then d − 1 control points from the
     * current index.
     */
    method TakeMiddle(boundary: Point, from: nat, length: nat, d: nat)
      returns (nextBezier: seq<Point>, currentIndex: nat, controlLength: nat)
      requires 1 <= d && from + d - 1 <= |controlPoints| && length == |controlPoints| - from
      ensures nextBezier == [boundary] + controlPoints[from .. from + d - 1]
      ensures currentIndex == from + d - 1 && controlLength == length - (d - 1)
    {
      currentIndex, controlLength := from, length;
      nextBezier := [boundary];
      var i := 0;
      while i < d - 1
        invariant 0 <= i <= d - 1
        invariant currentIndex == from + i && controlLength == length - i
        invariant nextBezier == [boundary] + controlPoints[from .. currentIndex]
      {
        SliceExtend(controlPoints, from, currentIndex);
        nextBezier := nextBezier + [controlPoints[currentIndex]];
        currentIndex := currentIndex + 1;
        controlLength := controlLength - 1;
        i := i + 1;
      }
    }
  }

  /**
   * One round of the subdivision work queue: bezierLength times, the front curve is shifted off and
   * its two halves, fresh curves, are pushed at the back.
   */
  method SubdivideRound(beziers: seq<Bezier>) returns (queue: seq<Bezier>)
    ensures ControlPointsOf(queue) == SplitAll(ControlPointsOf(beziers))
  {
    ghost var round := ControlPointsOf(beziers);
    queue := beziers;
    var bezierLength := |queue|;
    while bezierLength > 0
      invariant 0 <= bezierLength <= |round|
      invariant ControlPointsOf(beziers) == round
      invariant ControlPointsOf(queue) == round[|round| - bezierLength..] + SplitAll(round[..|round| - bezierLength])
    {
      ghost var done := |round| - bezierLength;
      ghost var contents := ControlPointsOf(queue);
      QueueStep(round, done, contents);
      queue := SplitFront(queue);
      bezierLength := bezierLength - 1;
    }
    WholePrefix(round, |round|);
    AppendToEmpty(round[|round|..], SplitAll(round));
  }

  /** One step of a round: the front curve is shifted off and its two halves pushed at the back. */
  method SplitFront(queue: seq<Bezier>) returns (next: seq<Bezier>)
    requires |queue| >= 1
    ensures ControlPointsOf(next)
         == ControlPointsOf(queue)[1..] + [LeftHalf(queue[0].controlPoints), RightHalf(queue[0].controlPoints)]
  {
    var curveSub1 := new Bezier();
    var curveSub2 := new Bezier();
    var currentBezier := queue[0];
    ghost var current := currentBezier.controlPoints;
    ShiftOff(queue);
    next := queue[1..];
    ghost var rest := ControlPointsOf(next);
    ghost var empty1, empty2 := curveSub1.controlPoints, curveSub2.controlPoints;
    currentBezier.Subdivide(curveSub1, curveSub2);
    AppendToEmpty(empty1, LeftHalf(current));
    AppendToEmpty(empty2, RightHalf(current));
    assert ControlPointsOf(next) == rest;
    PushPair(next, curveSub1, curveSub2);
    next := next + [curveSub1, curveSub2];
  }

  /** Shifting a curve off the front of a queue shifts its control points off the front. */
  lemma ShiftOff(bs: seq<Bezier>)
    requires |bs| >= 1
    ensures ControlPointsOf(bs[1..]) == ControlPointsOf(bs)[1..]
  {
  }

  /** Pushing two curves at the back of a queue pushes their control points at the back. */
  lemma PushPair(bs: seq<Bezier>, a: Bezier, b: Bezier)
    ensures ControlPointsOf(bs + [a, b]) == ControlPointsOf(bs) + [a.controlPoints, b.controlPoints]
  {
  }
}
