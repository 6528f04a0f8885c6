/**
 * The de Casteljau construction: repeated blending of neighbouring points. It specifies the
 * source's subdivision and animation loops, and it agrees with the Bernstein form.
 */
module DeCasteljau {
  import opened Geometry
  import opened Bernstein

  /** One construction level: each pair of neighbours blended with weight t. */
  function Level(q: seq<Point>, t: real): seq<Point>
    requires |q| >= 1
  {
    seq(|q| - 1, j requires 0 <= j < |q| - 1 => Lerp(q[j], q[j + 1], t))
  }

  /** The single point the construction ends in. */
  function CurvePoint(q: seq<Point>, t: real): Point
    requires |q| >= 1
    decreases |q|
  {
    if |q| == 1 then q[0] else CurvePoint(Level(q, t), t)
  }

  /** Every level below the control points, then a one-point copy of the last level. */
  function Frames(q: seq<Point>, t: real): seq<seq<Point>>
    requires |q| >= 1
    decreases |q|
  {
    if |q| == 1 then [[q[0]]] else [Level(q, t)] + Frames(Level(q, t), t)
  }

  /** The first point of every level, starting with the control points themselves. */
  function LeftEdge(q: seq<Point>, t: real): seq<Point>
    requires |q| >= 1
    decreases |q|
  {
    [q[0]] + if |q| == 1 then [] else LeftEdge(Level(q, t), t)
  }

  /** The last point of every level, starting with the control points themselves. */
  function RightEdge(q: seq<Point>, t: real): seq<Point>
    requires |q| >= 1
    decreases |q|
  {
    [q[|q| - 1]] + if |q| == 1 then [] else RightEdge(Level(q, t), t)
  }

  /** Blending the next pair of neighbours extends a prefix of the level by one point. */
  lemma LevelPush(q: seq<Point>, t: real, i: nat, done: seq<Point>, next: Point)
    requires i < |q| - 1 && done == Level(q, t)[..i] && next == Lerp(q[i], q[i + 1], t)
    ensures done + [next] == Level(q, t)[..i + 1] && Level(q, t)[i] == next
  {
  }

  /** The source's blend of two neighbours, coordinate by coordinate, extends a prefix of the level. */
  lemma BlendPush(q: seq<Point>, t: real, i: nat, done: seq<Point>, x: real, y: real)
    requires i < |q| - 1 && done == Level(q, t)[..i]
    requires x == q[i + 1].x * t + q[i].x * (1.0 - t) && y == q[i + 1].y * t + q[i].y * (1.0 - t)
    ensures done + [Point(x, y)] == Level(q, t)[..i + 1]
  {
    LevelPush(q, t, i, done, Point(x, y));
  }

  /**
   * Whatever remains to be appended after the first point of the left edge: the next level's first
   * point, then the rest of that level's left edge.
   */
  lemma LeftEdgeAdvance(q: seq<Point>, t: real, target: seq<Point>, pushed: seq<Point>)
    requires |q| >= 2 && target == pushed + LeftEdge(q, t)[1..]
    ensures target == (pushed + [Level(q, t)[0]]) + LeftEdge(Level(q, t), t)[1..]
  {
    var l := Level(q, t);
    assert LeftEdge(q, t)[1..] == LeftEdge(l, t) == [l[0]] + LeftEdge(l, t)[1..];
  }

  /** The same for the right edge, whose next point is the next level's last point. */
  lemma RightEdgeAdvance(q: seq<Point>, t: real, target: seq<Point>, pushed: seq<Point>)
    requires |q| >= 2 && target == pushed + RightEdge(q, t)[1..]
    ensures target == (pushed + [Level(q, t)[|q| - 2]]) + RightEdge(Level(q, t), t)[1..]
  {
    var l := Level(q, t);
    assert RightEdge(q, t)[1..] == RightEdge(l, t) == [l[|q| - 2]] + RightEdge(l, t)[1..];
  }

  /** Blending all but the last, or all but the first, point is a prefix, or a suffix, of the level. */
  lemma LevelOfFrontAndBack(q: seq<Point>, t: real)
    requires |q| >= 2
    ensures Level(q[..|q| - 1], t) == Level(q, t)[..|q| - 2]
    ensures Level(q[1..], t) == Level(q, t)[1..]
  {
  }

  /** The construction obeys the same recurrence as the Bernstein form. */
  lemma {:induction false} CurvePointSplit(q: seq<Point>, t: real)
    requires |q| >= 2
    ensures CurvePoint(q, t)
         == Add(Scale(1.0 - t, CurvePoint(q[..|q| - 1], t)), Scale(t, CurvePoint(q[1..], t)))
    decreases |q|
  {
    var l := Level(q, t);
    if |q| > 2 {
      CurvePointSplit(l, t);
      LevelOfFrontAndBack(q, t);
    }
  }

  /** The de Casteljau point at t is the Bernstein sum at t, for every t and every non-empty curve. */
  lemma {:induction false} CurvePointIsBernstein(q: seq<Point>, t: real)
    requires |q| >= 1
    ensures CurvePoint(q, t) == BernsteinSum(q, t)
    decreases |q|
  {
    if |q| == 1 {
      assert Weight(0, 0, t) == 1.0;
      assert SumFrom(q, t, 1) == Origin;
      assert Term(q, t, 0) == q[0];
    } else {
      CurvePointSplit(q, t);
      CurvePointIsBernstein(q[..|q| - 1], t);
      CurvePointIsBernstein(q[1..], t);
      BernsteinSplit(q, t);
    }
  }

  /** A curve whose control points all coincide is that point: the Bernstein weights sum to one. */
  lemma {:induction false} ConstantCurve(q: seq<Point>, c: Point, t: real)
    requires |q| >= 1 && forall j :: 0 <= j < |q| ==> q[j] == c
    ensures BernsteinSum(q, t) == c
  {
    ConstantCurvePoint(q, c, t);
    CurvePointIsBernstein(q, t);
  }

  lemma {:induction false} ConstantCurvePoint(q: seq<Point>, c: Point, t: real)
    requires |q| >= 1 && forall j :: 0 <= j < |q| ==> q[j] == c
    ensures CurvePoint(q, t) == c
    decreases |q|
  {
    if |q| > 1 {
      ConstantCurvePoint(Level(q, t), c, t);
    }
  }

  /**
   * The animation frames: one per control point; frame i, for i < |q| − 1, has |q| − 1 − i points
   * and, for 0 < i < |q| − 1, is the blend of frame i − 1; the last frame holds only the curve point
   * and is a copy of the one-point frame before it.
   */
  lemma {:induction false} FramesShape(q: seq<Point>, t: real)
    requires |q| >= 1
    ensures |Frames(q, t)| == |q|
    ensures forall i :: 0 <= i < |q| - 1 ==> |Frames(q, t)[i]| == |q| - 1 - i
    ensures |q| >= 2 ==> Frames(q, t)[0] == Level(q, t)
    ensures forall i :: 0 <= i < |q| - 2 ==> Frames(q, t)[i + 1] == Level(Frames(q, t)[i], t)
    ensures Frames(q, t)[|q| - 1] == [CurvePoint(q, t)]
    ensures |q| >= 2 ==> Frames(q, t)[|q| - 1] == Frames(q, t)[|q| - 2]
    decreases |q|
  {
    if |q| > 1 {
      var l := Level(q, t);
      FramesShape(l, t);
      var f := Frames(q, t);
      assert f == [l] + Frames(l, t);
      forall i | 0 <= i < |q| - 2
        ensures f[i + 1] == Level(f[i], t)
      {
        if i > 0 {
          assert f[i + 1] == Frames(l, t)[i] && f[i] == Frames(l, t)[i - 1];
        }
      }
    }
  }

  /** Both edges have one point per control point and meet in the curve point. */
  lemma {:induction false} EdgesShape(q: seq<Point>, t: real)
    requires |q| >= 1
    ensures |LeftEdge(q, t)| == |q| && LeftEdge(q, t)[0] == q[0]
    ensures |RightEdge(q, t)| == |q| && RightEdge(q, t)[0] == q[|q| - 1]
    ensures LeftEdge(q, t)[|q| - 1] == CurvePoint(q, t) == RightEdge(q, t)[|q| - 1]
    decreases |q|
  {
    if |q| > 1 {
      EdgesShape(Level(q, t), t);
    }
  }
}
