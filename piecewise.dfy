/**
 * The piecewise compositions: how a flat control-point sequence is cut into segments under C0
 * (shared endpoints) and C1 (shared endpoints with synthesized midpoints) continuity.
 */
module Piecewise {
  import opened Geometry
  import opened Bernstein

  function DropFirst(s: seq<Point>): seq<Point>
  {
    if s == [] then [] else s[1..]
  }

  /** The first k groups glued back together, each later group's shared first point dropped. */
  function JoinFirst(gs: seq<seq<Point>>, k: nat): seq<Point>
    requires k <= |gs|
  {
    if k == 0 then []
    else if k == 1 then gs[0]
    else JoinFirst(gs, k - 1) + DropFirst(gs[k - 1])
  }

  /** All the groups glued back together. */
  function JoinShared(gs: seq<seq<Point>>): seq<Point>
  {
    JoinFirst(gs, |gs|)
  }

  /** Gluing depends only on the groups glued. */
  lemma {:induction false} JoinFirstSame(a: seq<seq<Point>>, b: seq<seq<Point>>, k: nat)
    requires k <= |a| && k <= |b| && forall i :: 0 <= i < k ==> a[i] == b[i]
    ensures JoinFirst(a, k) == JoinFirst(b, k)
  {
    if k > 1 {
      JoinFirstSame(a, b, k - 1);
    }
  }

  /** The last point of a is the first point of b. */
  predicate SharedEnd(a: seq<Point>, b: seq<Point>)
  {
    a != [] && b != [] && a[|a| - 1] == b[0]
  }

  /**
   * The C0 cut of p at degree d: every group but the last has d + 1 points, each group ends in the
   * point the next one starts with, the last group has at most d points, and dropping the shared
   * points gives back p in order.
   */
  ghost predicate IsC0Partition(p: seq<Point>, d: nat, gs: seq<seq<Point>>)
  {
    |gs| >= 1 &&
    (forall k :: 0 <= k < |gs| - 1 ==> |gs[k]| == d + 1) &&
    (forall k :: 0 <= k < |gs| - 1 ==> SharedEnd(gs[k], gs[k + 1])) &&
    |gs[|gs| - 1]| <= d &&
    JoinShared(gs) == p
  }

  /**
   * What the C0 loop has built once idx points have been consumed: full groups of d + 1 points,
   * each sharing its last point with the next, which glue back to p[..idx + 1], the last group
   * ending at p[idx].
   */
  ghost predicate C0Progress(p: seq<Point>, d: nat, gs: seq<seq<Point>>, idx: nat)
  {
    (gs == [] ==> idx == 0) &&
    (forall k :: 0 <= k < |gs| ==> |gs[k]| == d + 1) &&
    (forall k :: 0 <= k < |gs| - 1 ==> SharedEnd(gs[k], gs[k + 1])) &&
    (gs != [] ==> idx < |p| && gs[|gs| - 1][d] == p[idx] && JoinShared(gs) == p[..idx + 1])
  }

  /** Taking the window p[idx .. idx + d + 1] as the next group consumes d more points. */
  lemma C0ProgressStep(p: seq<Point>, d: nat, gs: seq<seq<Point>>, idx: nat, g: seq<Point>)
    requires C0Progress(p, d, gs, idx) && idx + d < |p| && g == p[idx .. idx + d + 1]
    ensures C0Progress(p, d, gs + [g], idx + d)
  {
    var gs' := gs + [g];
    assert gs'[|gs|] == g;
    JoinFirstSame(gs', gs, |gs|);
    if gs != [] {
      assert SharedEnd(gs[|gs| - 1], g);
      assert DropFirst(g) == p[idx + 1 .. idx + d + 1];
      assert JoinShared(gs') == p[..idx + 1] + p[idx + 1 .. idx + d + 1];
      assert p[..idx + 1] + p[idx + 1 .. idx + d + 1] == p[..idx + d + 1];
    } else {
      assert JoinShared(gs') == g;
    }
  }

  /** The points from idx on, at most d of them, form the last group and complete the cut. */
  lemma C0ProgressFinish(p: seq<Point>, d: nat, gs: seq<seq<Point>>, idx: nat, last: seq<Point>)
    requires C0Progress(p, d, gs, idx) && idx <= |p| && |p| - idx <= d && last == p[idx..]
    ensures IsC0Partition(p, d, gs + [last])
  {
    var gs' := gs + [last];
    assert gs'[|gs|] == last;
    JoinFirstSame(gs', gs, |gs|);
    if gs != [] {
      assert SharedEnd(gs[|gs| - 1], last);
      assert DropFirst(last) == p[idx + 1..];
      assert p[..idx + 1] + p[idx + 1..] == p;
    } else {
      assert last == p;
    }
  }

  /** Gluing fewer groups gives a prefix of gluing more. */
  lemma {:induction false} JoinPrefix(gs: seq<seq<Point>>, j: nat, m: nat)
    requires j <= m <= |gs|
    ensures JoinFirst(gs, j) <= JoinFirst(gs, m)
    decreases m - j
  {
    if j < m {
      JoinPrefix(gs, j + 1, m);
    }
  }

  /** Gluing k + 1 groups of d + 1 points gives k·d + d + 1 points: each later group adds d. */
  lemma {:induction false} JoinLength(gs: seq<seq<Point>>, d: nat, k: nat)
    requires k < |gs| && forall j :: 0 <= j <= k ==> |gs[j]| == d + 1
    ensures |JoinFirst(gs, k + 1)| == k * d + d + 1
  {
    if k > 0 {
      JoinLength(gs, d, k - 1);
      StrideStep(k, d);
    }
  }

  /** Glued groups end in the last point of the last group glued, when that group has two or more. */
  lemma JoinEndsWithLast(gs: seq<seq<Point>>, k: nat)
    requires 1 <= k <= |gs| && |gs[k - 1]| >= 2
    ensures |JoinFirst(gs, k)| >= 1
    ensures JoinFirst(gs, k)[|JoinFirst(gs, k)| - 1] == gs[k - 1][|gs[k - 1]| - 1]
  {
  }

  /**
   * Group k of a C0 cut is the window p[k·d .. k·d + d + 1]: when the first k + 1 groups have d + 1
   * points each, group k starts with the point group k − 1 ends in, and the glued groups are a
   * prefix of p, the index advances by d per group.
   */
  lemma C0Window(p: seq<Point>, d: nat, gs: seq<seq<Point>>, k: nat)
    requires k < |gs| && d >= 1 && forall j :: 0 <= j <= k ==> |gs[j]| == d + 1
    requires k >= 1 ==> SharedEnd(gs[k - 1], gs[k])
    requires JoinFirst(gs, k + 1) <= p
    ensures k * d + d + 1 <= |p| && gs[k] == p[k * d .. k * d + d + 1]
    ensures JoinFirst(gs, k + 1) == p[..k * d + d + 1]
  {
    JoinLength(gs, d, k);
    var s := k * d;
    if k == 0 {
      assert JoinFirst(gs, 1) == gs[0];
    } else {
      JoinLength(gs, d, k - 1);
      StrideStep(k, d);
      JoinEndsWithLast(gs, k);
      C0WindowAfter(p, d, gs[k], JoinFirst(gs, k), JoinFirst(gs, k + 1), s);
    }
  }

  /** Group k of a C0 partition, other than the last, is the window p[k·d .. k·d + d + 1]. */
  lemma C0PartitionWindow(p: seq<Point>, d: nat, gs: seq<seq<Point>>, k: nat)
    requires IsC0Partition(p, d, gs) && k < |gs| - 1
    ensures k * d + d + 1 <= |p| && gs[k] == p[k * d .. k * d + d + 1]
  {
    C0Facts(p, d, gs, k);
    C0Window(p, d, gs, k);
  }

  /** The facts `C0Window` needs, read off a C0 partition for a group k other than the last. */
  lemma C0Facts(p: seq<Point>, d: nat, gs: seq<seq<Point>>, k: nat)
    requires IsC0Partition(p, d, gs) && k < |gs| - 1
    ensures d >= 1 && (forall j :: 0 <= j <= k ==> |gs[j]| == d + 1)
    ensures (k >= 1 ==> SharedEnd(gs[k - 1], gs[k])) && JoinFirst(gs, k + 1) <= p
  {
    assert SharedEnd(gs[|gs| - 2], gs[|gs| - 1]);
    if k >= 1 {
      assert SharedEnd(gs[k - 1], gs[k]);
    }
    JoinPrefix(gs, k + 1, |gs|);
  }

  /**
   * The group glued after a prefix of s + 1 points that ends in the group's first point is the
   * window of d + 1 points at s.
   */
  lemma C0WindowAfter(p: seq<Point>, d: nat, g: seq<Point>, joined: seq<Point>, next: seq<Point>, s: nat)
    requires |g| == d + 1 && d >= 1 && |joined| == s + 1 && joined[s] == g[0]
    requires next == joined + DropFirst(g) && next <= p
    ensures s + d + 1 <= |p| && g == p[s .. s + d + 1] && next == p[..s + d + 1]
  {
    assert DropFirst(g) == g[1..];
    assert forall i :: 0 <= i < d + 1 ==> g[i] == next[s + i];
  }

  /**
   * With |p| >= 1 the groups cover p exactly: q = |gs| − 1 full strides of d leave between 1 and d
   * points for the last group, so |gs| is (|p| − 1) / d + 1.
   */
  lemma C0GroupCount(p: seq<Point>, d: nat, gs: seq<seq<Point>>)
    requires |p| >= 1 && IsC0Partition(p, d, gs)
    ensures (|gs| - 1) * d + 1 <= |p| <= (|gs| - 1) * d + d
    ensures 1 <= |gs[|gs| - 1]| <= d
  {
    var q := |gs| - 1;
    if q == 0 {
      assert gs[0] == p;
    } else {
      JoinLength(gs, d, q - 1);
      StrideStep(q, d);
      assert SharedEnd(gs[q - 1], gs[q]);
      assert |JoinShared(gs)| == |JoinFirst(gs, q)| + |gs[q]| - 1;
    }
  }

  lemma StrideStep(k: nat, d: nat)
    requires k >= 1
    ensures (k - 1) * d + d == k * d
  {
  }

  /** Each C0 piece, drawn as a Bézier curve, ends where the next piece starts. */
  lemma C0PiecesMeet(p: seq<Point>, d: nat, gs: seq<seq<Point>>, k: nat)
    requires IsC0Partition(p, d, gs) && k < |gs| - 1
    ensures BernsteinSum(gs[k], 1.0) == BernsteinSum(gs[k + 1], 0.0)
  {
    assert SharedEnd(gs[k], gs[k + 1]);
    BernsteinAtOne(gs[k]);
    BernsteinAtZero(gs[k + 1]);
  }

  /** The raw points of the C1 segments that are not the last: all but the synthesized ends. */
  function RawPrefix(ss: seq<seq<Point>>): seq<Point>
    requires forall k :: 0 <= k < |ss| ==> |ss[k]| >= 2
    decreases |ss|
  {
    if ss == [] then []
    else if |ss| == 1 then ss[0][..|ss[0]| - 1]
    else RawPrefix(ss[..|ss| - 1]) + ss[|ss| - 1][1..|ss[|ss| - 1]| - 1]
  }

  /** The raw points of all C1 segments: the last segment only starts with a synthesized point. */
  function RawPoints(segs: seq<seq<Point>>): seq<Point>
    requires |segs| >= 1 && forall k :: 0 <= k < |segs| ==> |segs[k]| >= 2
  {
    RawPrefix(segs[..|segs| - 1]) + segs[|segs| - 1][1..]
  }

  /**
   * The C1 cut of p at degree d: at least two segments, all of d + 1 points but the last, which has
   * 3 to d + 1; the raw points, read in order, are p; each segment ends in the point the next starts
   * with, and the control-polygon leg into that point equals the leg out of it.
   */
  ghost predicate IsC1Partition(p: seq<Point>, d: nat, segs: seq<seq<Point>>)
  {
    d >= 2 && |segs| >= 2 &&
    (forall k :: 0 <= k < |segs| - 1 ==> |segs[k]| == d + 1) &&
    3 <= |segs[|segs| - 1]| <= d + 1 &&
    RawPoints(segs) == p &&
    (forall k :: 0 <= k < |segs| - 1 ==>
       segs[k][d] == segs[k + 1][0] &&
       Sub(segs[k][d], segs[k][d - 1]) == Sub(segs[k + 1][1], segs[k + 1][0]))
  }

  /**
   * What the C1 loop has built once idx raw points have been consumed: segments of d + 1 points
   * whose raw points are p[..idx], joined with equal control-polygon legs; the last ends in the
   * boundary point, the midpoint of p[idx − 1] and p[idx], so the leg out of it continues to p[idx].
   */
  ghost predicate C1Progress(p: seq<Point>, d: nat, segs: seq<seq<Point>>, idx: nat, boundary: Point)
  {
    d >= 2 && |segs| >= 1 && 1 <= idx < |p| &&
    (forall k :: 0 <= k < |segs| ==> |segs[k]| == d + 1) &&
    RawPrefix(segs) == p[..idx] &&
    segs[|segs| - 1][d] == boundary &&
    segs[|segs| - 1][d - 1] == p[idx - 1] &&
    Sub(boundary, p[idx - 1]) == Sub(p[idx], boundary) &&
    (forall k :: 0 <= k < |segs| - 1 ==>
       segs[k][d] == segs[k + 1][0] &&
       Sub(segs[k][d], segs[k][d - 1]) == Sub(segs[k + 1][1], segs[k + 1][0]))
  }

  /**
   * The first segment: the first d points, then the midpoint (x, y) of p[d − 1] and p[d], computed
   * coordinate by coordinate.
   */
  lemma C1ProgressFirst(p: seq<Point>, d: nat, first: seq<Point>, x: real, y: real)
    requires d >= 2 && d < |p| && first == p[..d] + [Point(x, y)]
    requires x == (p[d - 1].x + p[d].x) / 2.0 && y == (p[d - 1].y + p[d].y) / 2.0
    ensures C1Progress(p, d, [first], d, Point(x, y))
  {
    MidIffEqualLegs(p[d - 1], Point(x, y), p[d]);
    assert RawPrefix([first]) == first[..d] == p[..d];
  }

  /**
   * A middle segment: the previous boundary, the d − 1 raw points from idx, then the midpoint of the
   * last of them and the next raw point.
   */
  lemma C1ProgressStep(p: seq<Point>, d: nat, segs: seq<seq<Point>>, idx: nat, boundary: Point,
                       j: nat, next: seq<Point>, x: real, y: real)
    requires C1Progress(p, d, segs, idx, boundary) && j == idx + d - 1 && j < |p|
    requires next == [boundary] + p[idx .. j] + [Point(x, y)]
    requires x == (p[j - 1].x + p[j].x) / 2.0 && y == (p[j - 1].y + p[j].y) / 2.0
    ensures C1Progress(p, d, segs + [next], j, Point(x, y))
  {
    var boundary' := Point(x, y);
    var segs' := segs + [next];
    MidIffEqualLegs(p[j - 1], boundary', p[j]);
    assert segs'[..|segs|] == segs;
    assert segs'[|segs|] == next;
    assert next[1..|next| - 1] == p[idx .. j];
    assert RawPrefix(segs') == p[..idx] + p[idx .. j] == p[..j];
    assert next[0] == boundary && next[1] == p[idx];
    assert next[d - 1] == p[j - 1] && next[d] == boundary';
  }

  /** The last segment: the boundary, then every remaining raw point, between 2 and d of them. */
  lemma C1ProgressFinish(p: seq<Point>, d: nat, segs: seq<seq<Point>>, idx: nat, boundary: Point,
                         last: seq<Point>)
    requires C1Progress(p, d, segs, idx, boundary) && |p| - idx <= d && |p| - idx >= 2
    requires last == [boundary] + p[idx..]
    ensures IsC1Partition(p, d, segs + [last])
  {
    var segs' := segs + [last];
    assert segs'[..|segs|] == segs;
    assert segs'[|segs|] == last;
    assert last[1..] == p[idx..];
    assert RawPoints(segs') == p[..idx] + p[idx..] == p;
    assert last[0] == boundary && last[1] == p[idx];
  }

  /**
   * Consequences of a C1 cut: every boundary point is the midpoint of the raw points on either side
   * of it, and the drawn pieces meet there.
   */
  lemma C1Boundary(p: seq<Point>, d: nat, segs: seq<seq<Point>>, k: nat)
    requires IsC1Partition(p, d, segs) && k < |segs| - 1
    ensures segs[k + 1][0] == Mid(segs[k][d - 1], segs[k + 1][1])
    ensures BernsteinSum(segs[k], 1.0) == BernsteinSum(segs[k + 1], 0.0)
  {
    MidIffEqualLegs(segs[k][d - 1], segs[k + 1][0], segs[k + 1][1]);
    BernsteinAtOne(segs[k]);
    BernsteinAtZero(segs[k + 1]);
  }
}
