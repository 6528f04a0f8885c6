/**
 * Midpoint subdivision: the two halves the source builds from one curve, and the rounds of
 * splitting that the subdivision drawing mode performs.
 */
module Subdivision {
  import opened Geometry
  import opened Bernstein
  import opened DeCasteljau

  /** The subdivision parameter: halves are taken at t = 1/2. */
  const HALF: real := 0.5

  /** What subdivision appends to the first curve: p[0], then the first point of every level. */
  function LeftHalf(p: seq<Point>): seq<Point>
  {
    if p == [] then [] else LeftEdge(p, HALF)
  }

  /** What subdivision appends to the second curve: p[n − 1], then the last point of every level. */
  function RightHalf(p: seq<Point>): seq<Point>
  {
    if p == [] then [] else RightEdge(p, HALF)
  }

  /** The source's midpoint of two neighbours extends a prefix of the level at 1/2 by one point. */
  lemma MidpointPush(q: seq<Point>, i: nat, done: seq<Point>, x: real, y: real)
    requires i < |q| - 1 && done == Level(q, HALF)[..i]
    requires x == (q[i].x + q[i + 1].x) / 2.0 && y == (q[i].y + q[i + 1].y) / 2.0
    ensures done + [Point(x, y)] == Level(q, HALF)[..i + 1] && Level(q, HALF)[i] == Point(x, y)
  {
    MidIsHalfLerp(q[i], q[i + 1]);
    LevelPush(q, HALF, i, done, Point(x, y));
  }

  /**
   * Both halves have as many points as the curve, start at its two ends, and end in the same point,
   * which is the curve evaluated at 1/2; as curves of their own, both halves end there too.
   */
  lemma HalvesMeetAtMidCurve(p: seq<Point>)
    requires |p| >= 1
    ensures |LeftHalf(p)| == |p| && |RightHalf(p)| == |p|
    ensures LeftHalf(p)[0] == p[0] && RightHalf(p)[0] == p[|p| - 1]
    ensures LeftHalf(p)[|p| - 1] == BernsteinSum(p, HALF) == RightHalf(p)[|p| - 1]
    ensures BernsteinSum(LeftHalf(p), 1.0) == BernsteinSum(p, HALF) == BernsteinSum(RightHalf(p), 1.0)
  {
    EdgesShape(p, HALF);
    CurvePointIsBernstein(p, HALF);
    BernsteinAtOne(LeftHalf(p));
    BernsteinAtOne(RightHalf(p));
  }

  /** Subdividing [(0, 0), (2, 2)] gives [(0, 0), (1, 1)] and, last point first, [(2, 2), (1, 1)]. */
  lemma HalvesOfSegment()
    ensures LeftHalf([Point(0.0, 0.0), Point(2.0, 2.0)]) == [Point(0.0, 0.0), Point(1.0, 1.0)]
    ensures RightHalf([Point(0.0, 0.0), Point(2.0, 2.0)]) == [Point(2.0, 2.0), Point(1.0, 1.0)]
  {
    var p := [Point(0.0, 0.0), Point(2.0, 2.0)];
    assert Level(p, HALF) == [Point(1.0, 1.0)];
  }

  /** One round of the work queue: every curve, in order, replaced by its two halves. */
  function SplitAll(cs: seq<seq<Point>>): seq<seq<Point>>
  {
    if cs == [] then [] else [LeftHalf(cs[0]), RightHalf(cs[0])] + SplitAll(cs[1..])
  }

  /** The curves after the given number of rounds. */
  function Rounds(cs: seq<seq<Point>>, rounds: nat): seq<seq<Point>>
  {
    if rounds == 0 then cs else SplitAll(Rounds(cs, rounds - 1))
  }

  function Pow2(e: nat): nat
  {
    if e == 0 then 1 else 2 * Pow2(e - 1)
  }

  /** The first round turns one curve into its two halves. */
  lemma FirstRound(c: seq<Point>)
    ensures Rounds([c], 1) == [LeftHalf(c), RightHalf(c)]
  {
    assert Rounds([c], 1) == SplitAll([c]) == [LeftHalf(c), RightHalf(c)] + SplitAll([]);
  }

  /** Splitting one more curve at the back of the queue adds its two halves at the back. */
  lemma {:induction false} SplitAllAppend(cs: seq<seq<Point>>, c: seq<Point>)
    ensures SplitAll(cs + [c]) == SplitAll(cs) + [LeftHalf(c), RightHalf(c)]
  {
    if cs != [] {
      assert (cs + [c])[1..] == cs[1..] + [c];
      SplitAllAppend(cs[1..], c);
    } else {
      assert [c][1..] == [];
    }
  }

  /**
   * The work queue partway through a round: the curves not yet split, then the halves of those
   * already split. Shifting the next curve off and pushing its halves advances the round by one.
   */
  lemma QueueStep(round: seq<seq<Point>>, done: nat, queue: seq<seq<Point>>)
    requires done < |round| && queue == round[done..] + SplitAll(round[..done])
    ensures queue[0] == round[done]
    ensures queue[1..] + [LeftHalf(queue[0]), RightHalf(queue[0])]
         == round[done + 1..] + SplitAll(round[..done + 1])
  {
    assert round[..done + 1] == round[..done] + [round[done]];
    SplitAllAppend(round[..done], round[done]);
  }

  lemma {:induction false} SplitAllShape(cs: seq<seq<Point>>, n: nat)
    requires forall k :: 0 <= k < |cs| ==> |cs[k]| == n
    ensures |SplitAll(cs)| == 2 * |cs|
    ensures forall k :: 0 <= k < |SplitAll(cs)| ==> |SplitAll(cs)[k]| == n
  {
    if cs != [] {
      SplitAllShape(cs[1..], n);
      if n > 0 {
        HalvesMeetAtMidCurve(cs[0]);
      }
    }
  }

  /** After L rounds from one curve of n points there are 2^L curves, each of n points. */
  lemma {:induction false} RoundsShape(cs: seq<seq<Point>>, rounds: nat, n: nat)
    requires forall k :: 0 <= k < |cs| ==> |cs[k]| == n
    ensures |Rounds(cs, rounds)| == |cs| * Pow2(rounds)
    ensures forall k :: 0 <= k < |Rounds(cs, rounds)| ==> |Rounds(cs, rounds)[k]| == n
  {
    if rounds > 0 {
      RoundsShape(cs, rounds - 1, n);
      SplitAllShape(Rounds(cs, rounds - 1), n);
      Doubling(|cs|, Pow2(rounds - 1));
    }
  }

  /** Starting from one curve of n points, L rounds give 2^L curves of n points each. */
  lemma RoundsOfOneCurve(c: seq<Point>, rounds: nat)
    ensures |Rounds([c], rounds)| == Pow2(rounds)
    ensures forall k :: 0 <= k < |Rounds([c], rounds)| ==> |Rounds([c], rounds)[k]| == |c|
  {
    RoundsShape([c], rounds, |c|);
  }

  lemma Doubling(a: nat, b: nat)
    ensures a * (2 * b) == 2 * (a * b)
  {
  }
}
