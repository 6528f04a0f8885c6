/** The explicit Bernstein form of a Bézier curve, the specification of the source's evaluate loop. */
module Bernstein {
  import opened Geometry
  import opened Binomial

  /** Math.pow with a natural exponent; pow(x, 0) is 1, also for x = 0. */
  function Pow(x: real, e: nat): real
  {
    if e == 0 then 1.0 else x * Pow(x, e - 1)
  }

  /** The Bernstein basis weight C(d, i)·t^i·(1 − t)^(d − i). */
  function Weight(d: nat, i: nat, t: real): real
    requires i <= d
  {
    (Choose(d, i) as real) * Pow(t, i) * Pow(1.0 - t, d - i)
  }

  /** The i-th summand of the curve of degree |p| − 1. */
  function Term(p: seq<Point>, t: real, i: nat): Point
    requires i < |p|
  {
    Scale(Weight(|p| - 1, i, t), p[i])
  }

  /** The summands from index lo to the last control point. */
  function SumFrom(p: seq<Point>, t: real, lo: nat): Point
    requires lo <= |p|
    decreases |p| - lo
  {
    if lo == |p| then Origin else Add(Term(p, t, lo), SumFrom(p, t, lo + 1))
  }

  /** P(t) = Σ C(m, i)·t^i·(1 − t)^(m − i)·p[i] with m = |p| − 1. */
  function BernsteinSum(p: seq<Point>, t: real): Point
  {
    SumFrom(p, t, 0)
  }

  /** One coordinate of a summand, its factors in the order the source multiplies them. */
  function Contribution(coord: real, c: int, t: real, i: nat, m: nat): real
    requires i <= m
  {
    coord * (c as real) * Pow(t, i) * Pow(1.0 - t, m - i)
  }

  /** A summand coordinate by coordinate, as the source computes it. */
  lemma TermCoordinates(p: seq<Point>, t: real, m: nat, i: nat, c: int)
    requires m == |p| - 1 && i <= m && c == Choose(m, i)
    ensures Term(p, t, i) == Point(Contribution(p[i].x, c, t, i, m), Contribution(p[i].y, c, t, i, m))
  {
  }

  /**
   * One step of the source's summation loop: adding summand i, its factors multiplied in the
   * source's order, to the summands above i gives the summands from i on.
   */
  lemma SumFromStep(p: seq<Point>, t: real, m: nat, i: nat, c: int, totalX: real, totalY: real,
                    termX: real, termY: real)
    requires m == |p| - 1 && i <= m && c == Choose(m, i)
    requires Point(totalX, totalY) == SumFrom(p, t, i + 1)
    requires termX == Contribution(p[i].x, c, t, i, m) && termY == Contribution(p[i].y, c, t, i, m)
    ensures Point(totalX + termX, totalY + termY) == SumFrom(p, t, i)
  {
    TermCoordinates(p, t, m, i, c);
  }

  lemma {:induction false} PowZero(e: nat)
    requires e >= 1
    ensures Pow(0.0, e) == 0.0
  {
  }

  lemma {:induction false} PowOne(e: nat)
    ensures Pow(1.0, e) == 1.0
  {
    if e > 0 {
      PowOne(e - 1);
    }
  }

  lemma {:induction false} SumFromVanishesAtZero(p: seq<Point>, lo: nat)
    requires 1 <= lo <= |p|
    ensures SumFrom(p, 0.0, lo) == Origin
    decreases |p| - lo
  {
    if lo < |p| {
      SumFromVanishesAtZero(p, lo + 1);
      PowZero(lo);
      var w := Weight(|p| - 1, lo, 0.0);
      assert w == 0.0;
      assert Term(p, 0.0, lo) == Scale(w, p[lo]) == Origin;
    }
  }

  /** The curve starts at its first control point: P(0) = p[0]. */
  lemma BernsteinAtZero(p: seq<Point>)
    requires |p| >= 1
    ensures BernsteinSum(p, 0.0) == p[0]
  {
    SumFromVanishesAtZero(p, 1);
    PowOne(|p| - 1);
    assert Weight(|p| - 1, 0, 0.0) == 1.0;
  }

  lemma {:induction false} SumFromAtOne(p: seq<Point>, lo: nat)
    requires 1 <= |p| && lo <= |p| - 1
    ensures SumFrom(p, 1.0, lo) == p[|p| - 1]
    decreases |p| - lo
  {
    var m := |p| - 1;
    if lo == m {
      ChooseAll(m);
      PowOne(m);
      assert Weight(m, m, 1.0) == 1.0;
    } else {
      SumFromAtOne(p, lo + 1);
      PowZero(m - lo);
      assert Weight(m, lo, 1.0) == 0.0;
    }
  }

  /** The curve ends at its last control point: P(1) = p[m]. */
  lemma BernsteinAtOne(p: seq<Point>)
    requires |p| >= 1
    ensures BernsteinSum(p, 1.0) == p[|p| - 1]
  {
    SumFromAtOne(p, 0);
  }

  /** One weight of degree n splits by Pascal's rule into two weights of degree n − 1. */
  lemma WeightSplit(n: nat, i: nat, t: real, s: real)
    requires 1 <= i <= n - 1 && s == 1.0 - t
    ensures Weight(n, i, t) == s * Weight(n - 1, i, t) + t * Weight(n - 1, i - 1, t)
  {
    var a, b := Choose(n - 1, i) as real, Choose(n - 1, i - 1) as real;
    var ti, si := Pow(t, i - 1), Pow(s, n - 1 - i);
    assert Choose(n, i) as real == a + b;
    assert Pow(t, i) == t * ti;
    assert Pow(s, n - i) == s * si;
    assert n - 1 - (i - 1) == n - i;
    assert Weight(n - 1, i, t) == a * (t * ti) * si;
    assert Weight(n - 1, i - 1, t) == b * ti * (s * si);
    RingIdentity(a, b, s, t, si, ti);
  }

  lemma RingIdentity(a: real, b: real, s: real, t: real, si: real, ti: real)
    ensures (a + b) * (t * ti) * (s * si) == s * (a * (t * ti) * si) + t * (b * ti * (s * si))
  {
  }

  lemma WeightFirst(n: nat, t: real)
    requires n >= 1
    ensures Weight(n, 0, t) == (1.0 - t) * Weight(n - 1, 0, t)
  {
    assert Pow(1.0 - t, n) == (1.0 - t) * Pow(1.0 - t, n - 1);
  }

  /** One summand of degree n splits into summands of the two degree n − 1 curves. */
  lemma TermSplit(p: seq<Point>, t: real, lo: nat)
    requires |p| >= 2 && 1 <= lo <= |p| - 2
    ensures Term(p, t, lo) == Add(Scale(1.0 - t, Term(p[..|p| - 1], t, lo)), Scale(t, Term(p[1..], t, lo - 1)))
  {
    var n := |p| - 1;
    var s := 1.0 - t;
    WeightSplit(n, lo, t, s);
    assert p[..n][lo] == p[lo] && p[1..][lo - 1] == p[lo];
    ScaleCombined(Weight(n, lo, t), s, t, Weight(n - 1, lo, t), Weight(n - 1, lo - 1, t), p[lo]);
  }

  /** The generalised recurrence over the summands from lo on, proved downwards from the last one. */
  lemma {:induction false} SumFromSplit(p: seq<Point>, t: real, lo: nat)
    requires |p| >= 2 && 1 <= lo <= |p| - 1
    ensures SumFrom(p, t, lo)
         == Add(Scale(1.0 - t, SumFrom(p[..|p| - 1], t, lo)), Scale(t, SumFrom(p[1..], t, lo - 1)))
    decreases |p| - lo
  {
    var n := |p| - 1;
    var s := 1.0 - t;
    var front, back := p[..n], p[1..];
    if lo == n {
      ChooseAll(n);
      ChooseAll(n - 1);
      assert Pow(t, n) == t * Pow(t, n - 1);
      assert Weight(n, n, t) == t * Weight(n - 1, n - 1, t);
      assert back[n - 1] == p[n];
      assert SumFrom(front, t, lo) == Origin;
    } else {
      SumFromSplit(p, t, lo + 1);
      TermSplit(p, t, lo);
      var tf, tb := Term(front, t, lo), Term(back, t, lo - 1);
      var rf, rb := SumFrom(front, t, lo + 1), SumFrom(back, t, lo);
      Regroup(s, t, tf, tb, rf, rb);
      calc {
        SumFrom(p, t, lo);
        Add(Term(p, t, lo), SumFrom(p, t, lo + 1));
        Add(Add(Scale(s, tf), Scale(t, tb)), Add(Scale(s, rf), Scale(t, rb)));
        Add(Scale(s, Add(tf, rf)), Scale(t, Add(tb, rb)));
        Add(Scale(s, SumFrom(front, t, lo)), Scale(t, SumFrom(back, t, lo - 1)));
      }
    }
  }

  /**
   * The degree-elevation recurrence P(t) = (1 − t)·P_front(t) + t·P_back(t), where P_front and P_back
   * are the curves of all but the last and all but the first control point.
   */
  lemma BernsteinSplit(p: seq<Point>, t: real)
    requires |p| >= 2
    ensures BernsteinSum(p, t)
         == Add(Scale(1.0 - t, BernsteinSum(p[..|p| - 1], t)), Scale(t, BernsteinSum(p[1..], t)))
  {
    var n := |p| - 1;
    var s := 1.0 - t;
    var front, back := p[..n], p[1..];
    SumFromSplit(p, t, 1);
    WeightFirst(n, t);
    assert front[0] == p[0];
    var tf, rf, rb := Term(front, t, 0), SumFrom(front, t, 1), SumFrom(back, t, 0);
    ScaleTwice(Weight(n, 0, t), s, Weight(n - 1, 0, t), p[0]);
    RegroupFirst(s, t, tf, rf, rb);
    calc {
      BernsteinSum(p, t);
      Add(Term(p, t, 0), SumFrom(p, t, 1));
      Add(Scale(s, tf), Add(Scale(s, rf), Scale(t, rb)));
      Add(Scale(s, Add(tf, rf)), Scale(t, rb));
      Add(Scale(s, BernsteinSum(front, t)), Scale(t, BernsteinSum(back, t)));
    }
  }
}
