/** Two-dimensional points with value semantics, and the vector operations the curve engine uses. */
module Geometry {

  datatype Point = Point(x: real, y: real)

  const Origin: Point := Point(0.0, 0.0)

  function Add(a: Point, b: Point): Point {
    Point(a.x + b.x, a.y + b.y)
  }

  function Sub(a: Point, b: Point): Point {
    Point(a.x - b.x, a.y - b.y)
  }

  function Scale(c: real, a: Point): Point {
    Point(c * a.x, c * a.y)
  }

  /** One de Casteljau blend, written as the source writes it: b·t + a·(1 − t). */
  function Lerp(a: Point, b: Point, t: real): Point {
    Point(b.x * t + a.x * (1.0 - t), b.y * t + a.y * (1.0 - t))
  }

  /** The midpoint that subdivision and the C1 partition synthesize: (a + b) / 2, per coordinate. */
  function Mid(a: Point, b: Point): Point {
    Point((a.x + b.x) / 2.0, (a.y + b.y) / 2.0)
  }

  /** Subdivision's midpoint is the de Casteljau blend at t = 1/2. */
  lemma MidIsHalfLerp(a: Point, b: Point)
    ensures Mid(a, b) == Lerp(a, b, 0.5)
  {
  }

  /** A point is the midpoint of a and c exactly when the two control-polygon legs around it, b − a and c − b, agree. */
  lemma MidIffEqualLegs(a: Point, b: Point, c: Point)
    ensures b == Mid(a, c) <==> Sub(b, a) == Sub(c, b)
  {
  }

  /** Scaling by a combined weight is the combination of the scaled points. */
  lemma ScaleCombined(w: real, s: real, t: real, u: real, v: real, a: Point)
    requires w == s * u + t * v
    ensures Scale(w, a) == Add(Scale(s, Scale(u, a)), Scale(t, Scale(v, a)))
  {
  }

  /** Regrouping a sum of two s/t-combinations into one s/t-combination of sums. */
  lemma Regroup(s: real, t: real, a: Point, b: Point, c: Point, d: Point)
    ensures Add(Add(Scale(s, a), Scale(t, b)), Add(Scale(s, c), Scale(t, d)))
         == Add(Scale(s, Add(a, c)), Scale(t, Add(b, d)))
  {
  }

  lemma ScaleTwice(w: real, s: real, u: real, a: Point)
    requires w == s * u
    ensures Scale(w, a) == Scale(s, Scale(u, a))
  {
  }

  lemma RegroupFirst(s: real, t: real, a: Point, c: Point, d: Point)
    ensures Add(Scale(s, a), Add(Scale(s, c), Scale(t, d))) == Add(Scale(s, Add(a, c)), Scale(t, d))
  {
  }
}
