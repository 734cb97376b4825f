/** Points and strokes of a grease-pencil frame, with the exact (real-valued)
    vector arithmetic the drawing helpers use. */
module Geometry {

  /** A 3-D coordinate, the `co` of one stroke point. */
  datatype Point = Point(x: real, y: real, z: real)

  /** One grease-pencil stroke: its ordered points, whether it is drawn closed
      (`draw_cyclic`) and its `material_index`. */
  datatype Stroke = Stroke(points: seq<Point>, cyclic: bool, materialIndex: int)

  const Origin := Point(0.0, 0.0, 0.0)

  function Add(p: Point, q: Point): Point {
    Point(p.x + q.x, p.y + q.y, p.z + q.z)
  }

  function Sub(p: Point, q: Point): Point {
    Point(p.x - q.x, p.y - q.y, p.z - q.z)
  }

  function Neg(p: Point): Point {
    Point(-p.x, -p.y, -p.z)
  }

  function Scale(p: Point, c: real): Point {
    Point(c * p.x, c * p.y, c * p.z)
  }

  /** The componentwise average of two points (`_get_midpoint`): the point
      that is as far from p0 as p1 is from it. */
  function Midpoint(p0: Point, p1: Point): (m: Point)
    ensures Sub(m, p0) == Sub(p1, m)
    ensures Add(m, m) == Add(p0, p1)
  {
    Point((p0.x + p1.x) / 2.0, (p0.y + p1.y) / 2.0, (p0.z + p1.z) / 2.0)
  }

  /** q is reached from p by moving along exactly one axis by +len or -len
      (for len != 0: the two points differ in exactly one coordinate). */
  predicate AxisStep(p: Point, q: Point, len: real) {
    var d := Sub(q, p);
    ((d.x == len || d.x == -len) && d.y == 0.0 && d.z == 0.0) ||
    (d.x == 0.0 && (d.y == len || d.y == -len) && d.z == 0.0) ||
    (d.x == 0.0 && d.y == 0.0 && (d.z == len || d.z == -len))
  }

  /** The element after index i when s is read as a closed ring: the first
      element follows the last one. */
  function Following<T>(s: seq<T>, i: int): T
    requires 0 <= i < |s|
  {
    if i == |s| - 1 then s[0] else s[i + 1]
  }

  /** Number of coordinates in which p and q differ. */
  function DiffCount(p: Point, q: Point): (n: nat)
    ensures n <= 3
    ensures n == 0 <==> p == q
  {
    (if p.x != q.x then 1 else 0) + (if p.y != q.y then 1 else 0) + (if p.z != q.z then 1 else 0)
  }

  lemma AxisStepDiffersInOne(p: Point, q: Point, len: real)
    requires len != 0.0 && AxisStep(p, q, len)
    ensures DiffCount(p, q) == 1
  {
  }

  /** Every point of a stroke moved by v (`translate_stroke`); the stroke keeps
      its point count, order, closure and material. */
  function Translated(s: Stroke, v: Point): (t: Stroke)
    ensures |t.points| == |s.points| && t.cyclic == s.cyclic && t.materialIndex == s.materialIndex
    ensures forall i :: 0 <= i < |s.points| ==> Sub(t.points[i], s.points[i]) == v
  {
    s.(points := seq(|s.points|, i requires 0 <= i < |s.points| => Add(s.points[i], v)))
  }

  /** Translating back by -v undoes a translation by v. */
  lemma TranslatedInverse(s: Stroke, v: Point)
    ensures Translated(Translated(s, v), Neg(v)) == s
  {
    var t := Translated(Translated(s, v), Neg(v));
    assert t.points == s.points;
  }

  /** Two successive translations are one translation by the sum. */
  lemma TranslatedCompose(s: Stroke, v: Point, w: Point)
    ensures Translated(Translated(s, v), w) == Translated(s, Add(v, w))
  {
    var a := Translated(Translated(s, v), w);
    var b := Translated(s, Add(v, w));
    assert a.points == b.points;
  }

  /** Translation keeps every axis-aligned segment of the stroke, and its length. */
  lemma TranslatedKeepsAxisSteps(s: Stroke, v: Point, i: nat, j: nat, len: real)
    requires i < |s.points| && j < |s.points|
    ensures AxisStep(Translated(s, v).points[i], Translated(s, v).points[j], len)
        <==> AxisStep(s.points[i], s.points[j], len)
  {
  }

  lemma ConcatAt<T>(a: seq<T>, b: seq<T>, j: nat)
    requires j < |b|
    ensures |a| + j < |a + b| && (a + b)[|a| + j] == b[j]
  {
  }

  lemma ConcatFront<T>(a: seq<T>, b: seq<T>, j: nat)
    requires j < |a|
    ensures (a + b)[j] == a[j]
  {
  }
}
