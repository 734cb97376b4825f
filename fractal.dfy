/** The stroke sequence that `polygon_recursive` draws: a polygon, then
    (below the depth bound) the recursion into its inner polygon and into one
    five-point flap per vertex, in pre-order. */
module Fractal {
  import opened Geometry

  /** Python's `s[i]` for an index that may be negative (counted from the end). */
  function PyAt<T>(s: seq<T>, i: int): T
    requires -|s| <= i < |s|
  {
    if i < 0 then s[|s| + i] else s[i]
  }

  /** Midpoint i is that of the edge from vertex i to the next vertex of the
      closed polygon (the last edge closes back to vertex 0). */
  function Midpoints(poly: seq<Point>): (ms: seq<Point>)
    ensures |ms| == |poly|
  {
    seq(|poly|, i requires 0 <= i < |poly| => Midpoint(poly[i], Following(poly, i)))
  }

  /** Start at `start` and move halfway towards `target`, n times. */
  function Approach(start: Point, target: Point, n: nat): Point {
    if n == 0 then start else Midpoint(Approach(start, target, n - 1), target)
  }

  function Pow2(n: nat): (r: real)
    ensures r >= 1.0
  {
    if n == 0 then 1.0 else 2.0 * Pow2(n - 1)
  }

  /** The inner vertex built from midpoint m at depth `step`: first halfway
      from the origin to m, then `step` more halvings towards m. */
  function InnerVertex(m: Point, step: nat): Point {
    Approach(Midpoint(Origin, m), m, step)
  }

  /** In closed form the inner vertex is m scaled by 1 - 2^-(step+1): it
      lies on the segment from the origin to m, strictly short of m. */
  lemma {:induction false} InnerVertexClosedForm(m: Point, step: nat)
    ensures InnerVertex(m, step) == Scale(m, 1.0 - 1.0 / Pow2(step + 1))
  {
    if step == 0 {
      assert Pow2(1) == 2.0;
      assert InnerVertex(m, 0) == Midpoint(Origin, m);
    } else {
      InnerVertexClosedForm(m, step - 1);
      var c := 1.0 - 1.0 / Pow2(step);
      assert InnerVertex(m, step) == Midpoint(Scale(m, c), m);
      MidpointTowards(m, c);
      HalveGap(Pow2(step));
      assert Pow2(step + 1) == 2.0 * Pow2(step);
    }
  }

  /** Halfway from c m to m is ((c + 1) / 2) m. */
  lemma MidpointTowards(m: Point, c: real)
    ensures Midpoint(Scale(m, c), m) == Scale(m, (c + 1.0) / 2.0)
  {
    assert (c * m.x + m.x) / 2.0 == ((c + 1.0) / 2.0) * m.x;
    assert (c * m.y + m.y) / 2.0 == ((c + 1.0) / 2.0) * m.y;
    assert (c * m.z + m.z) / 2.0 == ((c + 1.0) / 2.0) * m.z;
  }

  /** Halving the gap 1/p between a factor and 1 leaves the gap 1/(2p). */
  lemma HalveGap(p: real)
    requires p >= 1.0
    ensures ((1.0 - 1.0 / p) + 1.0) / 2.0 == 1.0 - 1.0 / (2.0 * p)
  {
    assert 1.0 / (2.0 * p) == (1.0 / p) / 2.0;
  }

  /** The inner polygon at depth `step`: one inner vertex per edge midpoint,
      so it has as many sides as its parent. */
  function InnerPolygon(poly: seq<Point>, step: nat): (q: seq<Point>)
    ensures |q| == |poly|
  {
    var ms := Midpoints(poly);
    seq(|poly|, i requires 0 <= i < |poly| => InnerVertex(ms[i], step))
  }

  /** Vertex i of the inner polygon is midpoint i pulled towards the origin
      by the factor 1 - 2^-(step+1). */
  lemma InnerPolygonAt(poly: seq<Point>, step: nat, i: nat)
    requires i < |poly|
    ensures InnerPolygon(poly, step)[i] == Scale(Midpoints(poly)[i], 1.0 - 1.0 / Pow2(step + 1))
  {
    InnerVertexClosedForm(Midpoints(poly)[i], step);
  }

  /** Flap i: the five-point polygon around vertex i, between the two edges
      that meet there and the inner polygon (index i - 1 wraps to the last
      vertex when i is 0). */
  function Flap(poly: seq<Point>, step: nat, i: nat): (f: seq<Point>)
    requires i < |poly|
    ensures |f| == 5
  {
    var ms := Midpoints(poly);
    var inner := InnerPolygon(poly, step);
    [poly[i], PyAt(ms, i - 1), PyAt(inner, i - 1), inner[i], ms[i]]
  }

  /** The flap at vertex i starts at that vertex; its neighbours in the flap
      are the midpoints of the two polygon edges that meet at the vertex, and
      its middle points are the inner vertices built from those midpoints. */
  lemma FlapAtCorner(poly: seq<Point>, step: nat, i: nat)
    requires i < |poly|
    ensures var f := Flap(poly, step, i);
            var prev := PyAt(poly, i - 1);
            f[0] == poly[i] &&
            f[1] == Midpoint(prev, poly[i]) &&
            f[4] == Midpoint(poly[i], Following(poly, i)) &&
            f[2] == InnerVertex(f[1], step) &&
            f[3] == InnerVertex(f[4], step)
  {
    var k := |poly|;
    var j := if i == 0 then k - 1 else i - 1;
    var ms := Midpoints(poly);
    var inner := InnerPolygon(poly, step);
    assert PyAt(poly, i - 1) == poly[j];
    assert PyAt(ms, i - 1) == ms[j];
    assert PyAt(inner, i - 1) == inner[j];
    assert Following(poly, j) == poly[i];
    assert ms[j] == Midpoint(poly[j], poly[i]);
    assert inner[j] == InnerVertex(ms[j], step);
    assert inner[i] == InnerVertex(ms[i], step);
  }

  /** Recursion measure: how many levels are left above `step`. */
  function Height(step: int, maxSteps: int): nat {
    if step < maxSteps then maxSteps - step else 0
  }

  /** The flaps of poly at depth `step`, one per vertex, in vertex order. */
  function Flaps(poly: seq<Point>, step: nat): (fs: seq<seq<Point>>)
    ensures |fs| == |poly|
    ensures forall f :: f in fs ==> |f| == 5
  {
    seq(|poly|, i requires 0 <= i < |poly| => Flap(poly, step, i))
  }

  /** Every stroke one `polygon_recursive(poly, step, maxSteps)` call draws,
      in order: the polygon itself (closed, material `step`), and, while
      step < maxSteps, the strokes of the inner polygon followed by those of
      flaps 0 .. k-1, each one level deeper. */
  function PolygonStrokes(poly: seq<Point>, step: nat, maxSteps: int): (r: seq<Stroke>)
    decreases Height(step, maxSteps), 1
    ensures |r| >= 1 && r[0] == Stroke(poly, true, step)
  {
    [Stroke(poly, true, step)] +
    if step >= maxSteps then []
    else PolygonStrokes(InnerPolygon(poly, step), step + 1, maxSteps) + ListStrokes(Flaps(poly, step), step + 1, maxSteps)
  }

  /** The strokes of the calls on each polygon of polys in turn, all at depth
      `step`. */
  function ListStrokes(polys: seq<seq<Point>>, step: nat, maxSteps: int): seq<Stroke>
    decreases Height(step, maxSteps) + 1, 0, |polys|
  {
    if polys == [] then []
    else ListStrokes(polys[..|polys| - 1], step, maxSteps) + PolygonStrokes(polys[|polys| - 1], step, maxSteps)
  }

  /** Below the bound, the strokes of one call after those already drawn
      are: its polygon, then the inner recursion, then the flap recursions. */
  lemma AppendCall(prefix: seq<Stroke>, poly: seq<Point>, step: nat, maxSteps: int)
    requires step < maxSteps
    ensures prefix + [Stroke(poly, true, step)] + PolygonStrokes(InnerPolygon(poly, step), step + 1, maxSteps) +
            ListStrokes(Flaps(poly, step), step + 1, maxSteps) == prefix + PolygonStrokes(poly, step, maxSteps)
  {
  }

  /** Running the call on one more polygon appends that call's strokes. */
  lemma AppendListCall(prefix: seq<Stroke>, polys: seq<seq<Point>>, step: nat, maxSteps: int, i: nat)
    requires i < |polys|
    ensures prefix + ListStrokes(polys[..i], step, maxSteps) + PolygonStrokes(polys[i], step, maxSteps) ==
            prefix + ListStrokes(polys[..i + 1], step, maxSteps)
  {
    assert polys[..i + 1][..i] == polys[..i];
  }

  /** At the depth bound the call draws its input polygon and nothing else;
      in particular maxSteps = 0 draws exactly the input. */
  lemma StopsAtMaxSteps(poly: seq<Point>, step: nat, maxSteps: int)
    requires step >= maxSteps
    ensures PolygonStrokes(poly, step, maxSteps) == [Stroke(poly, true, step)]
  {
  }

  /** The number of strokes drawn for a k-gon at depth `step`: one, plus,
      below the bound, those of the inner k-gon and of k five-point flaps. */
  function StrokeCount(k: nat, step: nat, maxSteps: int): (c: nat)
    decreases Height(step, maxSteps)
    ensures c >= 1
  {
    if step >= maxSteps then 1
    else 1 + StrokeCount(k, step + 1, maxSteps) + k * StrokeCount(5, step + 1, maxSteps)
  }

  lemma {:induction false} PolygonStrokesCount(poly: seq<Point>, step: nat, maxSteps: int)
    decreases Height(step, maxSteps), 1
    ensures |PolygonStrokes(poly, step, maxSteps)| == StrokeCount(|poly|, step, maxSteps)
  {
    if step < maxSteps {
      PolygonStrokesCount(InnerPolygon(poly, step), step + 1, maxSteps);
      ListStrokesCount(Flaps(poly, step), 5, step + 1, maxSteps);
    }
  }

  /** Calls on n polygons of k sides each draw n times the strokes of one. */
  lemma {:induction false} ListStrokesCount(polys: seq<seq<Point>>, k: nat, step: nat, maxSteps: int)
    requires forall p :: p in polys ==> |p| == k
    decreases Height(step, maxSteps) + 1, 0, |polys|
    ensures |ListStrokes(polys, step, maxSteps)| == |polys| * StrokeCount(k, step, maxSteps)
  {
    if polys != [] {
      var n := |polys|;
      var c := StrokeCount(k, step, maxSteps);
      var front := polys[..n - 1];
      assert forall p :: p in front ==> p in polys;
      assert polys[n - 1] in polys;
      ListStrokesCount(front, k, step, maxSteps);
      PolygonStrokesCount(polys[n - 1], step, maxSteps);
      assert ListStrokes(polys, step, maxSteps) ==
             ListStrokes(front, step, maxSteps) + PolygonStrokes(polys[n - 1], step, maxSteps);
      MulSucc(n - 1, c);
    }
  }

  /** Every stroke of the recursion is closed, carries a depth between `step`
      and the bound as its material index, and is either a k-gon (the input's
      side count) or a five-point flap. */
  predicate StrokesShaped(strokes: seq<Stroke>, k: nat, step: nat, maxSteps: int) {
    forall s :: s in strokes ==>
      s.cyclic && step <= s.materialIndex && (s.materialIndex <= maxSteps || s.materialIndex == step) &&
      (|s.points| == k || |s.points| == 5)
  }

  lemma ShapedConcat(a: seq<Stroke>, b: seq<Stroke>, k: nat, step: nat, maxSteps: int)
    requires StrokesShaped(a, k, step, maxSteps) && StrokesShaped(b, k, step, maxSteps)
    ensures StrokesShaped(a + b, k, step, maxSteps)
  {
    forall s | s in a + b ensures s in a || s in b { }
  }

  /** Strokes shaped one level deeper, as k-gons or flaps, are also shaped at
      this level. */
  lemma ShapedDeeper(a: seq<Stroke>, k: nat, k': nat, step: nat, maxSteps: int)
    requires step < maxSteps && (k' == k || k' == 5)
    requires StrokesShaped(a, k', step + 1, maxSteps)
    ensures StrokesShaped(a, k, step, maxSteps)
  {
  }

  lemma {:induction false} PolygonStrokesShaped(poly: seq<Point>, step: nat, maxSteps: int)
    decreases Height(step, maxSteps), 1
    ensures StrokesShaped(PolygonStrokes(poly, step, maxSteps), |poly|, step, maxSteps)
  {
    var k := |poly|;
    var own := [Stroke(poly, true, step)];
    assert StrokesShaped(own, k, step, maxSteps);
    if step < maxSteps {
      var inner := PolygonStrokes(InnerPolygon(poly, step), step + 1, maxSteps);
      var flaps := ListStrokes(Flaps(poly, step), step + 1, maxSteps);
      PolygonStrokesShaped(InnerPolygon(poly, step), step + 1, maxSteps);
      ShapedDeeper(inner, k, k, step, maxSteps);
      ListStrokesShaped(Flaps(poly, step), step + 1, maxSteps);
      ShapedDeeper(flaps, k, 5, step, maxSteps);
      ShapedConcat(inner, flaps, k, step, maxSteps);
      ShapedConcat(own, inner + flaps, k, step, maxSteps);
      assert PolygonStrokes(poly, step, maxSteps) == own + (inner + flaps);
    } else {
      assert PolygonStrokes(poly, step, maxSteps) == own;
    }
  }

  lemma {:induction false} ListStrokesShaped(polys: seq<seq<Point>>, step: nat, maxSteps: int)
    requires forall p :: p in polys ==> |p| == 5
    decreases Height(step, maxSteps) + 1, 0, |polys|
    ensures StrokesShaped(ListStrokes(polys, step, maxSteps), 5, step, maxSteps)
  {
    if polys != [] {
      var n := |polys|;
      var front := polys[..n - 1];
      assert forall p :: p in front ==> p in polys;
      assert polys[n - 1] in polys;
      ListStrokesShaped(front, step, maxSteps);
      PolygonStrokesShaped(polys[n - 1], step, maxSteps);
      ShapedConcat(ListStrokes(front, step, maxSteps), PolygonStrokes(polys[n - 1], step, maxSteps), 5, step, maxSteps);
    }
  }

  lemma MulSucc(m: nat, c: nat)
    ensures m * c + c == (m + 1) * c
  {
  }

  lemma MulLess(i: nat, j: nat, c: nat)
    requires i < j && c >= 1
    ensures i * c < j * c
  {
    var d := j - i;
    assert j * c == i * c + d * c;
  }

  /** i copies of c laid end to end. */
  function Times(i: nat, c: nat): (r: nat)
    ensures r == i * c
  {
    if i == 0 then 0 else Times(i - 1, c) + c
  }

  /** Among the strokes of calls on n k-gons, the call on polygon i starts at
      offset i * StrokeCount(k, step): each earlier call drew exactly that
      many. */
  lemma {:induction false} ListStrokeAt(polys: seq<seq<Point>>, k: nat, step: nat, maxSteps: int, i: nat)
    requires forall p :: p in polys ==> |p| == k
    requires i < |polys|
    decreases |polys|
    ensures Times(i, StrokeCount(k, step, maxSteps)) < |ListStrokes(polys, step, maxSteps)|
    ensures ListStrokes(polys, step, maxSteps)[Times(i, StrokeCount(k, step, maxSteps))] == Stroke(polys[i], true, step)
  {
    var n := |polys|;
    var c := StrokeCount(k, step, maxSteps);
    var front := polys[..n - 1];
    assert forall p :: p in front ==> p in polys;
    assert polys[n - 1] in polys;
    ListStrokesCount(front, k, step, maxSteps);
    PolygonStrokesCount(polys[n - 1], step, maxSteps);
    var before := ListStrokes(front, step, maxSteps);
    var last := PolygonStrokes(polys[n - 1], step, maxSteps);
    assert |before| == (n - 1) * c;
    MulLess(i, n, c);
    if i < n - 1 {
      ListStrokeAt(front, k, step, maxSteps, i);
      assert (before + last)[i * c] == before[i * c];
    } else {
      assert (before + last)[i * c] == last[0];
    }
  }

  /** The strokes come in pre-order: the polygon itself, then the strokes of
      the inner recursion (starting with the inner polygon), then those of the
      flaps. */
  lemma PreOrder(poly: seq<Point>, step: nat, maxSteps: int)
    requires step < maxSteps
    ensures var r := PolygonStrokes(poly, step, maxSteps);
            var ci := StrokeCount(|poly|, step + 1, maxSteps);
            var cf := StrokeCount(5, step + 1, maxSteps);
            |r| == 1 + ci + |poly| * cf &&
            r[1] == Stroke(InnerPolygon(poly, step), true, step + 1)
  {
    PolygonStrokesCount(poly, step, maxSteps);
  }

  /** Position of flap i's stroke among those of a k-gon's call at depth
      `step`: after the polygon itself, the whole inner recursion and the
      recursions of the i earlier flaps. */
  function FlapOffset(k: nat, step: nat, maxSteps: int, i: nat): nat {
    1 + StrokeCount(k, step + 1, maxSteps) + Times(i, StrokeCount(5, step + 1, maxSteps))
  }

  /** ... and the stroke of flap i comes after the whole inner recursion and
      the i earlier flaps, each flap's recursion taking the same room. */
  lemma PreOrderFlap(poly: seq<Point>, step: nat, maxSteps: int, i: nat)
    requires step < maxSteps && i < |poly|
    ensures FlapOffset(|poly|, step, maxSteps, i) < |PolygonStrokes(poly, step, maxSteps)|
    ensures PolygonStrokes(poly, step, maxSteps)[FlapOffset(|poly|, step, maxSteps, i)] ==
            Stroke(Flap(poly, step, i), true, step + 1)
  {
    var r := PolygonStrokes(poly, step, maxSteps);
    var fs := Flaps(poly, step);
    var head := [Stroke(poly, true, step)] + PolygonStrokes(InnerPolygon(poly, step), step + 1, maxSteps);
    var flaps := ListStrokes(fs, step + 1, maxSteps);
    var j := Times(i, StrokeCount(5, step + 1, maxSteps));
    assert r == head + flaps;
    assert |head| + j == FlapOffset(|poly|, step, maxSteps, i) by {
      PolygonStrokesCount(InnerPolygon(poly, step), step + 1, maxSteps);
    }
    assert j < |flaps| && flaps[j] == Stroke(fs[i], true, step + 1) by {
      ListStrokeAt(fs, 5, step + 1, maxSteps, i);
    }
    ConcatAt(head, flaps, j);
  }
}
