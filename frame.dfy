/** A grease-pencil frame and the drawing helpers that append strokes to it.
    Each helper creates one new stroke at the end of the frame's stroke list
    (or, for the composite helpers, a fixed sequence of them) and fills in
    its points one by one; the strokes already in the frame are untouched. */
module GreasePencil {
  import opened Geometry
  import opened Shapes
  import opened Fractal
  import opened Grid

  class Frame {
    /** The frame's strokes, in creation order. */
    var strokes: seq<Stroke>

    /** A new frame holds no strokes. */
    constructor()
      ensures strokes == []
    {
      strokes := [];
    }

    /** Appends one stroke and returns its index. */
    method NewStroke(s: Stroke) returns (k: nat)
      modifies this
      ensures strokes == old(strokes) + [s]
      ensures k == |old(strokes)| && strokes[k] == s
    {
      k := |strokes|;
      strokes := strokes + [s];
    }

    /** `draw_line`: an open two-point stroke from p0 to p1 with the default
        material. */
    method DrawLine(p0: Point, p1: Point) returns (k: nat)
      modifies this
      ensures strokes == old(strokes) + [Stroke([p0, p1], false, 0)]
      ensures k == |old(strokes)|
    {
      var pts := new Point[2](_ => Origin);
      pts[0] := p0;
      pts[1] := p1;
      assert pts[..] == [p0, p1];
      k := NewStroke(Stroke(pts[..], false, 0));
    }

    /** The points of a new stroke, added as `count` zeroed points and then
        set one by one to the given coordinates. */
    static method FillPoints(verts: seq<Point>) returns (ps: seq<Point>)
      ensures ps == verts
    {
      var pts := new Point[|verts|](_ => Origin);
      for i := 0 to |verts|
        invariant pts[..i] == verts[..i]
      {
        pts[i] := verts[i];
      }
      assert pts[..] == verts;
      ps := pts[..];
    }

    /** `draw_shape`: an open stroke through the given vertices, in order. */
    method DrawShape(verts: seq<Point>) returns (k: nat)
      modifies this
      ensures strokes == old(strokes) + [Stroke(verts, false, 0)]
      ensures k == |old(strokes)|
    {
      var ps := FillPoints(verts);
      k := NewStroke(Stroke(ps, false, 0));
    }
    /** `draw_square`: a closed four-point stroke around `center`, side `size`
        (see Shapes.SquarePoints). */
    method DrawSquare(center: Point, size: real, materialIndex: int) returns (k: nat)
      modifies this
      ensures strokes == old(strokes) + [Stroke(SquarePoints(center, size), true, materialIndex)]
      ensures k == |old(strokes)|
    {
      var radius := size / 2.0;
      var pts := new Point[4](_ => Origin);
      pts[0] := Point(center.x - radius, center.y - radius, center.z);
      pts[1] := Point(center.x - radius, center.y + radius, center.z);
      pts[2] := Point(center.x + radius, center.y + radius, center.z);
      pts[3] := Point(center.x + radius, center.y - radius, center.z);
      assert pts[..] == SquarePoints(center, size);
      k := NewStroke(Stroke(pts[..], true, materialIndex));
    }

    /** `draw_cube`: a closed sixteen-point stroke that visits the cube's
        corners in the order CubePath (see Shapes.CubePoints). */
    method DrawCube(center: Point, size: real, materialIndex: int) returns (k: nat)
      modifies this
      ensures strokes == old(strokes) + [Stroke(CubePoints(center, size), true, materialIndex)]
      ensures k == |old(strokes)|
    {
      var corners := CubeCorners(center, size);
      CubePathInRange();
      var pts := new Point[16](_ => Origin);
      for i := 0 to 16
        modifies pts
        invariant forall j :: 0 <= j < i ==> pts[j] == corners[CubePath[j]]
      {
        pts[i] := corners[CubePath[i]];
      }
      assert pts[..] == CubePoints(center, size);
      k := NewStroke(Stroke(pts[..], true, materialIndex));
    }

    /** `squares_grid` with neither size nor rotation randomised: for x over
        range(nbCols) and y over range(nbRows), a square with the caller's
        material and a cube with material 0, both of side 1 around (x, y, 0). */
    method SquaresGrid(nbRows: int, nbCols: int, materialIndex: int)
      modifies this
      ensures strokes == old(strokes) + GridStrokes(RangeLen(nbCols), RangeLen(nbRows), materialIndex)
    {
      var rows := RangeLen(nbRows);
      for x := 0 to RangeLen(nbCols)
        invariant strokes == old(strokes) + GridStrokes(x, rows, materialIndex)
      {
        for y := 0 to rows
          invariant strokes == old(strokes) + GridStrokes(x, rows, materialIndex) + ColumnStrokes(x, y, materialIndex)
        {
          var center := Point(x as real, y as real, 0.0);
          var square := DrawSquare(center, CellSize, materialIndex);
          var cube := DrawCube(center, CellSize, 0);
        }
      }
    }

    /** `polygon_recursive`: draws `polygon` closed with material `step`;
        below `maxSteps` it builds the inner polygon and the edge midpoints,
        recurses on the inner polygon, then on the flap around each vertex. */
    method PolygonRecursive(polygon: seq<Point>, step: nat, maxSteps: int)
      modifies this
      decreases Height(step, maxSteps), 1
      ensures strokes == old(strokes) + PolygonStrokes(polygon, step, maxSteps)
    {
      var ps := FillPoints(polygon);
      var k := NewStroke(Stroke(ps, true, step));
      if step >= maxSteps {
        return;
      }
      var newPolygon, midpoints := InnerAndMidpoints(polygon, step);
      PolygonRecursive(newPolygon, step + 1, maxSteps);
      DrawFlaps(polygon, step, maxSteps, midpoints, newPolygon);
      AppendCall(old(strokes), polygon, step, maxSteps);
    }

    /** The first loop below the bound: for each edge, its midpoint and the
        inner point built from it. */
    static method InnerAndMidpoints(polygon: seq<Point>, step: nat) returns (newPolygon: seq<Point>, midpoints: seq<Point>)
      ensures newPolygon == InnerPolygon(polygon, step)
      ensures midpoints == Midpoints(polygon)
    {
      newPolygon := [];
      midpoints := [];
      for i := 0 to |polygon|
        invariant |newPolygon| == i && |midpoints| == i
        invariant forall j :: 0 <= j < i ==> midpoints[j] == Midpoint(polygon[j], Following(polygon, j))
        invariant forall j :: 0 <= j < i ==> newPolygon[j] == InnerVertex(midpoints[j], step)
      {
        var p0 := polygon[i];
        var p1 := if i == |polygon| - 1 then polygon[0] else polygon[i + 1];
        var midpoint := Midpoint(p0, p1);
        var newPoint := InnerPoint(midpoint, step);
        newPolygon := newPolygon + [newPoint];
        midpoints := midpoints + [midpoint];
      }
    }

    /** The inner point built from one edge midpoint: halfway from the origin
        to the midpoint, then `step` more halvings towards it. */
    static method InnerPoint(midpoint: Point, step: nat) returns (newPoint: Point)
      ensures newPoint == InnerVertex(midpoint, step)
    {
      newPoint := Midpoint(Origin, midpoint);
      for j := 0 to step
        invariant newPoint == Approach(Midpoint(Origin, midpoint), midpoint, j)
      {
        newPoint := Midpoint(newPoint, midpoint);
      }
    }

    /** The last loop below the bound: one recursive call per vertex, on the
        five-point flap around it. */
    method DrawFlaps(polygon: seq<Point>, step: nat, maxSteps: int, midpoints: seq<Point>, newPolygon: seq<Point>)
      requires step < maxSteps
      requires midpoints == Midpoints(polygon) && newPolygon == InnerPolygon(polygon, step)
      modifies this
      decreases Height(step, maxSteps), 0
      ensures strokes == old(strokes) + ListStrokes(Flaps(polygon, step), step + 1, maxSteps)
    {
      ghost var flaps := Flaps(polygon, step);
      for i := 0 to |polygon|
        invariant strokes == old(strokes) + ListStrokes(flaps[..i], step + 1, maxSteps)
      {
        var other := [polygon[i], PyAt(midpoints, i - 1), PyAt(newPolygon, i - 1), newPolygon[i], midpoints[i]];
        assert other == flaps[i];
        PolygonRecursive(other, step + 1, maxSteps);
        AppendListCall(old(strokes), flaps, step + 1, maxSteps, i);
      }
      assert flaps[..|polygon|] == flaps;
    }

    /** `translate_stroke` on stroke k: every point of that stroke is moved
        by `vector` in place; no other stroke changes. */
    method TranslateStroke(k: nat, vector: Point)
      requires k < |strokes|
      modifies this
      ensures strokes == old(strokes)[k := Translated(old(strokes)[k], vector)]
    {
      var s := strokes[k];
      var pts := new Point[|s.points|](i requires 0 <= i < |s.points| => s.points[i]);
      for i := 0 to pts.Length
        modifies pts
        invariant forall j :: 0 <= j < i ==> pts[j] == Add(s.points[j], vector)
        invariant forall j :: i <= j < pts.Length ==> pts[j] == s.points[j]
      {
        pts[i] := Add(pts[i], vector);
      }
      assert pts[..] == Translated(s, vector).points;
      strokes := strokes[k := s.(points := pts[..])];
    }
  }
}
