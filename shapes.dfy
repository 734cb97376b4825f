/** The closed axis-aligned shapes of grease_pencil.py: the square of
    `draw_square` and the 16-point wire cube of `draw_cube`. */
module Shapes {
  import opened Geometry

  // ---------------------------------------------------------------------
  // draw_square
  // ---------------------------------------------------------------------

  /** The four corners of `draw_square`, with r = size / 2, all in the plane
      z = center.z, in the order (-,-), (-,+), (+,+), (+,-). */
  function SquarePoints(center: Point, size: real): (ps: seq<Point>)
    ensures |ps| == 4
  {
    var r := size / 2.0;
    [Point(center.x - r, center.y - r, center.z),
     Point(center.x - r, center.y + r, center.z),
     Point(center.x + r, center.y + r, center.z),
     Point(center.x + r, center.y - r, center.z)]
  }

  /** Each corner of the square sits at +-size/2 from the center in x and y
      and at the center's height. */
  lemma SquareCorners(center: Point, size: real)
    ensures forall i :: 0 <= i < 4 ==>
      var d := Sub(SquarePoints(center, size)[i], center);
      (d.x == size / 2.0 || d.x == -size / 2.0) &&
      (d.y == size / 2.0 || d.y == -size / 2.0) && d.z == 0.0
  {
    var ps := SquarePoints(center, size);
    assert forall i :: 0 <= i < 4 ==> ps[i] in ps;
  }

  /** Every side of the closed square, including the closing side from the
      last corner back to the first, runs along one axis over length size. */
  lemma SquareSidesAreAxisSteps(center: Point, size: real)
    ensures forall i :: 0 <= i < 4 ==>
      AxisStep(SquarePoints(center, size)[i], Following(SquarePoints(center, size), i), size)
  {
    var ps := SquarePoints(center, size);
    assert AxisStep(ps[0], Following(ps, 0), size);
    assert AxisStep(ps[1], Following(ps, 1), size);
    assert AxisStep(ps[2], Following(ps, 2), size);
    assert AxisStep(ps[3], Following(ps, 3), size);
  }

  // ---------------------------------------------------------------------
  // draw_cube
  // ---------------------------------------------------------------------

  /** `itertools.product(xs, repeat=n)`: every length-n sequence over xs, the
      first position varying slowest. */
  function Product(xs: seq<int>, n: nat): seq<seq<int>> {
    if n == 0 then [[]] else Prefixed(xs, Product(xs, n - 1))
  }

  /** For each head a in xs, in order, every tail prefixed with a. */
  function Prefixed(xs: seq<int>, tails: seq<seq<int>>): seq<seq<int>> {
    if xs == [] then [] else Prepend(xs[0], tails) + Prefixed(xs[1..], tails)
  }

  function Prepend(a: int, tails: seq<seq<int>>): seq<seq<int>> {
    seq(|tails|, k requires 0 <= k < |tails| => [a] + tails[k])
  }

  /** The corner offsets of `draw_cube`, written out. */
  const CubeOffsets: seq<seq<int>> :=
    [[1, 1, 1], [1, 1, -1], [1, -1, 1], [1, -1, -1],
     [-1, 1, 1], [-1, 1, -1], [-1, -1, 1], [-1, -1, -1]]

  /** Product over the two signs: the tails prefixed with 1, then with -1. */
  lemma PrefixedSigns(tails: seq<seq<int>>)
    ensures Prefixed([1, -1], tails) == Prepend(1, tails) + Prepend(-1, tails)
  {
    var xs := [1, -1];
    assert xs[0] == 1 && xs[1..] == [-1];
    assert [-1][0] == -1 && [-1][1..] == [];
    assert Prefixed([-1], tails) == Prepend(-1, tails) + [];
  }

  /** The written-out offsets are exactly product([1, -1], repeat=3), in
      the same order. */
  lemma CubeOffsetsAreProduct()
    ensures Product([1, -1], 3) == CubeOffsets
  {
    var xs := [1, -1];
    var p1 := [[1], [-1]];
    assert Product(xs, 1) == p1 by {
      PrefixedSigns([[]]);
      assert Prepend(1, [[]])[0] == [1];
      assert Prepend(-1, [[]])[0] == [-1];
    }
    var p2 := [[1, 1], [1, -1], [-1, 1], [-1, -1]];
    assert Product(xs, 2) == p2 by {
      assert Product(xs, 2) == Prefixed(xs, p1);
      PrefixedSigns(p1);
      assert Prepend(1, p1) == [[1, 1], [1, -1]] by {
        assert Prepend(1, p1)[0] == [1] + [1] == [1, 1];
        assert Prepend(1, p1)[1] == [1] + [-1] == [1, -1];
      }
      assert Prepend(-1, p1) == [[-1, 1], [-1, -1]] by {
        assert Prepend(-1, p1)[0] == [-1] + [1] == [-1, 1];
        assert Prepend(-1, p1)[1] == [-1] + [-1] == [-1, -1];
      }
    }
    PrefixedSigns(p2);
    forall k | 0 <= k < 4
      ensures Prepend(1, p2)[k] == CubeOffsets[k] && Prepend(-1, p2)[k] == CubeOffsets[k + 4]
    {
    }
  }

  /** The 8 cube corners of `draw_cube`: the center moved by size/2 times
      each offset. */
  function CubeCorners(center: Point, size: real): (cs: seq<Point>)
    ensures |cs| == 8
  {
    var radius := size / 2.0;
    seq(8, j requires 0 <= j < 8 =>
      Point(center.x + radius * CubeOffsets[j][0] as real,
            center.y + radius * CubeOffsets[j][1] as real,
            center.z + radius * CubeOffsets[j][2] as real))
  }

  /** `stroke_idx`: the order in which `draw_cube` walks the corners. */
  const CubePath: seq<int> := [0, 4, 6, 2, 0, 1, 5, 7, 3, 1, 5, 4, 6, 7, 3, 2]

  /** Every entry of the walk names one of the 8 corners. */
  lemma CubePathInRange()
    ensures |CubePath| == 16
    ensures forall i :: 0 <= i < |CubePath| ==> 0 <= CubePath[i] < 8
  {
  }

  /** The 16 points of the `draw_cube` stroke. */
  function CubePoints(center: Point, size: real): (ps: seq<Point>)
    ensures |ps| == 16
  {
    var corners := CubeCorners(center, size);
    seq(16, i requires 0 <= i < 16 => corners[CubePath[i]])
  }

  /** Corner index a with the sign of one axis (0 = x, 1 = y, 2 = z) flipped. */
  function Flip(a: int, axis: int): (b: int)
    requires 0 <= a < 8 && 0 <= axis < 3
    ensures 0 <= b < 8
  {
    var bit := if axis == 0 then 4 else if axis == 1 then 2 else 1;
    if a / bit % 2 == 0 then a + bit else a - bit
  }

  /** Corners a and Flip(a, axis) have opposite offsets on that axis and equal
      offsets on the other two. */
  lemma FlipOffsets(a: int, axis: int)
    requires 0 <= a < 8 && 0 <= axis < 3
    ensures forall c :: 0 <= c < 3 ==>
      CubeOffsets[Flip(a, axis)][c] == (if c == axis then -CubeOffsets[a][c] else CubeOffsets[a][c])
  {
    if a == 0 {} else if a == 1 {} else if a == 2 {} else if a == 3 {}
    else if a == 4 {} else if a == 5 {} else if a == 6 {} else {}
  }

  /** Corner indices a and b are joined by a cube edge. */
  predicate CubeEdge(a: int, b: int) {
    0 <= a < 8 && 0 <= b < 8 &&
    (b == Flip(a, 0) || b == Flip(a, 1) || b == Flip(a, 2))
  }

  /** Each step of the walk, including the closing step from the last entry
      back to the first, follows a cube edge. */
  lemma CubePathFollowsEdges()
    ensures forall i :: 0 <= i < 16 ==> CubeEdge(CubePath[i], Following(CubePath, i))
  {
    forall i | 0 <= i < 16 ensures CubeEdge(CubePath[i], Following(CubePath, i)) {
      if i == 0 { assert Following(CubePath, i) == Flip(CubePath[i], 0); }
      else if i == 1 { assert Following(CubePath, i) == Flip(CubePath[i], 1); }
      else if i == 2 { assert Following(CubePath, i) == Flip(CubePath[i], 0); }
      else if i == 3 { assert Following(CubePath, i) == Flip(CubePath[i], 1); }
      else if i == 4 { assert Following(CubePath, i) == Flip(CubePath[i], 2); }
      else if i == 5 { assert Following(CubePath, i) == Flip(CubePath[i], 0); }
      else if i == 6 { assert Following(CubePath, i) == Flip(CubePath[i], 1); }
      else if i == 7 { assert Following(CubePath, i) == Flip(CubePath[i], 0); }
      else if i == 8 { assert Following(CubePath, i) == Flip(CubePath[i], 1); }
      else if i == 9 { assert Following(CubePath, i) == Flip(CubePath[i], 0); }
      else if i == 10 { assert Following(CubePath, i) == Flip(CubePath[i], 2); }
      else if i == 11 { assert Following(CubePath, i) == Flip(CubePath[i], 1); }
      else if i == 12 { assert Following(CubePath, i) == Flip(CubePath[i], 2); }
      else if i == 13 { assert Following(CubePath, i) == Flip(CubePath[i], 0); }
      else if i == 14 { assert Following(CubePath, i) == Flip(CubePath[i], 2); }
      else { assert Following(CubePath, i) == Flip(CubePath[i], 1); }
    }
  }

  /** The walk passes position i along the edge between a and b, in either
      direction. */
  predicate WalksEdgeAt(i: int, a: int, b: int)
    requires 0 <= i < 16
  {
    (CubePath[i] == a && Following(CubePath, i) == b) ||
    (CubePath[i] == b && Following(CubePath, i) == a)
  }

  /** Some step of the closed walk runs along the edge between a and b. */
  predicate EdgeWalked(a: int, b: int) {
    exists i :: 0 <= i < 16 && WalksEdgeAt(i, a, b)
  }

  /** The closed walk passes along every one of the cube's 12 edges: for each
      corner a and each axis, the edge from a to its neighbour on that axis. */
  lemma CubePathCoversAllEdges()
    ensures forall a, axis :: 0 <= a < 8 && 0 <= axis < 3 ==> EdgeWalked(a, Flip(a, axis))
  {
    forall a, axis | 0 <= a < 8 && 0 <= axis < 3 ensures EdgeWalked(a, Flip(a, axis)) {
      EdgeWitnessWalks(a, axis);
    }
  }

  /** A position of the walk where the edge from corner a along axis is walked. */
  function EdgeWitness(a: int, axis: int): (i: int)
    requires 0 <= a < 8 && 0 <= axis < 3
    ensures 0 <= i < 16
  {
    // positions: 0:0-4 1:4-6 2:6-2 3:2-0 4:0-1 5:1-5 6:5-7 7:7-3
    //            8:3-1 10:5-4 12:6-7 14:3-2
    if axis == 0 then [0, 5, 2, 7, 0, 5, 2, 7][a]
    else if axis == 1 then [3, 8, 3, 8, 1, 6, 1, 6][a]
    else [4, 4, 14, 14, 10, 10, 12, 12][a]
  }

  lemma EdgeWitnessWalks(a: int, axis: int)
    requires 0 <= a < 8 && 0 <= axis < 3
    ensures WalksEdgeAt(EdgeWitness(a, axis), a, Flip(a, axis))
  {
    if axis == 0 {
      if a == 0 {} else if a == 1 {} else if a == 2 {} else if a == 3 {}
      else if a == 4 {} else if a == 5 {} else if a == 6 {} else {}
    } else if axis == 1 {
      if a == 0 {} else if a == 1 {} else if a == 2 {} else if a == 3 {}
      else if a == 4 {} else if a == 5 {} else if a == 6 {} else {}
    } else {
      if a == 0 {} else if a == 1 {} else if a == 2 {} else if a == 3 {}
      else if a == 4 {} else if a == 5 {} else if a == 6 {} else {}
    }
  }

  /** Every point of the cube stroke is a corner: it differs from the center
      by exactly +-size/2 in each coordinate. */
  lemma CubePointsOnCorners(center: Point, size: real)
    ensures forall i :: 0 <= i < 16 ==>
      var d := Sub(CubePoints(center, size)[i], center);
      (d.x == size / 2.0 || d.x == -size / 2.0) &&
      (d.y == size / 2.0 || d.y == -size / 2.0) &&
      (d.z == size / 2.0 || d.z == -size / 2.0)
  {
    CubePathInRange();
    var cs := CubeCorners(center, size);
    forall j | 0 <= j < 8
      ensures var d := Sub(cs[j], center);
        (d.x == size / 2.0 || d.x == -size / 2.0) &&
        (d.y == size / 2.0 || d.y == -size / 2.0) &&
        (d.z == size / 2.0 || d.z == -size / 2.0)
    {
      assert CubeOffsets[j] in CubeOffsets;
    }
  }

  /** Corners joined along one axis are size apart on that axis and equal on
      the other two. */
  lemma FlipIsAxisStep(center: Point, size: real, a: int, axis: int)
    requires 0 <= a < 8 && 0 <= axis < 3
    ensures AxisStep(CubeCorners(center, size)[a], CubeCorners(center, size)[Flip(a, axis)], size)
  {
    FlipOffsets(a, axis);
    var b := Flip(a, axis);
    CornerAt(center, size, a);
    CornerAt(center, size, b);
  }

  /** Offset o (+1 or -1) scaled by r, written without a product. */
  function Signed(r: real, o: int): real {
    if o == 1 then r else -r
  }

  /** Corner j lies size/2 from the center on each axis, on the side the
      sign of its offset gives. */
  lemma CornerAt(center: Point, size: real, j: int)
    requires 0 <= j < 8
    ensures var r := size / 2.0;
            var o := CubeOffsets[j];
            |o| == 3 &&
            CubeCorners(center, size)[j] ==
              Point(center.x + Signed(r, o[0]), center.y + Signed(r, o[1]), center.z + Signed(r, o[2]))
  {
    var r := size / 2.0;
    assert r * 1.0 == r && r * -1.0 == -r;
    assert CubeOffsets[j] in CubeOffsets;
  }

  /** Every segment of the cube stroke, including the closing one, is a cube
      edge of length size: consecutive points differ along exactly one axis. */
  lemma CubeSegmentsAreAxisSteps(center: Point, size: real)
    ensures forall i :: 0 <= i < 16 ==>
      AxisStep(CubePoints(center, size)[i], Following(CubePoints(center, size), i), size)
  {
    CubePathInRange();
    CubePathFollowsEdges();
    var ps := CubePoints(center, size);
    forall i | 0 <= i < 16 ensures AxisStep(ps[i], Following(ps, i), size) {
      var a, b := CubePath[i], Following(CubePath, i);
      assert Following(ps, i) == CubeCorners(center, size)[b];
      assert CubeEdge(a, b);
      if b == Flip(a, 0) { FlipIsAxisStep(center, size, a, 0); }
      else if b == Flip(a, 1) { FlipIsAxisStep(center, size, a, 1); }
      else { FlipIsAxisStep(center, size, a, 2); }
    }
  }
}
