/** The strokes `squares_grid` draws when neither its size nor its rotation
    is randomised: for each cell (x, y) a square of side 1 and a wire cube of
    side 1 centred at (x, y, 0), with x in the outer loop. */
module Grid {
  import opened Geometry
  import opened Shapes

  /** The number of values of Python's `range(n)`. */
  function RangeLen(n: int): (r: nat)
    ensures n >= 0 ==> r == n
    ensures n < 0 ==> r == 0
  {
    if n < 0 then 0 else n
  }

  /** The side passed to both shapes: the source's `radius = 1`, which the
      shapes take as their full side, so each corner is 1/2 from the center. */
  const CellSize: real := 1.0

  /** The two strokes of cell (x, y): the square with the caller's material,
      then the cube with the default material 0. */
  function CellStrokes(x: nat, y: nat, materialIndex: int): (r: seq<Stroke>)
    ensures |r| == 2
  {
    var center := Point(x as real, y as real, 0.0);
    [Stroke(SquarePoints(center, CellSize), true, materialIndex),
     Stroke(CubePoints(center, CellSize), true, 0)]
  }

  /** The strokes of column x, rows 0 .. rows-1 in order. */
  function ColumnStrokes(x: nat, rows: nat, materialIndex: int): seq<Stroke> {
    if rows == 0 then [] else ColumnStrokes(x, rows - 1, materialIndex) + CellStrokes(x, rows - 1, materialIndex)
  }

  /** The strokes of columns 0 .. cols-1 in order. */
  function GridStrokes(cols: nat, rows: nat, materialIndex: int): seq<Stroke> {
    if cols == 0 then [] else GridStrokes(cols - 1, rows, materialIndex) + ColumnStrokes(cols - 1, rows, materialIndex)
  }

  lemma {:induction false} ColumnCount(x: nat, rows: nat, materialIndex: int)
    ensures |ColumnStrokes(x, rows, materialIndex)| == 2 * rows
  {
    if rows > 0 {
      ColumnCount(x, rows - 1, materialIndex);
    }
  }

  /** The grid draws exactly two strokes per cell: 2 * rows * cols in all. */
  lemma {:induction false} GridCount(cols: nat, rows: nat, materialIndex: int)
    ensures |GridStrokes(cols, rows, materialIndex)| == 2 * rows * cols
  {
    if cols > 0 {
      GridCount(cols - 1, rows, materialIndex);
      ColumnCount(cols - 1, rows, materialIndex);
      assert 2 * rows * (cols - 1) + 2 * rows == 2 * rows * cols;
    }
  }

  lemma {:induction false} ColumnCellAt(x: nat, rows: nat, materialIndex: int, y: nat)
    requires y < rows
    ensures 2 * y + 1 < |ColumnStrokes(x, rows, materialIndex)|
    ensures ColumnStrokes(x, rows, materialIndex)[2 * y] == CellStrokes(x, y, materialIndex)[0]
    ensures ColumnStrokes(x, rows, materialIndex)[2 * y + 1] == CellStrokes(x, y, materialIndex)[1]
  {
    ColumnCount(x, rows - 1, materialIndex);
    if y < rows - 1 {
      ColumnCellAt(x, rows - 1, materialIndex, y);
    }
  }

  /** Drawing one more column leaves the strokes of the earlier columns
      where they were. */
  lemma GridPrefix(cols: nat, rows: nat, materialIndex: int, j: nat)
    requires 0 < cols && j < |GridStrokes(cols - 1, rows, materialIndex)|
    ensures j < |GridStrokes(cols, rows, materialIndex)|
    ensures GridStrokes(cols, rows, materialIndex)[j] == GridStrokes(cols - 1, rows, materialIndex)[j]
  {
    ConcatFront(GridStrokes(cols - 1, rows, materialIndex), ColumnStrokes(cols - 1, rows, materialIndex), j);
  }

  /** The strokes of the last column follow those of all the earlier ones. */
  lemma GridLastColumn(cols: nat, rows: nat, materialIndex: int, j: nat)
    requires 0 < cols && j < |ColumnStrokes(cols - 1, rows, materialIndex)|
    ensures 2 * rows * (cols - 1) + j < |GridStrokes(cols, rows, materialIndex)|
    ensures GridStrokes(cols, rows, materialIndex)[2 * rows * (cols - 1) + j] == ColumnStrokes(cols - 1, rows, materialIndex)[j]
  {
    GridCount(cols - 1, rows, materialIndex);
    ColumnCount(cols - 1, rows, materialIndex);
    ConcatAt(GridStrokes(cols - 1, rows, materialIndex), ColumnStrokes(cols - 1, rows, materialIndex), j);
  }

  /** Cell (x, y) is the (x * rows + y)-th cell drawn: its square is stroke
      2 (x rows + y) and its cube the stroke right after. */
  lemma {:induction false} GridCellAt(cols: nat, rows: nat, materialIndex: int, x: nat, y: nat)
    requires x < cols && y < rows
    ensures 2 * (x * rows + y) + 1 < |GridStrokes(cols, rows, materialIndex)|
    ensures GridStrokes(cols, rows, materialIndex)[2 * (x * rows + y)] == CellStrokes(x, y, materialIndex)[0]
    ensures GridStrokes(cols, rows, materialIndex)[2 * (x * rows + y) + 1] == CellStrokes(x, y, materialIndex)[1]
  {
    var o := 2 * (x * rows + y);
    if x < cols - 1 {
      GridCellAt(cols - 1, rows, materialIndex, x, y);
      GridPrefix(cols, rows, materialIndex, o);
      GridPrefix(cols, rows, materialIndex, o + 1);
    } else {
      ColumnCellAt(x, rows, materialIndex, y);
      assert o == 2 * rows * (cols - 1) + 2 * y;
      ColumnCount(x, rows, materialIndex);
      GridLastColumn(cols, rows, materialIndex, 2 * y);
      GridLastColumn(cols, rows, materialIndex, 2 * y + 1);
    }
  }

  /** A grid with no rows or no columns draws nothing: `range` of a
      non-positive bound is empty, so the inner or outer loop never runs. */
  lemma EmptyGrid(nbRows: int, nbCols: int, materialIndex: int)
    requires nbRows <= 0 || nbCols <= 0
    ensures GridStrokes(RangeLen(nbCols), RangeLen(nbRows), materialIndex) == []
  {
    GridCount(RangeLen(nbCols), RangeLen(nbRows), materialIndex);
  }

  /** Every point of cell (x, y) lies half a unit from (x, y) in x and in y:
      the square's corners at height 0, the cube's corners half a unit above
      or below it. */
  lemma CellCorners(x: nat, y: nat, materialIndex: int)
    ensures forall i :: 0 <= i < |CellStrokes(x, y, materialIndex)[0].points| ==>
      var p := CellStrokes(x, y, materialIndex)[0].points[i];
      (p.x == x as real + 0.5 || p.x == x as real - 0.5) &&
      (p.y == y as real + 0.5 || p.y == y as real - 0.5) && p.z == 0.0
    ensures forall i :: 0 <= i < |CellStrokes(x, y, materialIndex)[1].points| ==>
      var p := CellStrokes(x, y, materialIndex)[1].points[i];
      (p.x == x as real + 0.5 || p.x == x as real - 0.5) &&
      (p.y == y as real + 0.5 || p.y == y as real - 0.5) &&
      (p.z == 0.5 || p.z == -0.5)
  {
    var center := Point(x as real, y as real, 0.0);
    SquareCorners(center, CellSize);
    CubePointsOnCorners(center, CellSize);
  }
}
