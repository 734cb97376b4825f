# Grease-pencil stroke geometry and modifier clearing, in Dafny

This project models the computational core of a small set of Blender scripts.

- **Grease-pencil drawing helpers** (`grease_pencil.py`). A frame owns an ordered list of
  strokes. Each stroke is an ordered list of 3-D points plus a closed/open flag and a
  material index. The helpers append strokes to the frame and fill in their points one
  at a time:
  - a line and a free-form shape;
  - an axis-aligned square;
  - a wire cube walked along a fixed 16-step corner path;
  - a grid of squares and cubes;
  - the recursive polygon fractal, which draws a polygon, then an inner polygon built
    from pulled-in edge midpoints, then one five-point "flap" per vertex, down to a
    depth bound.

  A separate helper translates a stroke in place.
- **Modifier clearing** (`plexus_mesh.py`). `delmods` removes from an object's ordered
  modifier stack every modifier of one type, or every modifier for the type `"ALL"`. The
  script then adds one fresh modifier of that type.

Coordinates are exact reals. The formulas use only addition, subtraction, halving and
scaling by a constant (the cube's ±1 offsets), so no rounding enters the model.

Modules:

- `Geometry`: points, strokes, midpoint, translation.
- `Shapes`: the square and cube point lists, and `itertools.product`.
- `Fractal`: the stroke sequence of the polygon recursion, as functions.
- `Grid`: the stroke sequence of the deterministic grid.
- `GreasePencil`: the `Frame` class. Its methods and loops are proved against the
  functions above.
- `Modifiers`: the modifier stack class, `delmods`, and the clear-then-add pattern.

## Model

| member | source | states |
|---|---|---|
| Geometry.Midpoint | grease_pencil.py:200-201 | the midpoint is as far from p0 as p1 is from it, and twice it is p0 + p1 |
| Geometry.Translated | grease_pencil.py:291-293 | translating keeps point count, order, closure and material, and every point moves by exactly the vector |
| Geometry.TranslatedInverse | grease_pencil.py:291-293 | translating by -v undoes translating by v |
| Geometry.TranslatedCompose | grease_pencil.py:291-293 | two translations are one translation by the sum |
| Geometry.TranslatedKeepsAxisSteps | grease_pencil.py:291-293 | translation keeps every axis-aligned segment and its length |
| Geometry.AxisStepDiffersInOne | grease_pencil.py:108-113 | a nonzero axis step changes exactly one coordinate |
| Shapes.SquarePoints | grease_pencil.py:108-113 | the square has four points |
| Shapes.SquareCorners | grease_pencil.py:108-113 | each square point is ±size/2 from the center in x and y, and at the center's z |
| Shapes.SquareSidesAreAxisSteps | grease_pencil.py:108-113 | each side, including the closing one, moves along one axis by size |
| Shapes.CubeOffsetsAreProduct | grease_pencil.py:125 | the corner offsets are product([1, -1], repeat=3), in that order |
| Shapes.CubeCorners | grease_pencil.py:124-128 | definition: corner j is the center moved by size/2 times offset j of product([1, -1], repeat=3); the contract states eight corners |
| Shapes.CubePathInRange | grease_pencil.py:129 | the path has 16 entries, each naming one of the 8 corners |
| Shapes.CubePoints | grease_pencil.py:129-133 | definition: point i is the corner that `stroke_idx[i]` names; the contract states sixteen points |
| Shapes.CubePathFollowsEdges | grease_pencil.py:129 | each step of the closed path joins two corners that differ in one offset sign |
| Shapes.CubePathCoversAllEdges | grease_pencil.py:129 | every one of the 12 cube edges is walked by some step of the closed path |
| Shapes.CubePointsOnCorners | grease_pencil.py:124-134 | every cube point is ±size/2 from the center in each coordinate |
| Shapes.FlipIsAxisStep | grease_pencil.py:124-128 | corners whose offsets differ in one sign are one axis step of length size apart |
| Shapes.CubeSegmentsAreAxisSteps | grease_pencil.py:124-134 | every segment of the cube stroke, including the closing one, is an axis step of length size |
| Fractal.PyAt | grease_pencil.py:231 | definition: Python's `s[i]` for an index in -len(s) .. len(s)-1, a negative one counted from the end (its requires is the range Python accepts) |
| Fractal.Midpoints | grease_pencil.py:219-223 | definition: midpoint i is that of the edge from vertex i to the next, the last edge closing back to vertex 0; the contract states one midpoint per vertex |
| Fractal.Approach | grease_pencil.py:225-226 | definition: n successive moves halfway from the current point towards the target |
| Fractal.InnerVertex | grease_pencil.py:222-226 | definition: halfway from the origin to the midpoint, then `step` more halvings towards it (closed form in InnerVertexClosedForm) |
| Fractal.InnerVertexClosedForm | grease_pencil.py:222-226 | the inner vertex equals the midpoint scaled by 1 - 2^-(step+1) |
| Fractal.InnerPolygon | grease_pencil.py:217-228 | the inner polygon has as many sides as its parent |
| Fractal.InnerPolygonAt | grease_pencil.py:217-228 | inner vertex i is edge midpoint i scaled by 1 - 2^-(step+1) |
| Fractal.Flap | grease_pencil.py:231 | each flap has exactly five points |
| Fractal.FlapAtCorner | grease_pencil.py:231 | flap i runs from vertex i through the midpoints of the two edges at that vertex and the inner vertices built from them; index i - 1 wraps to the last vertex |
| Fractal.Flaps | grease_pencil.py:230-231 | one flap per vertex, each of five points |
| Fractal.PolygonStrokes | grease_pencil.py:204-232 | a call's first stroke is its input polygon, closed, with material `step` |
| Fractal.StopsAtMaxSteps | grease_pencil.py:214-215 | at or past the depth bound a call draws exactly its input polygon |
| Fractal.StrokeCount | grease_pencil.py:229-232 | the count S(k, s) is 1 at the bound and 1 + S(k, s+1) + k·S(5, s+1) below it; its contract states that S(k, s) is at least one |
| Fractal.ListStrokes | grease_pencil.py:230-232 | definition: the strokes of the calls on each polygon of the list in turn, all at the same depth |
| Fractal.PolygonStrokesCount | grease_pencil.py:204-232 | a k-gon call draws S(k, s) strokes, where S(k, s) = 1 at the bound and 1 + S(k, s+1) + k·S(5, s+1) below it |
| Fractal.ListStrokesCount | grease_pencil.py:230-232 | calls on n k-gons draw n·S(k, s) strokes |
| Fractal.ShapedConcat | grease_pencil.py:204-232 | shaped stroke lists stay shaped when concatenated |
| Fractal.ShapedDeeper | grease_pencil.py:229-232 | strokes shaped one level deeper are shaped at the parent level |
| Fractal.PolygonStrokesShaped | grease_pencil.py:204-232 | every stroke drawn is closed, has a material between `step` and the bound, and has k or 5 points |
| Fractal.ListStrokesShaped | grease_pencil.py:230-232 | the same holds for the strokes of the flap calls |
| Fractal.ListStrokeAt | grease_pencil.py:230-232 | among calls on n k-gons, the call on polygon i starts at stroke i·S(k, s) with that polygon |
| Fractal.PreOrder | grease_pencil.py:229 | below the bound the stroke count is 1 + S(k, s+1) + k·S(5, s+1), and stroke 1 is the inner polygon one level deeper |
| Fractal.PreOrderFlap | grease_pencil.py:230-232 | flap i's stroke comes after the polygon, the whole inner recursion and the recursions of the i earlier flaps |
| Grid.RangeLen | grease_pencil.py:187-188 | definition: the number of values of `range(n)`: n, or none when n is negative |
| Grid.CellStrokes | grease_pencil.py:189-195 | definition: the square of side 1 around (x, y, 0) with the caller's material, then the cube of side 1 there with material 0; the contract states two strokes per cell |
| Grid.ColumnStrokes | grease_pencil.py:188-195 | definition: the cells of column x for y over range(rows), in order |
| Grid.GridStrokes | grease_pencil.py:187-195 | definition: the columns for x over range(cols), in order |
| Grid.EmptyGrid | grease_pencil.py:187-188 | a grid with no rows or no columns (either bound zero or negative) draws nothing |
| Grid.GridCount | grease_pencil.py:187-195 | the grid draws 2·rows·cols strokes |
| Grid.GridCellAt | grease_pencil.py:187-195 | cell (x, y) is the (x·rows + y)-th cell: its square is stroke 2(x·rows + y) and its cube the next stroke, so x is the outer loop |
| Grid.CellCorners | grease_pencil.py:189-195 | every point of cell (x, y)'s square is ±1/2 from (x, y) in x and y at height 0, and every point of its cube is ±1/2 from (x, y, 0) in each coordinate |
| GreasePencil.Frame.constructor | grease_pencil.py:73 | a new frame has no strokes |
| GreasePencil.Frame.NewStroke | grease_pencil.py:52 | `strokes.new()` appends one stroke at the end and returns its index |
| GreasePencil.Frame.DrawLine | grease_pencil.py:50-60 | appends one open stroke with the two points p0, p1 and material 0; no other stroke changes |
| GreasePencil.Frame.FillPoints | grease_pencil.py:66-69 | points added as zeros and then set one by one end up equal to the vertices |
| GreasePencil.Frame.DrawShape | grease_pencil.py:63-70 | appends one open stroke whose points are `verts`, in order |
| GreasePencil.Frame.DrawSquare | grease_pencil.py:99-114 | appends one closed stroke with the four square points and the given material |
| GreasePencil.Frame.DrawCube | grease_pencil.py:116-135 | appends one closed 16-point stroke that walks the corners along the fixed path |
| GreasePencil.Frame.SquaresGrid | grease_pencil.py:185-197 | appends exactly the grid's strokes in loop order (with both random flags false) |
| GreasePencil.Frame.PolygonRecursive | grease_pencil.py:204-232 | appends exactly the pre-order stroke sequence of the recursion; terminates because the depth rises to the bound |
| GreasePencil.Frame.InnerAndMidpoints | grease_pencil.py:217-228 | the two append loops build exactly the edge midpoints and the inner polygon |
| GreasePencil.Frame.InnerPoint | grease_pencil.py:224-226 | the halving loop yields exactly the inner vertex |
| GreasePencil.Frame.DrawFlaps | grease_pencil.py:230-232 | the flap loop appends the strokes of the calls on flaps 0 .. k-1, in order |
| GreasePencil.Frame.TranslateStroke | grease_pencil.py:291-293 | stroke k becomes its translation by the vector, and every other stroke is unchanged |
| Modifiers.ModObject.Remove | plexus_mesh.py:36 | `modifiers.remove(m)` takes m out and keeps the order of the rest |
| Modifiers.ModObject.New | plexus_mesh.py:42 | `modifiers.new` puts one fresh modifier with the given name and type on top |
| Modifiers.DelMods | plexus_mesh.py:32-36 | the stack becomes exactly the modifiers of other types in their old order, or empty for "ALL"; the removals happen in reverse snapshot order; the stack stays free of repeats |
| Modifiers.PopStep | plexus_mesh.py:35-36 | each popped modifier is still on the stack when it is removed, and removing it extends the removed set by one |
| Modifiers.DelModsResult | plexus_mesh.py:33-36 | removing every snapshot element leaves the modifiers of other types, or nothing for "ALL" |
| Modifiers.OfKind | plexus_mesh.py:34 | definition: the modifiers of the stack whose type is t, in stack order; the contract states that there are no more of them than modifiers |
| Modifiers.Others | plexus_mesh.py:32-36 | definition: the modifiers of the stack whose type is not t, in stack order; the contract states that there are no more of them than modifiers |
| Modifiers.Snapshot | plexus_mesh.py:33-34 | definition: the list `delmods` takes, a copy of the whole stack for "ALL" and otherwise the modifiers of the type; the contract states that it is no longer than the stack |
| Modifiers.Kept | plexus_mesh.py:32-36 | definition: what `delmods` leaves, nothing for "ALL" and otherwise the modifiers of the other types; the contract states that it is no longer than the stack |
| Modifiers.OfKindMembers | plexus_mesh.py:33-34 | a modifier is in the snapshot of type t iff it is on the stack with type t |
| Modifiers.KeptMembers | plexus_mesh.py:32-36 | a modifier survives iff it was on the stack, the type is not "ALL", and its own type differs |
| Modifiers.KeptHasNoneOfKind | plexus_mesh.py:33-36 | no modifier of the cleared type remains |
| Modifiers.KeptKeepsOrder | plexus_mesh.py:34-36 | two survivors keep their relative order |
| Modifiers.OthersConcat | plexus_mesh.py:34-36 | clearing a split stack clears each part, so the order of the survivors is kept |
| Modifiers.KeptIdempotent | plexus_mesh.py:32-36 | a second clear of the same type changes nothing |
| Modifiers.SnapshotAndKept | plexus_mesh.py:33-36 | the snapshot and the survivors together account for every modifier, so the loop runs once per snapshot element |
| Modifiers.ReplaceModifier | plexus_mesh.py:41-42 | clear-then-add leaves the survivors followed by one fresh modifier of the type |
| Modifiers.ReplaceLeavesOne | plexus_mesh.py:51-52 | after clear-then-add, exactly one modifier of the type remains, and it is on top |

## Left out

- Blender object, layer and frame creation (`gp_create`, `gp_create_layer`, `init_grease_pencil`) and the module-level script code are host calls. The frame is a `Frame` object here.
- `display_mode` is not modelled. Every helper sets it to 3-D space, and nothing here reads it. Line width is not modelled either.
- `draw_circle`, `rotate_stroke`, `draw_sphere`, the base polygon of `draw_polygon_fractal`, `animate_square_sliding` and `kinetic_rotation_polygon` need trigonometry or `numpy` float arrays. Exact reals cannot model those.
- `draw_tile`, the `rand_size` and `rand_rotation` branches of `squares_grid`, `draw_multiple_circles_animated` and `grid_animation` depend on random numbers.
- `draw_tile` calls `draw_line` without a frame and calls an undefined `line`, so it cannot run as written.
- `line_animation` is mostly host frame creation.
- Python float rounding is not modelled. Coordinates are exact reals.
- `bpy.ops` operators, textures, particle settings and `modifier_apply` in plexus_mesh.py act on host state.
- GreasePencil.Frame.TranslateStroke: takes the index of a stroke in the frame rather than a stroke object. Strokes are values here, so a stroke held outside the frame is not modelled.
- GreasePencil.Frame.PolygonRecursive: `step` is a natural number. A negative start depth, which the function accepts but never receives from its callers, is not modelled.
- GreasePencil.Frame.SquaresGrid: models only the deterministic branch. The fixed `radius = 1` is passed on as the shapes' full side, so every square and cube has half-width 1/2.
- Modifiers.DelMods: requires the stack to hold no modifier twice (`Valid`). Blender keeps every modifier object in the stack once.
- Modifiers.ModObject.New: keeps the requested name. Blender renames a new modifier whose name is already taken ("deci.001"), and that renaming is not modelled.
- Modifiers.ModObject.Remove: modelled by its effect on the stack. Blender raises an error for a modifier that is not on the stack; `delmods` never does this, so the model requires the modifier to be present.
- The open flag and material 0 of the strokes that `draw_line` and `draw_shape` make are Blender's defaults for `strokes.new()`. The source never sets them, and the model writes them out.
- The Python default arguments are required parameters here: `step=0` and `max_steps=3` of `polygon_recursive`, `material_index=0` of `draw_square`, `draw_cube` and `squares_grid`, and `mod_type="ALL"` of `delmods`. Callers pass the defaults explicitly, so no call loses behaviour.
