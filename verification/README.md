# ImageToMesh mesh builder, modelled in Dafny

`mesh_shape.py` turns a raster image into mesh geometry in one of two ways. It
can build a height-field **depth mesh**: a triangulated surface over the pixel
lattice, where each vertex's elevation comes from the pixel's colour or alpha.
It can instead build an **outline mesh**: a closed chain of edges that follows
the boundary of the foreground pixels clockwise.

This project models the algorithmic core of `MeshShape` with the Blender calls
removed. Each builder returns its vertex and triangle (or edge) lists instead
of handing them to the host. The core has five parts, one module each, plus a
small `Options` module:

- `PixelField`: the gradient modes, background classification (`__IgnoreColor`),
  the elevation formula (`__CalculateZ`), the bounds-checked buffer lookup
  (`__ContainsPosition`) and the optional elevation (`__PixelDepthAt`).
- `VertexGrid`: the vertex de-duplication map (`__AddVertIfNotAdded`), keyed
  by lattice position. Insertion order assigns the indices.
- `DepthMesh`: the per-cell triangle rule of `__CreateDepthMesh` and the gated
  `__CreateTri`. They are checked against an independent reference
  triangulation (`CellTris`, `RowTris`, `RowsFrom`), which is defined on the
  set of foreground positions. The vertex numbering is checked against
  `FirstUse`: the distinct corner positions of the reference triangles, in the
  order they first occur.
- `Clockwise`: the 45-degree rotation `__NextClockwiseDir`, the search for the
  first foreground neighbour (`__NextClockwisePixel`) and the neighbour count
  of `__SuitableForClockwise`.
- `Outline`: `__CreateOutlineMesh`, covering the start-pixel scan, the tracing
  loop bounded by the pixel count, and the edge chain `[0,1], …, [n-1,n], [n,0]`.

Elevations are Dafny `real`s. The image buffer is a list of RGBA quadruples.
`None` as the result of `CreateOutlineMesh` models the source's failure: the
source unpacks `None` from `__NextClockwisePixel` without checking it
(mesh_shape.py:195). That happens when the image has no foreground pixel, or
when the start pixel has no foreground neighbour.

Three behaviours of the code that a reader might not expect, all kept by
the model:

- An all-background image, or a single isolated pixel, makes the outline
  builder fail. It does not return an empty or minimal loop.
- The start scan runs from the top row (`H - 1`) downward, left to right
  within a row.
- Under BlackToWhite a darker pixel lies deeper (further below 0).

The traced outline is stated against reference definitions in `Outline`:
`StartTracer` (the tracer's first state), `Advance` (one pass of the loop,
built from `Record` and the reference search `Clockwise.FirstHitFrom`) and
`Run` (advance until the start pixel or the step bound). The result of
`CreateOutlineMesh` is the closing of `Run` from `StartTracer` of its first
vertex, so the contract fixes every pixel the tracer visits.

## Model

| member | source | states |
|---|---|---|
| PixelField.IgnoreColor | mesh_shape.py:56-62 | background by exact equality with the extreme value of the gradient's channels; for channel values in [0, 1], exactly the colours whose share of the depth is zero |
| PixelField.CalculateZ | mesh_shape.py:64-70 | for channel values in [0, 1] and a non-negative maximum depth, the elevation lies in [-maxDepth, 0] in every gradient mode |
| PixelField.LargerShareDeeper | mesh_shape.py:64-70 | a pixel that takes the larger share of the maximum depth gets the strictly lower elevation |
| PixelField.GradientOrdering | mesh_shape.py:64-70 | for a positive depth, a pixel with the smaller RGB sum lies strictly deeper under BlackToWhite and strictly shallower under WhiteToBlack |
| PixelField.AlphaOrdering | mesh_shape.py:69-70 | for a positive depth under Alpha, a pixel with the larger alpha lies strictly deeper, whatever its colour |
| PixelField.BackgroundIsSurfaceLevel | mesh_shape.py:56-70 | for channel values in [0, 1] and a positive depth, a colour is classified as background exactly when its elevation would be 0, in every gradient mode |
| PixelField.ContainsPosition | mesh_shape.py:72-78 | the result is -1 or the flat index (y * W + x) * 4 of a pixel whose quadruple lies inside the buffer |
| PixelField.ContainsPositionExactly | mesh_shape.py:72-78 | the result is not -1 if and only if 0 <= x < W, 0 <= y < H, the index lies inside the buffer, and the pixel is not background under exact-equality classification |
| PixelField.DistinctPixelsDistinctIndices | mesh_shape.py:72-77 | two positions that get the same index other than -1 are the same position |
| PixelField.PixelDepthAt | mesh_shape.py:80-84 | None exactly when the lookup gives -1; otherwise the elevation of that pixel's own RGBA quadruple, within [-maxDepth, 0] for channel values in [0, 1] |
| VertexGrid.AddVertIfNotAdded | mesh_shape.py:109-120 | a known position returns its stored index and changes nothing; a new position appends exactly Vertex(x, z, y) under the index equal to the old vertex count and maps the position to it; a valid grid stays valid, and the returned index names a vertex at (x, y) |
| VertexGrid.ValidConsequences | mesh_shape.py:110-120 | a valid grid is injective, and its vertices sit at pairwise distinct positions |
| DepthMesh.CreateTri | mesh_shape.py:122-132 | a triangle is appended exactly when all three elevations are defined, and otherwise nothing changes; an appended triangle's indices name vertices at the three pixel positions, in order; only the three pixels' vertices are ever appended, and each appended vertex is a corner of the new triangle |
| DepthMesh.CornersPlaced | mesh_shape.py:125-127 | the three lookups only extend the vertex list, and every vertex they append is one of the three corners |
| DepthMesh.CornersMatched | mesh_shape.py:125-129 | on a valid grid, the three looked-up indices name vertices at the three corner positions, and the grid stays valid |
| DepthMesh.CreateTriSound | mesh_shape.py:123-131 | on sampled pixels at distinct positions, the builder invariant survives: the grid stays valid, every vertex carries its pixel's elevation, every triangle has three distinct indices below the vertex count, every vertex is a corner of some triangle, and vertices stay numbered in order of first use |
| DepthMesh.CreateTriMatches | mesh_shape.py:123-132 | on sampled pixels, the emitted triangles are exactly the reference triangle of the three positions when all three are foreground, and none otherwise |
| DepthMesh.Attempt | mesh_shape.py:91-95 | one gated triangle attempt on three distinct positions creates a triangle exactly when all three pixels are foreground, keeps the invariant, and extends the match with the reference list |
| DepthMesh.ProcessQuad | mesh_shape.py:97-104 | the cell emits its top-left triangle, or only when that triangle is missing, the two triangles on the other diagonal |
| DepthMesh.OtherDiagonal | mesh_shape.py:100-104 | after a missing top-left triangle, the bottom-left and top-right attempts emit exactly the reference quad triangles |
| DepthMesh.ProcessCell | mesh_shape.py:91-107 | one cell emits exactly its reference triangles: the quad rule, then always the triangle towards the bottom-left neighbour |
| DepthMesh.CellGated | mesh_shape.py:97-107 | a cell yields at most three triangles, each with three distinct foreground corners |
| DepthMesh.CellOneDiagonal | mesh_shape.py:97-104 | a cell never yields the top-left triangle together with either triangle of the other diagonal |
| DepthMesh.RowsGated | mesh_shape.py:86-107 | every triangle of the reference triangulation has three distinct foreground corners |
| DepthMesh.ProcessColumn | mesh_shape.py:90-107 | visiting column x extends the row's match by that cell's reference triangles and keeps the invariant |
| DepthMesh.ProcessColumns | mesh_shape.py:90-107 | visiting the remaining columns of a row extends the match to the whole row |
| DepthMesh.ProcessRow | mesh_shape.py:89-107 | after row y, the triangles match the reference list of rows H down to y |
| DepthMesh.BuildRows | mesh_shape.py:89-107 | visiting rows y down to 0 yields triangles matching the whole reference triangulation and keeps the invariant |
| DepthMesh.CreateDepthMesh | mesh_shape.py:86-107 | no two vertices share a position; each vertex is a foreground pixel carrying that pixel's elevation, within [-maxDepth, 0] for channel values in [0, 1]; each triangle has three distinct indices below the vertex count; the triangles are exactly the reference triangulation, in visiting order; every vertex is a corner of some triangle, so a picture without triangles has no vertices either; vertex i sits at the i-th distinct position met when reading the reference triangles' corners in order, so the numbering is fixed by the input |
| DepthMesh.FirstUseDistinct | mesh_shape.py:110-120 | the first-use numbering lists each looked-up position exactly once, and no other position |
| DepthMesh.LookupNotes | mesh_shape.py:110-120 | on a valid grid, a lookup gives the vertex positions the looked-up position at the end when it is new, and leaves them unchanged when it is known |
| DepthMesh.CornersNoted | mesh_shape.py:124-127 | the three lookups of a triangle number its corners first, second, third, each only if new |
| DepthMesh.OrderKept | mesh_shape.py:123-129 | recording a triangle keeps the vertices numbered in the order their positions first occur among the recorded triangles' corners |
| DepthMesh.MatchesPlaced | mesh_shape.py:123-129 | triangles matching a reference list sit exactly on that list's positions |
| DepthMesh.SharedCorners | mesh_shape.py:110-129 | two triangles (a, b, c), (c, b, d) over distinct positions number a, b, c, d: shared corners keep their first index |
| DepthMesh.SolidBlockTris | mesh_shape.py:86-107 | a solid 2 x 2 image under BlackToWhite yields exactly the triangles ((0,1),(0,0),(1,1)) and ((1,1),(0,0),(1,0)) |
| DepthMesh.SolidBlockOrder | mesh_shape.py:86-131 | on that image the vertices are numbered (0,1), (0,0), (1,1), (1,0) |
| DepthMesh.CheckerboardHasNoTriangles | mesh_shape.py:86-107 | a 2 x 2 white/black checkerboard under BlackToWhite has only two foreground pixels and therefore yields no triangle |
| Clockwise.UnitIsCompass | mesh_shape.py:134-147 | the unit steps are exactly the eight compass steps |
| Clockwise.CompassSuccessor | mesh_shape.py:134-147 | NextClockwiseDir takes (0,1) to (1,1) to (1,0) to (1,-1) to (0,-1) to (-1,-1) to (-1,0) to (-1,1) and back to (0,1) |
| Clockwise.RotateAlongCompass | mesh_shape.py:134-147 | k rotations move a compass step k places along the cycle, modulo 8 |
| Clockwise.SingleCycle | mesh_shape.py:134-147 | on a unit step, among one to eight rotations exactly the eighth returns to the start step |
| Clockwise.NextClockwiseDir | mesh_shape.py:134-147 | a rotation maps each of the eight unit steps to a unit step |
| Clockwise.RotateKeepsUnit | mesh_shape.py:134-147 | any number of rotations maps unit steps to unit steps |
| Clockwise.RotateFromUp | mesh_shape.py:156-161 | the k-th rotation of "up" is the k-th compass step |
| Clockwise.SearchReachesBack | mesh_shape.py:206-207 | a search that starts one step clockwise of a foreground direction meets that direction at its eighth try, so some try among the eight finds a foreground pixel |
| Clockwise.SearchClockwise | mesh_shape.py:170-173 | the search stops at the first hitting direction, after missing all earlier ones, or after eight misses |
| Clockwise.FirstHitFromFinds | mesh_shape.py:170-173 | after n misses, the reference search answers with a later direction at which all earlier ones missed and which hits, or with 8 |
| Clockwise.FirstHitIsFirstHitFrom | mesh_shape.py:170-173 | the first hitting direction of the search is the one the reference search computes |
| Clockwise.NextClockwisePixel | mesh_shape.py:168-175 | None exactly when none of the eight neighbours is foreground; otherwise the move to the neighbour at the first hitting direction in clockwise order, all earlier directions having missed, with the negated step |
| Clockwise.MoveLeadsBack | mesh_shape.py:171-172 | the neighbour moved to is foreground, its returned step leads back to (x, y), and a unit search direction gives a unit step back |
| Clockwise.CountAdjacent | mesh_shape.py:155-161 | the count that turns clockwise from "up" equals the number of foreground pixels among the eight compass neighbours |
| Clockwise.SuitableForClockwise | mesh_shape.py:149-166 | true exactly when the pixel is foreground and has more than one foreground neighbour |
| Outline.StartUnique | mesh_shape.py:178-189 | the start scan has at most one answer |
| Outline.FindStart | mesh_shape.py:178-189 | the scan stops at the first foreground pixel, taking rows from H - 1 downward and left to right within a row, or ends at (0, -1) when no pixel is foreground |
| Outline.NoNeighbourMeansIsolated | mesh_shape.py:193-195 | when the first search finds no neighbour, every start pixel is isolated |
| Outline.StartNotIsolated | mesh_shape.py:178-196 | when the first search finds a neighbour, the scanned pixel is the first foreground pixel of the scan, it is not isolated, and the image has at least one pixel |
| Outline.FirstStep | mesh_shape.py:193-196 | when the first search finds a neighbour, the tracer's initial state satisfies the tracing invariant: at the neighbour, with the start pixel as previous pixel |
| Outline.RecordPrevious | mesh_shape.py:200-203 | the result is the reference record: the previous pixel's vertex is looked up, and the edge [k, k+1] is appended exactly when the lookup answers with the last vertex index; the invariant parts survive (valid grid, foreground vertices at elevation 0, the first vertex at the start pixel, the edge chain, at most one edge per step) |
| Outline.RevisitOfLastLooksNew | mesh_shape.py:200 | looking up the most recently added vertex's position again appends nothing, yet returns the last index, so it counts as a new vertex |
| Outline.TraceStep | mesh_shape.py:199-210 | one pass keeps the tracing invariant and takes exactly one step; the neighbour search inside the loop never fails; the pixel left becomes the previous pixel; the tracer moves to the first foreground neighbour clockwise after the way back, with the step back to the pixel left; the new state is the reference Advance |
| Outline.Trace | mesh_shape.py:198-210 | the loop takes at least one and at most len(Pixels) / 4 steps, stops on the start pixel or at that bound, and ends in the state the reference Run reaches |
| Outline.Close | mesh_shape.py:212-213 | closing an open chain [0,1], …, [n-1,n] whose next index is n yields a closed chain: the one edge [n, 0] back to the first vertex completes it |
| Outline.CloseSound | mesh_shape.py:212-213 | the closed edge list is exactly [0,1], …, [n-1,n], [n,0] with n at most the pixel count; there are between 2 and n + 1 vertices; the first is the start pixel; all are foreground at elevation 0, and all but the closing one sit at distinct positions |
| Outline.CreateOutlineMesh | mesh_shape.py:177-213 | failure exactly when every start pixel is isolated (which includes an image with no foreground); otherwise the closed chain and vertex facts of CloseSound, and the mesh is the closing of the reference Run from the reference first state at the start pixel, so every traced vertex and edge is fixed |

## Left out

- `MeshShape.__init__` (mesh_shape.py:28-54) and the host calls: creating the mesh and the object, linking them into the scene, `from_pydata` and `update`. The builders return their lists instead.
- The `GenerateType` dispatch (mesh_shape.py:9-11, 47-52). It only selects a builder.
- `Side` and `__AddEdge` with the code after it (mesh_shape.py:13-19, 215-275). This code is never called and refers to attributes that are never set.
- The host add-on (`__init__.py`): operator registration, the UI and image file loading. It is not part of this model.
- IEEE floating-point rounding. Elevations and channel values are exact reals, so the background test is exact equality on reals.
- The pixel buffer is a list of RGBA quadruples, not a flat list of channel values. A flat buffer whose length is not a multiple of four cannot be represented, and `len(Pixels) // 4` is the length of the list.
- The `IgnorePixel` parameter of `__NextClockwisePixel` and `__SuitableForClockwise` is dropped, because neither function reads it.
- Outline.CreateOutlineMesh: requires W > 0 and H > 0. The source's start scan does not terminate for W = 0 with H >= 1, or for W = 1 with H = 0. For W = 0 with H = 0, and for W >= 2 with H = 0, the scan stops at once with StartY = -1 and the next line fails unpacking `None`, the same failure the model reports as `None`.
- Outline.CreateOutlineMesh: does not claim that all vertices are distinct. The closing vertex is appended without a lookup, so it can repeat a traced position.
- Outline.CreateOutlineMesh: does not claim that every edge index names a vertex. A revisit of the last vertex also appends an edge (see RevisitOfLastLooksNew), so the edge counter can run ahead of the vertex list.
- Triangle orientation (winding) and geometric properties of the outline, such as whether the chain bounds the foreground region, are not stated. The model states which triangles, which traced pixels and which edge chain are produced.
