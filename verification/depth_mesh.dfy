/**
  The depth (height-field) mesh: every cell of the pixel lattice is visited,
  rows from y = height down to y = 0 and columns left to right, and up to
  three triangles are emitted per cell under a fixed rule. A triangle is
  emitted only when all three of its pixels have an elevation.
*/
module DepthMesh {
  import opened Options
  import opened PixelField
  import opened VertexGrid

  /** A sampled pixel: its position and its elevation, None for "no data". */
  datatype Pixel = Pixel(x: int, y: int, z: Option<real>)

  /** A triangle as three vertex indices. */
  datatype Tri = Tri(a: nat, b: nat, c: nat)

  /** A triangle named by the lattice positions of its three corners. */
  datatype Corners = Corners(p: Point, q: Point, r: Point)

  /** The builder's state: the vertex grid, the vertex list and the triangle list. */
  datatype Mesh = Mesh(grid: Grid, verts: seq<Vertex>, tris: seq<Tri>)

  /** What one call of CreateTri returns: whether a triangle was emitted, and the new state. */
  datatype Emitted = Emitted(created: bool, mesh: Mesh)

  function Sample(f: Field, x: int, y: int): (p: Pixel)
    requires WellFormed(f)
  {
    Pixel(x, y, PixelDepthAt(f, x, y))
  }

  function PosOf(p: Pixel): Point {
    Point(p.x, p.y)
  }

  // ---------------------------------------------------------------------------
  // Reference triangulation on lattice positions, over a foreground mask fg

  /** The triangle (p, q, r) when all three pixels are foreground, otherwise nothing. */
  ghost function Keep(fg: iset<Point>, p: Point, q: Point, r: Point): seq<Corners> {
    if p in fg && q in fg && r in fg then [Corners(p, q, r)] else []
  }

  /**
    The triangles of the cell at (x, y): the top-left triangle, or when it is
    missing the two triangles on the other diagonal; then always the triangle
    towards the bottom-left neighbour.
  */
  ghost function CellTris(fg: iset<Point>, x: int, y: int): seq<Corners> {
    QuadTris(fg, x, y) + Keep(fg, Point(x, y), Point(x - 1, y - 1), Point(x, y - 1))
  }

  /**
    The quad to the lower right of (x, y): its top-left triangle when all three
    pixels are foreground, otherwise the two triangles on the other diagonal.
  */
  ghost function QuadTris(fg: iset<Point>, x: int, y: int): seq<Corners> {
    var cur, bottom, right, bottomRight := Point(x, y), Point(x, y - 1), Point(x + 1, y), Point(x + 1, y - 1);
    if cur in fg && bottom in fg && right in fg then [Corners(cur, bottom, right)]
    else Keep(fg, cur, bottom, bottomRight) + Keep(fg, cur, bottomRight, right)
  }

  /** The triangles of the first n cells of row y. */
  ghost function RowTris(fg: iset<Point>, y: int, n: int): seq<Corners>
    decreases n
  {
    if n <= 0 then [] else RowTris(fg, y, n - 1) + CellTris(fg, n - 1, y)
  }

  /** The triangles of the rows height, height - 1, ..., y, in visiting order. */
  ghost function RowsFrom(fg: iset<Point>, width: int, height: int, y: int): seq<Corners>
    decreases height + 1 - y
  {
    if y > height then [] else RowsFrom(fg, width, height, y + 1) + RowTris(fg, y, width)
  }

  /** All triangles of the depth mesh of an image, as lattice positions. */
  ghost function MeshTris(f: Field): seq<Corners>
    requires WellFormed(f)
  {
    RowsFrom(Mask(f), f.width, f.height, 0)
  }

  /** A triangle with three distinct foreground corners. */
  ghost predicate Gated(fg: iset<Point>, t: Corners) {
    && t.p in fg && t.q in fg && t.r in fg
    && t.p != t.q && t.q != t.r && t.p != t.r
  }

  /** Every triangle of the list has three distinct foreground corners. */
  ghost predicate AllGated(fg: iset<Point>, ts: seq<Corners>)
    decreases |ts|
  {
    ts == [] || (Gated(fg, ts[0]) && AllGated(fg, ts[1..]))
  }

  lemma {:induction false} AllGatedMembers(fg: iset<Point>, ts: seq<Corners>)
    ensures AllGated(fg, ts) <==> forall t :: t in ts ==> Gated(fg, t)
    decreases |ts|
  {
    if ts != [] {
      AllGatedMembers(fg, ts[1..]);
      assert ts == [ts[0]] + ts[1..];
    }
  }

  /** A cell emits at most three triangles, each with three distinct foreground corners. */
  lemma CellGated(fg: iset<Point>, x: int, y: int)
    ensures |CellTris(fg, x, y)| <= 3
    ensures AllGated(fg, CellTris(fg, x, y))
  {
    AllGatedMembers(fg, CellTris(fg, x, y));
  }

  /** A cell never emits both diagonals of its quad. */
  lemma CellOneDiagonal(fg: iset<Point>, x: int, y: int)
    ensures Corners(Point(x, y), Point(x, y - 1), Point(x + 1, y)) in CellTris(fg, x, y) ==>
              && Corners(Point(x, y), Point(x, y - 1), Point(x + 1, y - 1)) !in CellTris(fg, x, y)
              && Corners(Point(x, y), Point(x + 1, y - 1), Point(x + 1, y)) !in CellTris(fg, x, y)
  {
  }

  /** Every reference triangle has three distinct foreground corners. */
  lemma {:induction false} RowsGated(fg: iset<Point>, width: int, height: int, y: int)
    ensures AllGated(fg, RowsFrom(fg, width, height, y))
    decreases height + 1 - y
  {
    if y <= height {
      RowsGated(fg, width, height, y + 1);
      RowGated(fg, y, width);
      GatedConcat(fg, RowsFrom(fg, width, height, y + 1), RowTris(fg, y, width));
    }
  }

  lemma GatedConcat(fg: iset<Point>, a: seq<Corners>, b: seq<Corners>)
    ensures AllGated(fg, a) && AllGated(fg, b) ==> AllGated(fg, a + b)
  {
    AllGatedMembers(fg, a);
    AllGatedMembers(fg, b);
    AllGatedMembers(fg, a + b);
  }

  lemma {:induction false} RowGated(fg: iset<Point>, y: int, n: int)
    ensures AllGated(fg, RowTris(fg, y, n))
    decreases n
  {
    if n > 0 {
      RowGated(fg, y, n - 1);
      CellGated(fg, n - 1, y);
      GatedConcat(fg, RowTris(fg, y, n - 1), CellTris(fg, n - 1, y));
    }
  }

  // ---------------------------------------------------------------------------
  // Index triangles against reference triangles

  /** The lattice positions of a triangle's corners. */
  ghost function Placed(verts: seq<Vertex>, t: Tri): Corners
    requires t.a < |verts| && t.b < |verts| && t.c < |verts|
  {
    Corners(verts[t.a].Pos(), verts[t.b].Pos(), verts[t.c].Pos())
  }

  /** The index triangles name valid vertices and sit exactly on the reference triangles. */
  ghost predicate Matches(verts: seq<Vertex>, tris: seq<Tri>, ref: seq<Corners>) {
    && |tris| == |ref|
    && forall i :: 0 <= i < |tris| ==>
         && tris[i].a < |verts| && tris[i].b < |verts| && tris[i].c < |verts|
         && Placed(verts, tris[i]) == ref[i]
  }

  lemma MatchesGrow(verts: seq<Vertex>, verts': seq<Vertex>, tris: seq<Tri>, ref: seq<Corners>)
    requires Matches(verts, tris, ref) && verts <= verts'
    ensures Matches(verts', tris, ref)
  {
    forall i | 0 <= i < |tris|
      ensures Placed(verts', tris[i]) == ref[i]
    {
      assert verts'[tris[i].a] == verts[tris[i].a];
      assert verts'[tris[i].b] == verts[tris[i].b];
      assert verts'[tris[i].c] == verts[tris[i].c];
    }
  }

  lemma MatchesAppend(verts: seq<Vertex>, t1: seq<Tri>, r1: seq<Corners>, t2: seq<Tri>, r2: seq<Corners>)
    requires Matches(verts, t1, r1) && Matches(verts, t2, r2)
    ensures Matches(verts, t1 + t2, r1 + r2)
  {
    forall i | 0 <= i < |t1 + t2|
      ensures (t1 + t2)[i].a < |verts| && (t1 + t2)[i].b < |verts| && (t1 + t2)[i].c < |verts|
      ensures Placed(verts, (t1 + t2)[i]) == (r1 + r2)[i]
    {
      if i >= |t1| {
        assert (t1 + t2)[i] == t2[i - |t1|];
      }
    }
  }

  /** Triangles emitted after `m` extend the match from `ref` to `ref + more`. */
  lemma ExtendMatches(m: Mesh, next: Mesh, ref: seq<Corners>, more: seq<Corners>)
    requires Matches(m.verts, m.tris, ref)
    requires m.verts <= next.verts && m.tris <= next.tris
    requires Matches(next.verts, next.tris[|m.tris|..], more)
    ensures Matches(next.verts, next.tris, ref + more)
  {
    MatchesGrow(m.verts, next.verts, m.tris, ref);
    assert next.tris == m.tris + next.tris[|m.tris|..];
    MatchesAppend(next.verts, m.tris, ref, next.tris[|m.tris|..], more);
  }

  /** The same, for the triangles emitted since index `base`. */
  lemma ExtendFrom(m: Mesh, next: Mesh, base: nat, ref: seq<Corners>, more: seq<Corners>)
    requires base <= |m.tris| && Matches(m.verts, m.tris[base..], ref)
    requires m.verts <= next.verts && m.tris <= next.tris
    requires Matches(next.verts, next.tris[|m.tris|..], more)
    ensures Matches(next.verts, next.tris[base..], ref + more)
  {
    MatchesGrow(m.verts, next.verts, m.tris[base..], ref);
    assert next.tris[base..] == m.tris[base..] + next.tris[|m.tris|..] by {
      assert next.tris[..|m.tris|] == m.tris;
    }
    MatchesAppend(next.verts, m.tris[base..], ref, next.tris[|m.tris|..], more);
  }

  /**
    The builder invariant: the grid is valid, every vertex is a foreground pixel
    carrying that pixel's elevation, and every triangle names three distinct
    existing vertices.
  */
  ghost predicate Sound(f: Field, m: Mesh)
    requires WellFormed(f)
  {
    && Valid(m.grid, m.verts)
    && (forall i :: 0 <= i < |m.verts| ==> PixelDepthAt(f, m.verts[i].x, m.verts[i].y) == Some(m.verts[i].z))
    && (forall t :: t in m.tris ==>
          && t.a < |m.verts| && t.b < |m.verts| && t.c < |m.verts|
          && t.a != t.b && t.b != t.c && t.a != t.c)
    && AllUsed(m.verts, m.tris)
    && InFirstUseOrder(m.verts, m.tris)
  }

  /** Vertex index i is a corner of triangle t. */
  predicate Uses(t: Tri, i: nat) {
    t.a == i || t.b == i || t.c == i
  }

  /** Vertex index i is a corner of some triangle of tris. */
  ghost predicate Used(tris: seq<Tri>, i: nat) {
    exists t :: t in tris && Uses(t, i)
  }

  /** Every vertex is a corner of some triangle. */
  ghost predicate AllUsed(verts: seq<Vertex>, tris: seq<Tri>) {
    forall i :: 0 <= i < |verts| ==> Used(tris, i)
  }

  // ---------------------------------------------------------------------------
  // Vertex numbering in order of first use

  /** The lattice positions of the vertices, by index. */
  ghost function Positions(verts: seq<Vertex>): seq<Point>
    decreases |verts|
  {
    if verts == [] then [] else Positions(verts[..|verts| - 1]) + [verts[|verts| - 1].Pos()]
  }

  lemma {:induction false} PositionsAt(verts: seq<Vertex>)
    ensures |Positions(verts)| == |verts|
    ensures forall i :: 0 <= i < |verts| ==> Positions(verts)[i] == verts[i].Pos()
    decreases |verts|
  {
    if verts != [] {
      PositionsAt(verts[..|verts| - 1]);
    }
  }

  /** Record position p unless it is recorded already. */
  ghost function Note(ps: seq<Point>, p: Point): seq<Point> {
    if p in ps then ps else ps + [p]
  }

  /** The distinct positions of ps, in the order of their first appearance. */
  ghost function FirstUse(ps: seq<Point>): seq<Point>
    decreases |ps|
  {
    if ps == [] then [] else Note(FirstUse(ps[..|ps| - 1]), ps[|ps| - 1])
  }

  /** The corners of the triangles, one triangle after the other, each in its own order. */
  ghost function CornerList(ts: seq<Corners>): seq<Point>
    decreases |ts|
  {
    if ts == [] then []
    else var t := ts[|ts| - 1]; CornerList(ts[..|ts| - 1]) + [t.p, t.q, t.r]
  }

  /** Every triangle names existing vertices. */
  ghost predicate Indexed(verts: seq<Vertex>, tris: seq<Tri>) {
    forall t :: t in tris ==> t.a < |verts| && t.b < |verts| && t.c < |verts|
  }

  /** The index triangles as lattice positions. */
  ghost function PlacedAll(verts: seq<Vertex>, tris: seq<Tri>): seq<Corners>
    requires Indexed(verts, tris)
    decreases |tris|
  {
    if tris == [] then []
    else
      assert tris[|tris| - 1] in tris;
      PlacedAll(verts, tris[..|tris| - 1]) + [Placed(verts, tris[|tris| - 1])]
  }

  /**
    Vertex i sits at the i-th distinct position met when reading the
    triangles' corners in order: a vertex is numbered when it is first used.
  */
  ghost predicate InFirstUseOrder(verts: seq<Vertex>, tris: seq<Tri>)
    requires Indexed(verts, tris)
  {
    NumberedBy(verts, FirstUse(CornerList(PlacedAll(verts, tris))))
  }

  /** Vertex i sits at order[i], for every i, and there are no further positions. */
  ghost predicate NumberedBy(verts: seq<Vertex>, order: seq<Point>) {
    |order| == |verts| && forall i :: 0 <= i < |verts| ==> order[i] == verts[i].Pos()
  }

  lemma NumberedByPositions(verts: seq<Vertex>, order: seq<Point>)
    ensures NumberedBy(verts, order) <==> Positions(verts) == order
  {
    PositionsAt(verts);
  }

  /** First-use order lists every position of ps exactly once. */
  lemma {:induction false} FirstUseDistinct(ps: seq<Point>)
    ensures forall p :: p in FirstUse(ps) <==> p in ps
    ensures forall i, j :: 0 <= i < j < |FirstUse(ps)| ==> FirstUse(ps)[i] != FirstUse(ps)[j]
    decreases |ps|
  {
    if ps != [] {
      var init := ps[..|ps| - 1];
      FirstUseDistinct(init);
      assert ps == init + [ps[|ps| - 1]];
    }
  }

  /** Three more corners note three more positions, in order. */
  lemma FirstUseThree(ps: seq<Point>, a: Point, b: Point, c: Point)
    ensures FirstUse(ps + [a, b, c]) == Note(Note(Note(FirstUse(ps), a), b), c)
  {
    assert (ps + [a])[..|ps|] == ps;
    assert FirstUse(ps + [a]) == Note(FirstUse(ps), a);
    assert (ps + [a, b])[..|ps| + 1] == ps + [a];
    assert FirstUse(ps + [a, b]) == Note(FirstUse(ps + [a]), b);
    assert (ps + [a, b, c])[..|ps| + 2] == ps + [a, b];
  }

  /** On a valid grid, one lookup notes the looked-up position in the vertex positions. */
  lemma LookupNotes(grid: Grid, verts: seq<Vertex>, v: Vertex)
    requires Valid(grid, verts)
    ensures Positions(AddVertIfNotAdded(grid, verts, v.x, v.y, v.z).verts) == Note(Positions(verts), v.Pos())
  {
    var r := AddVertIfNotAdded(grid, verts, v.x, v.y, v.z);
    PositionsAt(verts);
    if v.Pos() in grid {
      assert Positions(verts)[grid[v.Pos()]] == v.Pos();
    } else {
      assert v.Pos() !in Positions(verts);
      assert r.verts[..|verts|] == verts;
    }
  }

  /** The three lookups of AddCorners note the three positions, in order. */
  lemma CornersNoted(m: Mesh, v1: Vertex, v2: Vertex, v3: Vertex)
    requires Valid(m.grid, m.verts)
    ensures Positions(AddCorners(m, v1, v2, v3).verts)
            == Note(Note(Note(Positions(m.verts), v1.Pos()), v2.Pos()), v3.Pos())
  {
    var r1 := AddVertIfNotAdded(m.grid, m.verts, v1.x, v1.y, v1.z);
    var r2 := AddVertIfNotAdded(r1.grid, r1.verts, v2.x, v2.y, v2.z);
    LookupNotes(m.grid, m.verts, v1);
    LookupNotes(r1.grid, r1.verts, v2);
    LookupNotes(r2.grid, r2.verts, v3);
  }

  /** Growing the vertex list moves no placed triangle. */
  lemma {:induction false} PlacedGrow(verts: seq<Vertex>, verts': seq<Vertex>, tris: seq<Tri>)
    requires Indexed(verts, tris) && verts <= verts'
    ensures Indexed(verts', tris) && PlacedAll(verts', tris) == PlacedAll(verts, tris)
    decreases |tris|
  {
    if tris != [] {
      var t := tris[|tris| - 1];
      assert t in tris;
      assert Indexed(verts, tris[..|tris| - 1]) by {
        forall u | u in tris[..|tris| - 1] ensures u in tris { }
      }
      PlacedGrow(verts, verts', tris[..|tris| - 1]);
      assert verts'[t.a] == verts[t.a] && verts'[t.b] == verts[t.b] && verts'[t.c] == verts[t.c];
    }
  }

  /** Appending a triangle appends its corners to the placed list, and growing the vertex list changes nothing before. */
  lemma PlacedAppend(verts: seq<Vertex>, verts': seq<Vertex>, tris: seq<Tri>, t: Tri)
    requires Indexed(verts, tris) && verts <= verts'
    requires t.a < |verts'| && t.b < |verts'| && t.c < |verts'|
    ensures Indexed(verts', tris + [t])
    ensures PlacedAll(verts', tris + [t]) == PlacedAll(verts, tris) + [Placed(verts', t)]
  {
    PlacedGrow(verts, verts', tris);
    assert (tris + [t])[..|tris|] == tris;
  }

  /** A match fixes the placed triangles. */
  lemma {:induction false} MatchesPlaced(verts: seq<Vertex>, tris: seq<Tri>, ref: seq<Corners>)
    requires Matches(verts, tris, ref)
    ensures Indexed(verts, tris) && PlacedAll(verts, tris) == ref
    decreases |tris|
  {
    forall t | t in tris
      ensures t.a < |verts| && t.b < |verts| && t.c < |verts|
    {
      var i :| 0 <= i < |tris| && tris[i] == t;
    }
    if tris != [] {
      var n := |tris| - 1;
      assert Matches(verts, tris[..n], ref[..n]) by {
        forall i | 0 <= i < n
          ensures tris[..n][i] == tris[i] && ref[..n][i] == ref[i]
        { }
      }
      MatchesPlaced(verts, tris[..n], ref[..n]);
      assert ref == ref[..n] + [ref[n]];
    }
  }

  // ---------------------------------------------------------------------------
  // The builder

  /** The vertex a defined pixel contributes. */
  function VertexOf(p: Pixel): Vertex
    requires p.z.Some?
  {
    Vertex(p.x, p.z.value, p.y)
  }

  /** One of the three given vertices. */
  predicate OneOf(v: Vertex, v1: Vertex, v2: Vertex, v3: Vertex) {
    v == v1 || v == v2 || v == v3
  }

  /**
    Resolve the three vertices through the grid, in order, and record the
    triangle of their indices.
  */
  function AddCorners(m: Mesh, v1: Vertex, v2: Vertex, v3: Vertex): (r: Mesh)
    ensures m.verts <= r.verts
    ensures |r.tris| == |m.tris| + 1 && r.tris[..|m.tris|] == m.tris
    ensures forall i :: |m.verts| <= i < |r.verts| ==> OneOf(r.verts[i], v1, v2, v3)
    ensures forall i :: |m.verts| <= i < |r.verts| ==> Uses(r.tris[|m.tris|], i)
    ensures Valid(m.grid, m.verts) ==> Valid(r.grid, r.verts)
    ensures Valid(m.grid, m.verts) ==>
              Matches(r.verts, [r.tris[|m.tris|]], [Corners(v1.Pos(), v2.Pos(), v3.Pos())])
  {
    var r1 := AddVertIfNotAdded(m.grid, m.verts, v1.x, v1.y, v1.z);
    var r2 := AddVertIfNotAdded(r1.grid, r1.verts, v2.x, v2.y, v2.z);
    var r3 := AddVertIfNotAdded(r2.grid, r2.verts, v3.x, v3.y, v3.z);
    var t := Tri(r1.index, r2.index, r3.index);
    CornersPlaced(m, v1, v2, v3);
    CornersMatched(m, v1, v2, v3);
    NewCornersUsed(m, v1, v2, v3);
    Mesh(r3.grid, r3.verts, m.tris + [t])
  }

  /** The vertices the three lookups append are among the three given ones. */
  lemma CornersPlaced(m: Mesh, v1: Vertex, v2: Vertex, v3: Vertex)
    ensures var r1 := AddVertIfNotAdded(m.grid, m.verts, v1.x, v1.y, v1.z);
            var r2 := AddVertIfNotAdded(r1.grid, r1.verts, v2.x, v2.y, v2.z);
            var r3 := AddVertIfNotAdded(r2.grid, r2.verts, v3.x, v3.y, v3.z);
            && m.verts <= r3.verts
            && (forall i :: |m.verts| <= i < |r3.verts| ==> OneOf(r3.verts[i], v1, v2, v3))
  {
    var r1 := AddVertIfNotAdded(m.grid, m.verts, v1.x, v1.y, v1.z);
    var r2 := AddVertIfNotAdded(r1.grid, r1.verts, v2.x, v2.y, v2.z);
    var r3 := AddVertIfNotAdded(r2.grid, r2.verts, v3.x, v3.y, v3.z);
    AppendsAtMost(m.grid, m.verts, v1);
    AppendsAtMost(r1.grid, r1.verts, v2);
    AppendsAtMost(r2.grid, r2.verts, v3);
    forall i | |m.verts| <= i < |r3.verts|
      ensures OneOf(r3.verts[i], v1, v2, v3)
    {
      if i < |r1.verts| {
        assert r3.verts[i] == r1.verts[|m.verts|];
      } else if i < |r2.verts| {
        assert r3.verts[i] == r2.verts[|r1.verts|];
      }
    }
  }

  /** A lookup appends nothing or just the looked-up vertex, and then answers with its index. */
  lemma AppendsAtMost(grid: Grid, verts: seq<Vertex>, v: Vertex)
    ensures var r := AddVertIfNotAdded(grid, verts, v.x, v.y, v.z);
            && verts <= r.verts && |r.verts| <= |verts| + 1
            && (|verts| < |r.verts| ==> r.verts[|verts|] == v && r.index == |verts|)
  {
  }

  /** Every vertex the three lookups append is a corner of the recorded triangle. */
  lemma NewCornersUsed(m: Mesh, v1: Vertex, v2: Vertex, v3: Vertex)
    ensures var r1 := AddVertIfNotAdded(m.grid, m.verts, v1.x, v1.y, v1.z);
            var r2 := AddVertIfNotAdded(r1.grid, r1.verts, v2.x, v2.y, v2.z);
            var r3 := AddVertIfNotAdded(r2.grid, r2.verts, v3.x, v3.y, v3.z);
            forall i :: |m.verts| <= i < |r3.verts| ==> Uses(Tri(r1.index, r2.index, r3.index), i)
  {
    var r1 := AddVertIfNotAdded(m.grid, m.verts, v1.x, v1.y, v1.z);
    var r2 := AddVertIfNotAdded(r1.grid, r1.verts, v2.x, v2.y, v2.z);
    var r3 := AddVertIfNotAdded(r2.grid, r2.verts, v3.x, v3.y, v3.z);
    AppendsAtMost(m.grid, m.verts, v1);
    AppendsAtMost(r1.grid, r1.verts, v2);
    AppendsAtMost(r2.grid, r2.verts, v3);
  }

  /** On a valid grid, the three looked-up indices name vertices at the three corner positions. */
  lemma CornersMatched(m: Mesh, v1: Vertex, v2: Vertex, v3: Vertex)
    ensures var r1 := AddVertIfNotAdded(m.grid, m.verts, v1.x, v1.y, v1.z);
            var r2 := AddVertIfNotAdded(r1.grid, r1.verts, v2.x, v2.y, v2.z);
            var r3 := AddVertIfNotAdded(r2.grid, r2.verts, v3.x, v3.y, v3.z);
            Valid(m.grid, m.verts) ==>
              && Valid(r3.grid, r3.verts)
              && Matches(r3.verts, [Tri(r1.index, r2.index, r3.index)], [Corners(v1.Pos(), v2.Pos(), v3.Pos())])
  {
    var r1 := AddVertIfNotAdded(m.grid, m.verts, v1.x, v1.y, v1.z);
    var r2 := AddVertIfNotAdded(r1.grid, r1.verts, v2.x, v2.y, v2.z);
    var r3 := AddVertIfNotAdded(r2.grid, r2.verts, v3.x, v3.y, v3.z);
    if Valid(m.grid, m.verts) {
      assert r3.verts[r1.index] == r1.verts[r1.index];
      assert r3.verts[r2.index] == r2.verts[r2.index];
    }
  }

  /**
    Emit the triangle (p1, p2, p3) when all three elevations are defined,
    adding each pixel's vertex unless its position already has one; otherwise
    change nothing.
  */
  function CreateTri(m: Mesh, p1: Pixel, p2: Pixel, p3: Pixel): (r: Emitted)
    ensures r.created <==> p1.z.Some? && p2.z.Some? && p3.z.Some?
    ensures !r.created ==> r.mesh == m
    ensures m.verts <= r.mesh.verts
    ensures r.created ==> |r.mesh.tris| == |m.tris| + 1 && r.mesh.tris[..|m.tris|] == m.tris
    ensures r.created ==> forall i :: |m.verts| <= i < |r.mesh.verts| ==>
              OneOf(r.mesh.verts[i], VertexOf(p1), VertexOf(p2), VertexOf(p3))
    ensures r.created ==> forall i :: |m.verts| <= i < |r.mesh.verts| ==> Uses(r.mesh.tris[|m.tris|], i)
    ensures Valid(m.grid, m.verts) ==> Valid(r.mesh.grid, r.mesh.verts)
    ensures Valid(m.grid, m.verts) && r.created ==>
              Matches(r.mesh.verts, [r.mesh.tris[|m.tris|]], [Corners(PosOf(p1), PosOf(p2), PosOf(p3))])
  {
    if p1.z.Some? && p2.z.Some? && p3.z.Some? then
      Emitted(true, AddCorners(m, VertexOf(p1), VertexOf(p2), VertexOf(p3)))
    else
      Emitted(false, m)
  }

  /** CreateTri on sampled pixels with distinct positions keeps the builder invariant. */
  lemma CreateTriSound(f: Field, m: Mesh, p1: Pixel, p2: Pixel, p3: Pixel)
    requires WellFormed(f) && Sound(f, m)
    requires p1 == Sample(f, p1.x, p1.y) && p2 == Sample(f, p2.x, p2.y) && p3 == Sample(f, p3.x, p3.y)
    requires PosOf(p1) != PosOf(p2) && PosOf(p2) != PosOf(p3) && PosOf(p1) != PosOf(p3)
    ensures Sound(f, CreateTri(m, p1, p2, p3).mesh)
  {
    var r := CreateTri(m, p1, p2, p3);
    if r.created {
      DepthsKept(f, m.verts, r.mesh.verts, VertexOf(p1), VertexOf(p2), VertexOf(p3));
      var t := r.mesh.tris[|m.tris|];
      assert r.mesh.tris == m.tris + [t];
      assert Placed(r.mesh.verts, t) == Corners(PosOf(p1), PosOf(p2), PosOf(p3));
      TrisKept(m.tris, t, |m.verts|, |r.mesh.verts|);
      UsedKept(m.verts, m.tris, r.mesh.verts, t);
      OrderKept(m, VertexOf(p1), VertexOf(p2), VertexOf(p3));
    }
  }

  /** AddCorners on a sound mesh keeps the vertices in first-use order. */
  lemma OrderKept(m: Mesh, v1: Vertex, v2: Vertex, v3: Vertex)
    requires Valid(m.grid, m.verts) && Indexed(m.verts, m.tris) && InFirstUseOrder(m.verts, m.tris)
    ensures var r := AddCorners(m, v1, v2, v3);
            Indexed(r.verts, r.tris) && InFirstUseOrder(r.verts, r.tris)
  {
    var r := AddCorners(m, v1, v2, v3);
    NumberedByPositions(m.verts, FirstUse(CornerList(PlacedAll(m.verts, m.tris))));
    var t := r.tris[|m.tris|];
    assert r.tris == m.tris + [t];
    var c := Corners(v1.Pos(), v2.Pos(), v3.Pos());
    assert Placed(r.verts, t) == c;
    PlacedAppend(m.verts, r.verts, m.tris, t);
    var placed := PlacedAll(m.verts, m.tris);
    assert CornerList(placed + [c]) == CornerList(placed) + [c.p, c.q, c.r] by {
      assert (placed + [c])[..|placed|] == placed;
    }
    FirstUseThree(CornerList(placed), c.p, c.q, c.r);
    CornersNoted(m, v1, v2, v3);
    NumberedByPositions(r.verts, FirstUse(CornerList(PlacedAll(r.verts, r.tris))));
  }

  /** Appending a triangle that uses every appended vertex keeps every vertex used. */
  lemma UsedKept(verts: seq<Vertex>, tris: seq<Tri>, verts': seq<Vertex>, t: Tri)
    requires AllUsed(verts, tris) && |verts| <= |verts'|
    requires forall i :: |verts| <= i < |verts'| ==> Uses(t, i)
    ensures AllUsed(verts', tris + [t])
  {
    forall i | 0 <= i < |verts'|
      ensures Used(tris + [t], i)
    {
      if i < |verts| {
        assert Used(tris, i);
        var u :| u in tris && Uses(u, i);
        assert u in tris + [t];
      } else {
        assert t in tris + [t];
      }
    }
  }

  /** CreateTri on sampled pixels emits exactly the reference triangle of their positions. */
  lemma CreateTriMatches(f: Field, m: Mesh, p1: Pixel, p2: Pixel, p3: Pixel)
    requires WellFormed(f) && Valid(m.grid, m.verts)
    requires p1 == Sample(f, p1.x, p1.y) && p2 == Sample(f, p2.x, p2.y) && p3 == Sample(f, p3.x, p3.y)
    ensures Matches(CreateTri(m, p1, p2, p3).mesh.verts, CreateTri(m, p1, p2, p3).mesh.tris[|m.tris|..],
                    Keep(Mask(f), PosOf(p1), PosOf(p2), PosOf(p3)))
  {
    var r := CreateTri(m, p1, p2, p3);
    if r.created {
      assert r.mesh.tris[|m.tris|..] == [r.mesh.tris[|m.tris|]];
    } else {
      assert r.mesh.tris[|m.tris|..] == [];
    }
  }

  /** Appending vertices that carry their pixels' elevations keeps every vertex doing so. */
  lemma DepthsKept(f: Field, verts: seq<Vertex>, verts': seq<Vertex>, v1: Vertex, v2: Vertex, v3: Vertex)
    requires WellFormed(f)
    requires forall i :: 0 <= i < |verts| ==> PixelDepthAt(f, verts[i].x, verts[i].y) == Some(verts[i].z)
    requires verts <= verts'
    requires forall i :: |verts| <= i < |verts'| ==> OneOf(verts'[i], v1, v2, v3)
    requires PixelDepthAt(f, v1.x, v1.y) == Some(v1.z) && PixelDepthAt(f, v2.x, v2.y) == Some(v2.z)
    requires PixelDepthAt(f, v3.x, v3.y) == Some(v3.z)
    ensures forall i :: 0 <= i < |verts'| ==> PixelDepthAt(f, verts'[i].x, verts'[i].y) == Some(verts'[i].z)
  {
    forall i | 0 <= i < |verts'|
      ensures PixelDepthAt(f, verts'[i].x, verts'[i].y) == Some(verts'[i].z)
    {
      if i < |verts| {
        assert verts'[i] == verts[i];
      }
    }
  }

  /** Appending a triangle of three distinct indices below n keeps every triangle so. */
  lemma TrisKept(tris: seq<Tri>, t: Tri, n: nat, n': nat)
    requires forall u :: u in tris ==> u.a < n && u.b < n && u.c < n && u.a != u.b && u.b != u.c && u.a != u.c
    requires n <= n' && t.a < n' && t.b < n' && t.c < n' && t.a != t.b && t.b != t.c && t.a != t.c
    ensures forall u :: u in tris + [t] ==> u.a < n' && u.b < n' && u.c < n' && u.a != u.b && u.b != u.c && u.a != u.c
  {
    forall u | u in tris + [t]
      ensures u.a < n' && u.b < n' && u.c < n' && u.a != u.b && u.b != u.c && u.a != u.c
    {
      if u != t {
        assert u in tris;
      }
    }
  }

  /**
    One CreateTri call on the pixels at p, q and r: the triangles emitted since
    index `base` keep matching the reference list, extended by this triangle
    when it exists.
  */
  method Attempt(f: Field, m: Mesh, ghost base: nat, ghost ref: seq<Corners>, p: Point, q: Point, r: Point)
    returns (created: bool, m': Mesh)
    requires WellFormed(f) && Sound(f, m)
    requires base <= |m.tris| && Matches(m.verts, m.tris[base..], ref)
    requires p != q && q != r && p != r
    ensures created <==> Foreground(f, p) && Foreground(f, q) && Foreground(f, r)
    ensures Sound(f, m') && m.verts <= m'.verts && m.tris <= m'.tris
    ensures Matches(m'.verts, m'.tris[base..], ref + Keep(Mask(f), p, q, r))
  {
    var p1, p2, p3 := Sample(f, p.x, p.y), Sample(f, q.x, q.y), Sample(f, r.x, r.y);
    CreateTriSound(f, m, p1, p2, p3);
    CreateTriMatches(f, m, p1, p2, p3);
    var e := CreateTri(m, p1, p2, p3);
    created, m' := e.created, e.mesh;
    if created {
      assert m'.tris[..|m.tris|] == m.tris;
    }
    ExtendFrom(m, m', base, ref, Keep(Mask(f), p, q, r));
  }

  /** Run the fixed triangle rule on the cell at (x, y). */
  method ProcessCell(f: Field, m: Mesh, x: int, y: int) returns (m': Mesh)
    requires WellFormed(f) && Sound(f, m)
    ensures Sound(f, m')
    ensures m.verts <= m'.verts && m.tris <= m'.tris
    ensures Matches(m'.verts, m'.tris[|m.tris|..], CellTris(Mask(f), x, y))
  {
    m' := ProcessQuad(f, m, x, y);
    var bottomLeftTri;
    bottomLeftTri, m' := Attempt(f, m', |m.tris|, QuadTris(Mask(f), x, y), Point(x, y), Point(x - 1, y - 1), Point(x, y - 1));
  }

  /** The top-left triangle, or when it is missing the two on the other diagonal. */
  method ProcessQuad(f: Field, m: Mesh, x: int, y: int) returns (m': Mesh)
    requires WellFormed(f) && Sound(f, m)
    ensures Sound(f, m')
    ensures m.verts <= m'.verts && m.tris <= m'.tris
    ensures Matches(m'.verts, m'.tris[|m.tris|..], QuadTris(Mask(f), x, y))
  {
    var current, bottom, right, bottomRight := Point(x, y), Point(x, y - 1), Point(x + 1, y), Point(x + 1, y - 1);
    ghost var base := |m.tris|;
    assert m.tris[base..] == [];
    var topLeft;
    topLeft, m' := Attempt(f, m, base, [], current, bottom, right);
    if !topLeft {
      m' := OtherDiagonal(f, m', base, x, y);
    }
  }

  /** The two triangles of the quad's other diagonal, when the top-left one is missing. */
  method OtherDiagonal(f: Field, m: Mesh, ghost base: nat, x: int, y: int) returns (m': Mesh)
    requires WellFormed(f) && Sound(f, m) && base <= |m.tris|
    requires !(Foreground(f, Point(x, y)) && Foreground(f, Point(x, y - 1)) && Foreground(f, Point(x + 1, y)))
    requires Matches(m.verts, m.tris[base..], [])
    ensures Sound(f, m')
    ensures m.verts <= m'.verts && m.tris <= m'.tris
    ensures Matches(m'.verts, m'.tris[base..], QuadTris(Mask(f), x, y))
  {
    var current, bottom, right, bottomRight := Point(x, y), Point(x, y - 1), Point(x + 1, y), Point(x + 1, y - 1);
    var bottomLeftTri, topRightTri;
    bottomLeftTri, m' := Attempt(f, m, base, [], current, bottom, bottomRight);
    ghost var ref := Keep(Mask(f), current, bottom, bottomRight);
    topRightTri, m' := Attempt(f, m', base, ref, current, bottomRight, right);
  }

  /**
    Build the depth mesh: vertices at distinct positions, each a foreground
    pixel carrying its elevation, and triangles of three distinct valid
    indices that sit exactly on the reference triangulation.
  */
  method CreateDepthMesh(f: Field) returns (verts: seq<Vertex>, tris: seq<Tri>)
    requires WellFormed(f)
    ensures DistinctPositions(verts)
    ensures forall i :: 0 <= i < |verts| ==> PixelDepthAt(f, verts[i].x, verts[i].y) == Some(verts[i].z)
    ensures forall t :: t in tris ==>
              && t.a < |verts| && t.b < |verts| && t.c < |verts|
              && t.a != t.b && t.b != t.c && t.a != t.c
    ensures Matches(verts, tris, MeshTris(f))
    ensures ChannelsInUnit(f) && f.maxDepth >= 0.0 ==>
              forall i :: 0 <= i < |verts| ==> -f.maxDepth <= verts[i].z <= 0.0
    ensures forall i :: 0 <= i < |verts| ==> Used(tris, i)
    ensures NumberedBy(verts, FirstUse(CornerList(MeshTris(f))))
  {
    var m := BuildRows(f, Mesh(map[], [], []), f.height);
    verts, tris := m.verts, m.tris;
    ValidConsequences(m.grid, verts);
    MatchesPlaced(verts, tris, MeshTris(f));
    ElevationsWithinDepth(f, verts);
  }

  /** Process rows y, y - 1, ..., 0, after the rows above y are done. */
  method BuildRows(f: Field, m: Mesh, y: int) returns (m': Mesh)
    requires WellFormed(f) && Sound(f, m) && -1 <= y <= f.height
    requires Matches(m.verts, m.tris, RowsFrom(Mask(f), f.width, f.height, y + 1))
    ensures Sound(f, m')
    ensures Matches(m'.verts, m'.tris, RowsFrom(Mask(f), f.width, f.height, 0))
    decreases y + 1
  {
    if y < 0 {
      assert y + 1 == 0;
      m' := m;
    } else {
      m' := ProcessRow(f, m, y);
      m' := BuildRows(f, m', y - 1);
    }
  }

  /** Vertices that carry their pixels' elevations lie within [-maxDepth, 0]. */
  lemma ElevationsWithinDepth(f: Field, verts: seq<Vertex>)
    requires WellFormed(f)
    requires forall i :: 0 <= i < |verts| ==> PixelDepthAt(f, verts[i].x, verts[i].y) == Some(verts[i].z)
    ensures ChannelsInUnit(f) && f.maxDepth >= 0.0 ==>
              forall i :: 0 <= i < |verts| ==> -f.maxDepth <= verts[i].z <= 0.0
  {
    if ChannelsInUnit(f) && f.maxDepth >= 0.0 {
      forall i | 0 <= i < |verts|
        ensures -f.maxDepth <= verts[i].z <= 0.0
      {
        assert PixelDepthAt(f, verts[i].x, verts[i].y) == Some(verts[i].z);
      }
    }
  }

  /** Run the cell rule on every column of row y, left to right. */
  method ProcessRow(f: Field, m: Mesh, y: int) returns (m': Mesh)
    requires WellFormed(f) && Sound(f, m)
    requires y <= f.height && Matches(m.verts, m.tris, RowsFrom(Mask(f), f.width, f.height, y + 1))
    ensures Sound(f, m')
    ensures Matches(m'.verts, m'.tris, RowsFrom(Mask(f), f.width, f.height, y))
  {
    ghost var done := RowsFrom(Mask(f), f.width, f.height, y + 1);
    assert done + RowTris(Mask(f), y, 0) == done;
    m' := ProcessColumns(f, m, done, 0, y);
  }

  /** Run the cell rule on columns x, x + 1, ..., width - 1 of row y. */
  method ProcessColumns(f: Field, m: Mesh, ghost done: seq<Corners>, x: int, y: int) returns (m': Mesh)
    requires WellFormed(f) && Sound(f, m) && 0 <= x <= f.width
    requires Matches(m.verts, m.tris, done + RowTris(Mask(f), y, x))
    ensures Sound(f, m')
    ensures Matches(m'.verts, m'.tris, done + RowTris(Mask(f), y, f.width))
    decreases f.width - x
  {
    m' := m;
    if x < f.width {
      m' := ProcessColumn(f, m', done, x, y);
      m' := ProcessColumns(f, m', done, x + 1, y);
    }
  }

  /** The cell at column x extends the row's match by one more cell. */
  method ProcessColumn(f: Field, m: Mesh, ghost done: seq<Corners>, x: int, y: int) returns (m': Mesh)
    requires WellFormed(f) && Sound(f, m) && x >= 0
    requires Matches(m.verts, m.tris, done + RowTris(Mask(f), y, x))
    ensures Sound(f, m')
    ensures Matches(m'.verts, m'.tris, done + RowTris(Mask(f), y, x + 1))
  {
    m' := ProcessCell(f, m, x, y);
    ExtendMatches(m, m', done + RowTris(Mask(f), y, x), CellTris(Mask(f), x, y));
    RowStep(Mask(f), done, y, x);
  }

  lemma RowStep(fg: iset<Point>, done: seq<Corners>, y: int, x: int)
    requires x >= 0
    ensures done + RowTris(fg, y, x + 1) == done + RowTris(fg, y, x) + CellTris(fg, x, y)
  {
    assert RowTris(fg, y, x + 1) == RowTris(fg, y, x) + CellTris(fg, x, y);
  }

  /**
    A 2 x 2 image with white, black / black, white pixels under BlackToWhite
    has only two foreground pixels, so no cell can emit a triangle.
  */
  lemma CheckerboardHasNoTriangles(maxDepth: real)
    ensures var white, black := Rgba(1.0, 1.0, 1.0, 1.0), Rgba(0.0, 0.0, 0.0, 1.0);
            MeshTris(Field(BlackToWhite, maxDepth, 2, 2, [white, black, black, white])) == []
  {
    var white, black := Rgba(1.0, 1.0, 1.0, 1.0), Rgba(0.0, 0.0, 0.0, 1.0);
    var f := Field(BlackToWhite, maxDepth, 2, 2, [white, black, black, white]);
    forall p | Foreground(f, p)
      ensures p == Point(1, 0) || p == Point(0, 1)
    {
      assert 0 <= p.x < 2 && 0 <= p.y < 2;
    }
    RowsGated(Mask(f), f.width, f.height, 0);
    AllGatedMembers(Mask(f), MeshTris(f));
    EmptyWithoutMembers(MeshTris(f));
  }

  /** A solid black 2 x 2 image; under BlackToWhite every one of its pixels is foreground. */
  function SolidBlock(maxDepth: real): Field {
    var black := Rgba(0.0, 0.0, 0.0, 1.0);
    Field(BlackToWhite, maxDepth, 2, 2, [black, black, black, black])
  }

  /**
    On the solid 2 x 2 block the cell at (0, 1) emits its top-left triangle and
    the cell at (1, 1) its bottom-left one; every other cell has a corner
    outside the image.
  */
  lemma SolidBlockTris(maxDepth: real)
    ensures MeshTris(SolidBlock(maxDepth))
            == [Corners(Point(0, 1), Point(0, 0), Point(1, 1)), Corners(Point(1, 1), Point(0, 0), Point(1, 0))]
  {
    var f := SolidBlock(maxDepth);
    var fg := Mask(f);
    forall p
      ensures p in fg <==> 0 <= p.x < 2 && 0 <= p.y < 2
    {
      if 0 <= p.x < 2 && 0 <= p.y < 2 {
        assert f.pixels[Slot(f, p.x, p.y)] == f.pixels[0];
      }
    }
    var t1 := Corners(Point(0, 1), Point(0, 0), Point(1, 1));
    var t2 := Corners(Point(1, 1), Point(0, 0), Point(1, 0));
    assert RowTris(fg, 2, 2) == [];
    assert RowTris(fg, 1, 2) == [t1, t2] by {
      assert CellTris(fg, 0, 1) == [t1];
      assert CellTris(fg, 1, 1) == [t2];
    }
    assert RowTris(fg, 0, 2) == [];
  }

  /**
    The vertices of the solid 2 x 2 block are numbered by first use:
    (0, 1), (0, 0), (1, 1), (1, 0).
  */
  lemma SolidBlockOrder(maxDepth: real)
    ensures FirstUse(CornerList(MeshTris(SolidBlock(maxDepth)))) == [Point(0, 1), Point(0, 0), Point(1, 1), Point(1, 0)]
  {
    SolidBlockTris(maxDepth);
    SharedCorners(Point(0, 1), Point(0, 0), Point(1, 1), Point(1, 0));
  }

  /**
    Two triangles (a, b, c) and (c, b, d) with a, b, c, d distinct: the shared
    corners keep their first numbers and only d is new.
  */
  lemma SharedCorners(a: Point, b: Point, c: Point, d: Point)
    requires a != b && a != c && a != d && b != c && b != d && c != d
    ensures FirstUse(CornerList([Corners(a, b, c), Corners(c, b, d)])) == [a, b, c, d]
  {
    CornerListPair(Corners(a, b, c), Corners(c, b, d));
    FirstThree(a, b, c);
    FirstUseThree([a, b, c], c, b, d);
    assert c in [a, b, c] && b in [a, b, c] && d !in [a, b, c];
  }

  /** Three distinct positions are numbered in the order given. */
  lemma FirstThree(a: Point, b: Point, c: Point)
    requires a != b && a != c && b != c
    ensures FirstUse([a, b, c]) == [a, b, c]
  {
    FirstUseThree([], a, b, c);
    assert [] + [a, b, c] == [a, b, c];
    assert Note([], a) == [a];
    assert b !in [a] && c !in [a, b];
  }

  lemma CornerListPair(t1: Corners, t2: Corners)
    ensures CornerList([t1, t2]) == [t1.p, t1.q, t1.r] + [t2.p, t2.q, t2.r]
  {
    assert [t1][..0] == [] && [] + [t1.p, t1.q, t1.r] == [t1.p, t1.q, t1.r];
    assert CornerList([t1]) == [t1.p, t1.q, t1.r];
    assert [t1, t2][..1] == [t1];
  }

  lemma EmptyWithoutMembers<T>(s: seq<T>)
    ensures (forall t :: t !in s) ==> s == []
  {
    if s != [] {
      assert s[0] in s;
    }
  }
}
