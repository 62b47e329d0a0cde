/**
  The de-duplicating vertex store shared by both mesh builders: a map from a
  pixel's lattice position to the index of the vertex emitted for it, where
  the order of insertion assigns the indices.
*/
module VertexGrid {
  import opened PixelField

  /** An output vertex in the order mesh_shape.py stores it: (X, elevation, Y). */
  datatype Vertex = Vertex(x: int, z: real, y: int) {
    function Pos(): Point {
      Point(x, y)
    }
  }

  /** Lattice position to vertex index. */
  type Grid = map<Point, nat>

  /**
    The grid and the vertex list describe each other: every stored index names
    a vertex at the key's position, and every vertex is stored under its own
    position with its own index.
  */
  ghost predicate Valid(grid: Grid, verts: seq<Vertex>) {
    && (forall p :: p in grid ==> grid[p] < |verts| && verts[grid[p]].Pos() == p)
    && (forall i :: 0 <= i < |verts| ==> verts[i].Pos() in grid && grid[verts[i].Pos()] == i)
  }

  /** No two vertices share a lattice position. */
  ghost predicate DistinctPositions(verts: seq<Vertex>) {
    forall i, j :: 0 <= i < j < |verts| ==> verts[i].Pos() != verts[j].Pos()
  }

  ghost predicate Injective(grid: Grid) {
    forall p, q :: p in grid && q in grid && p != q ==> grid[p] != grid[q]
  }

  /** A valid grid is injective and its vertices sit at distinct positions. */
  lemma ValidConsequences(grid: Grid, verts: seq<Vertex>)
    requires Valid(grid, verts)
    ensures Injective(grid)
    ensures DistinctPositions(verts)
  {
    forall p, q | p in grid && q in grid && p != q
      ensures grid[p] != grid[q]
    {
      assert verts[grid[p]].Pos() == p && verts[grid[q]].Pos() == q;
    }
    forall i, j | 0 <= i < j < |verts|
      ensures verts[i].Pos() != verts[j].Pos()
    {
      assert grid[verts[i].Pos()] == i && grid[verts[j].Pos()] == j;
    }
  }

  /** What one call of AddVertIfNotAdded leaves behind. */
  datatype Added = Added(index: nat, grid: Grid, verts: seq<Vertex>)

  /**
    Look up the vertex at (x, y); append Vertex(x, z, y) under a fresh index when
    the position is new. A known position keeps its first elevation.
  */
  function AddVertIfNotAdded(grid: Grid, verts: seq<Vertex>, x: int, y: int, z: real): (r: Added)
    ensures Point(x, y) in grid ==> r.index == grid[Point(x, y)] && r.grid == grid && r.verts == verts
    ensures Point(x, y) !in grid ==>
              && r.index == |verts|
              && r.verts == verts + [Vertex(x, z, y)]
              && r.grid == grid[Point(x, y) := |verts|]
    ensures Valid(grid, verts) ==>
              && Valid(r.grid, r.verts)
              && r.index < |r.verts|
              && r.verts[r.index].Pos() == Point(x, y)
  {
    var key := Point(x, y);
    if key !in grid then
      var verts' := verts + [Vertex(x, z, y)];
      var grid' := grid[key := |verts|];
      assert Valid(grid, verts) ==> Valid(grid', verts') by {
        if Valid(grid, verts) {
          forall i | 0 <= i < |verts'|
            ensures verts'[i].Pos() in grid' && grid'[verts'[i].Pos()] == i
          {
            if i < |verts| {
              assert verts'[i] == verts[i];
              assert verts[i].Pos() != key;
            }
          }
        }
      }
      Added(|verts|, grid', verts')
    else
      Added(grid[key], grid, verts)
  }
}
