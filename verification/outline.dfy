/**
  The outline mesh: find the first foreground pixel scanning rows from the top
  row (y = height - 1) downward and left to right, then follow the boundary
  with the clockwise 8-neighbour search, adding a vertex for each newly seen
  pixel and chaining the edges [0, 1], [1, 2], ..., closed by [n, 0].
*/
module Outline {
  import opened Options
  import opened PixelField
  import opened VertexGrid
  import opened Clockwise

  /** An edge as a pair of vertex indices. */
  datatype Edge = Edge(a: nat, b: nat)

  /** The vertices and edges an outline build hands to the host. */
  datatype OutlineMesh = OutlineMesh(verts: seq<Vertex>, edges: seq<Edge>)

  /** q comes before p in the start scan: a higher row, or the same row further left. */
  predicate ScanBefore(q: Point, p: Point) {
    q.y > p.y || (q.y == p.y && q.x < p.x)
  }

  /** p is the first foreground pixel of the start scan. */
  ghost predicate IsStart(f: Field, p: Point)
    requires WellFormed(f)
  {
    Foreground(f, p) && forall q :: ScanBefore(q, p) ==> !Foreground(f, q)
  }

  /** No neighbour of p is a foreground pixel. */
  ghost predicate Isolated(f: Field, p: Point)
    requires WellFormed(f)
  {
    forall k :: 0 <= k < 8 ==> !Hit(f, p.x, p.y, Compass(k))
  }

  /** The edges [0, 1], [1, 2], ..., [k - 1, k]. */
  ghost predicate Chain(edges: seq<Edge>, k: nat) {
    |edges| == k && forall i :: 0 <= i < k ==> edges[i] == Edge(i, i + 1)
  }

  /** The edges [0, 1], ..., [n - 1, n] followed by the closing edge [n, 0], n = |edges| - 1. */
  ghost predicate ClosedChain(edges: seq<Edge>) {
    && |edges| >= 1
    && (forall i :: 0 <= i < |edges| - 1 ==> edges[i] == Edge(i, i + 1))
    && edges[|edges| - 1] == Edge(|edges| - 1, 0)
  }

  /** The start scan has at most one answer. */
  lemma StartUnique(f: Field, p: Point, q: Point)
    requires WellFormed(f) && IsStart(f, p) && IsStart(f, q)
    ensures p == q
  {
  }

  /**
    Scan for the start pixel. Returns the first foreground pixel in scan order,
    or (0, -1) when the image has no foreground pixel at all.
  */
  method FindStart(f: Field) returns (sx: int, sy: int)
    requires WellFormed(f) && f.width > 0 && f.height > 0
    ensures IsStart(f, Point(sx, sy)) || (sx == 0 && sy == -1 && forall q :: !Foreground(f, q))
  {
    sx, sy := 0, f.height - 1;
    while sy >= 0 && ContainsPosition(f, sx, sy) == -1
      invariant 0 <= sx < f.width && -1 <= sy < f.height
      invariant sy == -1 ==> sx == 0
      invariant forall q :: ScanBefore(q, Point(sx, sy)) ==> !Foreground(f, q)
      decreases sy + 1, f.width - sx
    {
      sx := sx + 1;
      if sx == f.width {
        sx := 0;
        sy := sy - 1;
      }
    }
  }

  /**
    The tracer's state: the vertex grid and lists built so far, the edge index
    counter, the current pixel (x, y), the step `back` from it to the previous
    pixel, the previous pixel (px, py) and the number of steps taken.
  */
  datatype Tracer = Tracer(grid: Grid, verts: seq<Vertex>, edges: seq<Edge>, edgeIndex: nat,
                           x: int, y: int, back: Step, px: int, py: int, count: nat)

  /** What the tracing loop keeps true. */
  ghost predicate Tracing(f: Field, t: Tracer, start: Point)
    requires WellFormed(f)
  {
    && IsStart(f, start)
    && Unit(t.back) && Foreground(f, Point(t.x, t.y))
    && t.px == t.x + t.back.dx && t.py == t.y + t.back.dy && Foreground(f, Point(t.px, t.py))
    && Valid(t.grid, t.verts)
    && (forall i :: 0 <= i < |t.verts| ==> t.verts[i].z == 0.0 && Foreground(f, t.verts[i].Pos()))
    && Chain(t.edges, t.edgeIndex)
    && |t.verts| <= t.edgeIndex <= t.count
    && (t.count == 0 ==> Point(t.x, t.y) != start && Point(t.px, t.py) == start)
    && (t.count > 0 ==> |t.verts| > 0 && t.verts[0].Pos() == start)
  }

  /**
    The reference for one pass of the tracing loop: record the previous pixel
    (a new edge when the lookup answers with the last vertex index), then move
    to the first foreground neighbour clockwise after the way back, and make
    the current pixel the previous one.
  */
  ghost function Advance(f: Field, t: Tracer): Tracer
    requires WellFormed(f)
  {
    var d := NextClockwiseDir(t.back);
    var m := MoveTo(t.x, t.y, Rotate(d, FirstHitFrom(f, t.x, t.y, d, 0)));
    Record(t).(x := m.x, y := m.y, back := m.back, px := t.x, py := t.y, count := t.count + 1)
  }

  /**
    The reference for recording the previous pixel: look its vertex up, adding
    it when its position has none, and extend the edge chain when the lookup
    answers with the last vertex index.
  */
  ghost function Record(t: Tracer): Tracer {
    var a := AddVertIfNotAdded(t.grid, t.verts, t.px, t.py, 0.0);
    if a.index == |a.verts| - 1 then
      t.(grid := a.grid, verts := a.verts,
         edges := t.edges + [Edge(t.edgeIndex, t.edgeIndex + 1)], edgeIndex := t.edgeIndex + 1)
    else
      t.(grid := a.grid, verts := a.verts)
  }

  /**
    The reference for the tracing loop: advance until the tracer stands on the
    start pixel again or has taken as many steps as the image has pixels.
  */
  ghost function Run(f: Field, t: Tracer, start: Point): Tracer
    requires WellFormed(f)
    decreases |f.pixels| - t.count
  {
    if Point(t.x, t.y) == start || t.count >= |f.pixels| then t else Run(f, Advance(f, t), start)
  }

  /**
    The reference for the tracer's first state: at the first foreground
    neighbour of s clockwise from up, with s as the previous pixel.
  */
  ghost function StartTracer(f: Field, s: Point): Tracer
    requires WellFormed(f)
  {
    var up := Step(0, 1);
    var m := MoveTo(s.x, s.y, Rotate(up, FirstHitFrom(f, s.x, s.y, up, 0)));
    Tracer(map[], [], [], 0, m.x, m.y, m.back, s.x, s.y, 0)
  }

  /**
    One pass of the tracing loop: record the previous pixel (an edge is added
    when the lookup answers with the last vertex index), turn one step
    clockwise from the way back and move to the first foreground neighbour,
    which always exists because the previous pixel is one. The pixel left
    becomes the previous pixel.
  */
  method TraceStep(f: Field, t: Tracer, ghost start: Point) returns (t': Tracer, ghost k: nat)
    requires WellFormed(f) && Tracing(f, t, start)
    ensures Tracing(f, t', start) && t'.count == t.count + 1
    ensures t'.px == t.x && t'.py == t.y
    ensures k < 8 && FirstHit(f, t.x, t.y, NextClockwiseDir(t.back), k)
    ensures Move(t'.x, t'.y, t'.back) == MoveTo(t.x, t.y, Rotate(NextClockwiseDir(t.back), k))
    ensures t' == Advance(f, t)
  {
    var r := RecordPrevious(f, t, start);
    var d := NextClockwiseDir(t.back);
    SearchReachesBack(f, t.x, t.y, t.back);
    var next;
    next, k := NextClockwisePixel(f, t.x, t.y, d);
    RotateKeepsUnit(d, k);
    MoveLeadsBack(f, t.x, t.y, Rotate(d, k));
    FirstHitIsFirstHitFrom(f, t.x, t.y, d, k);
    t' := r.(x := next.value.x, y := next.value.y, back := next.value.back, px := t.x, py := t.y, count := t.count + 1);
  }

  /**
    Add the previous pixel's vertex unless its position has one, and extend
    the edge chain when the lookup answers with the last vertex index.
  */
  method RecordPrevious(f: Field, t: Tracer, ghost start: Point) returns (r: Tracer)
    requires WellFormed(f) && Tracing(f, t, start)
    ensures r == Record(t)
    ensures Valid(r.grid, r.verts)
    ensures forall i :: 0 <= i < |r.verts| ==> r.verts[i].z == 0.0 && Foreground(f, r.verts[i].Pos())
    ensures Chain(r.edges, r.edgeIndex) && |r.verts| <= r.edgeIndex <= t.count + 1
    ensures |r.verts| > 0 && r.verts[0].Pos() == start
  {
    var added := AddVertIfNotAdded(t.grid, t.verts, t.px, t.py, 0.0);
    r := t.(grid := added.grid, verts := added.verts);
    var addedNewVert := added.index == |added.verts| - 1;
    if addedNewVert {
      r := r.(edges := r.edges + [Edge(r.edgeIndex, r.edgeIndex + 1)], edgeIndex := r.edgeIndex + 1);
    }
    assert |t.verts| == 0 ==> r.verts == [Vertex(t.px, 0.0, t.py)];
  }

  /**
    Looking up the most recently added vertex's position again answers with the
    last index and appends nothing, so the tracer counts it as a new vertex and
    extends the edge chain.
  */
  lemma RevisitOfLastLooksNew(grid: Grid, verts: seq<Vertex>, x: int, y: int)
    requires Valid(grid, verts) && |verts| > 0 && verts[|verts| - 1].Pos() == Point(x, y)
    ensures var a := AddVertIfNotAdded(grid, verts, x, y, 0.0);
            a.verts == verts && a.index == |a.verts| - 1
  {
    assert grid[verts[|verts| - 1].Pos()] == |verts| - 1;
  }

  /**
    Trace the outline. The result is None, the source's failure when it unpacks
    a missing neighbour, exactly when the image has no foreground pixel or the
    start pixel has no foreground neighbour.
  */
  method CreateOutlineMesh(f: Field) returns (r: Option<OutlineMesh>)
    requires WellFormed(f) && f.width > 0 && f.height > 0
    ensures r.None? <==> forall s :: IsStart(f, s) ==> Isolated(f, s)
    ensures r.Some? ==>
              && ClosedChain(r.value.edges)
              && |r.value.edges| - 1 <= |f.pixels|
              && 2 <= |r.value.verts| <= |r.value.edges|
    ensures r.Some? ==>
              && IsStart(f, r.value.verts[0].Pos())
              && (forall i :: 0 <= i < |r.value.verts| ==>
                    r.value.verts[i].z == 0.0 && Foreground(f, r.value.verts[i].Pos()))
              && DistinctPositions(r.value.verts[..|r.value.verts| - 1])
    ensures r.Some? ==>
              var s := r.value.verts[0].Pos();
              r.value == Close(Run(f, StartTracer(f, s), s))
  {
    var sx, sy := FindStart(f);
    var first, k := NextClockwisePixel(f, sx, sy, Step(0, 1));
    if first.None? {
      NoNeighbourMeansIsolated(f, Point(sx, sy));
      return None;
    }
    var start := Point(sx, sy);
    RotateKeepsUnit(Step(0, 1), k);
    MoveLeadsBack(f, sx, sy, Rotate(Step(0, 1), k));
    FirstHitIsFirstHitFrom(f, sx, sy, Step(0, 1), k);
    FirstStep(f, start, first.value);
    var t := Tracer(map[], [], [], 0, first.value.x, first.value.y, first.value.back, sx, sy, 0);
    assert t == StartTracer(f, start);
    t := Trace(f, t, start);
    CloseSound(f, t, start);
    return Some(Close(t));
  }

  /**
    When the clockwise search from the start candidate finds no neighbour,
    every start pixel is isolated: either there is no foreground pixel at
    all, or the candidate is the one start pixel.
  */
  lemma NoNeighbourMeansIsolated(f: Field, p: Point)
    requires WellFormed(f)
    requires IsStart(f, p) || forall q :: !Foreground(f, q)
    requires forall k :: 0 <= k < 8 ==> !Hit(f, p.x, p.y, Rotate(Step(0, 1), k))
    ensures forall s :: IsStart(f, s) ==> Isolated(f, s)
  {
    if IsStart(f, p) {
      forall k | 0 <= k < 8
        ensures !Hit(f, p.x, p.y, Compass(k))
      {
        RotateFromUp(k);
      }
      forall s | IsStart(f, s)
        ensures Isolated(f, s)
      {
        StartUnique(f, s, p);
      }
    }
  }

  /**
    A neighbour found from the start candidate makes it the start pixel, not
    isolated, and sets up the tracer's first state.
  */
  lemma FirstStep(f: Field, start: Point, m: Move)
    requires WellFormed(f)
    requires IsStart(f, start) || forall q :: !Foreground(f, q)
    requires m.x == start.x - m.back.dx && m.y == start.y - m.back.dy
    requires Foreground(f, Point(m.x, m.y)) && Unit(m.back)
    ensures IsStart(f, start) && !Isolated(f, start) && |f.pixels| >= 1
    ensures Tracing(f, Tracer(map[], [], [], 0, m.x, m.y, m.back, start.x, start.y, 0), start)
  {
    StartNotIsolated(f, start, m);
    var t := Tracer(map[], [], [], 0, m.x, m.y, m.back, start.x, start.y, 0);
    assert Valid(t.grid, t.verts) && Chain(t.edges, t.edgeIndex);
    assert Point(t.px, t.py) == start;
  }

  /** The start candidate with a foreground neighbour is the start pixel and not isolated. */
  lemma StartNotIsolated(f: Field, start: Point, m: Move)
    requires WellFormed(f)
    requires IsStart(f, start) || forall q :: !Foreground(f, q)
    requires m.x == start.x - m.back.dx && m.y == start.y - m.back.dy
    requires Foreground(f, Point(m.x, m.y)) && Unit(m.back)
    ensures IsStart(f, start) && !Isolated(f, start) && |f.pixels| >= 1
  {
    var out := Reverse(m.back);
    UnitIsCompass(out);
    var k :| 0 <= k < 8 && Compass(k) == out;
    assert Hit(f, start.x, start.y, Compass(k));
    assert ContainsPosition(f, start.x, start.y) != -1;
  }

  /**
    The tracing loop: step until the tracer stands on the start pixel again,
    or until it has taken as many steps as the image has pixels.
  */
  method Trace(f: Field, t0: Tracer, start: Point) returns (t: Tracer)
    requires WellFormed(f) && Tracing(f, t0, start) && t0.count == 0 && |f.pixels| >= 1
    ensures Tracing(f, t, start) && 0 < t.count <= |f.pixels|
    ensures Point(t.x, t.y) == start || t.count == |f.pixels|
    ensures t == Run(f, t0, start)
  {
    t := t0;
    var total := |f.pixels|;
    while (t.x != start.x || t.y != start.y) && t.count < total
      invariant Tracing(f, t, start) && t.count <= total
      invariant Run(f, t, start) == Run(f, t0, start)
      decreases total - t.count
    {
      var next, k := TraceStep(f, t, start);
      t := next;
    }
  }

  /** Append the closing vertex, without a lookup, and the closing edge [n, 0]: an open chain becomes a closed one. */
  function Close(t: Tracer): (r: OutlineMesh)
    ensures Chain(t.edges, t.edgeIndex) ==> ClosedChain(r.edges)
  {
    OutlineMesh(t.verts + [Vertex(t.px, 0.0, t.py)], t.edges + [Edge(t.edgeIndex, 0)])
  }

  /** The closed mesh of a tracer that took at least one step is a closed chain over start and the traced pixels. */
  lemma CloseSound(f: Field, t: Tracer, start: Point)
    requires WellFormed(f) && Tracing(f, t, start) && 0 < t.count <= |f.pixels|
    ensures ClosedChain(Close(t).edges)
    ensures |Close(t).edges| - 1 <= |f.pixels|
    ensures 2 <= |Close(t).verts| <= |Close(t).edges|
    ensures Close(t).verts[0].Pos() == start && IsStart(f, start)
    ensures forall i :: 0 <= i < |Close(t).verts| ==>
              Close(t).verts[i].z == 0.0 && Foreground(f, Close(t).verts[i].Pos())
    ensures DistinctPositions(Close(t).verts[..|Close(t).verts| - 1])
  {
    var m := Close(t);
    assert m.verts[..|m.verts| - 1] == t.verts;
    ValidConsequences(t.grid, t.verts);
  }
}
