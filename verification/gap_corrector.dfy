/**
 * The gap corrector (BitwiseCorrectGapsFromTerrainQuadCells). A merged quad
 * next to finer quads leaves T-junctions: vertices of the finer side that
 * lie on the merged quad's edge but not on its triangles. For every merged
 * quad found at each quadtree level, the corrector moves such vertices
 * vertically onto the straight line between the edge's two end vertices and
 * interpolates their normals the same way.
 */
module GapCorrector {
  import opened Outcomes
  import opened PowersOfTwo
  import opened QuadCells
  import opened Grids

  /** The compacted vertex positions and their normals. */
  datatype Surface = Surface(verts: seq<Vec3>, normals: seq<Vec3>)

  predicate WellFormed(s: Surface)
  {
    |s.verts| == |s.normals|
  }

  /** The two surfaces have the same vertex count and the same horizontal position for every vertex. */
  predicate SameFootprint(s: Surface, t: Surface)
  {
    && |s.verts| == |t.verts| && |s.normals| == |t.normals|
    && forall i :: 0 <= i < |s.verts| ==> t.verts[i].x == s.verts[i].x && t.verts[i].z == s.verts[i].z
  }

  /** Vertex i has a different position or normal in t than in s. */
  predicate Moved(s: Surface, t: Surface, i: int)
  {
    || (0 <= i < |s.verts| && i < |t.verts| && t.verts[i] != s.verts[i])
    || (0 <= i < |s.normals| && i < |t.normals| && t.normals[i] != s.normals[i])
  }

  /** A vertex that moved from s to u moved in one of the two steps through t. */
  lemma MovedSplit(s: Surface, t: Surface, u: Surface, i: int)
    requires SameFootprint(s, t) && SameFootprint(t, u) && Moved(s, u, i)
    ensures Moved(s, t, i) || Moved(t, u, i)
  {
  }

  /** Mathf.Lerp: unclamped linear interpolation. */
  function Lerp(a: real, b: real, w: real): (r: real)
    ensures w == 0.0 ==> r == a
    ensures w == 1.0 ==> r == b
  {
    a + (b - a) * w
  }

  function LerpVec(a: Vec3, b: Vec3, w: real): Vec3
  {
    Vec3(Lerp(a.x, b.x, w), Lerp(a.y, b.y, w), Lerp(a.z, b.z, w))
  }

  /** Which horizontal coordinate measures progress along an edge. */
  datatype Axis = AlongX | AlongZ

  function Coord(p: Vec3, axis: Axis): real
  {
    match axis
    case AlongX => p.x
    case AlongZ => p.z
  }

  predicate Indexes(s: Surface, i: int)
  {
    0 <= i < |s.verts| && i < |s.normals|
  }

  /**
   * One T-junction vertex v on the edge from vertex a to vertex b: its
   * height and normal are interpolated by its progress along the axis. An
   * index outside the vertex list is the source's IndexOutOfRangeException.
   * A zero-length edge (a float division by zero in the source) leaves v
   * alone.
   */
  function Adjust(s: Surface, v: int, a: int, b: int, axis: Axis): (r: Result<Surface>)
    ensures r.Ok? <==> Indexes(s, v) && Indexes(s, a) && Indexes(s, b)
    ensures r.Err? ==> r.error == VertexOutOfRange
    ensures r.Ok? ==> SameFootprint(s, r.value)
    ensures r.Ok? ==> forall i :: 0 <= i < |s.verts| && i != v ==> r.value.verts[i] == s.verts[i]
    ensures r.Ok? ==> forall i :: 0 <= i < |s.normals| && i != v ==> r.value.normals[i] == s.normals[i]
    ensures r.Ok? && Coord(s.verts[b], axis) == Coord(s.verts[a], axis) ==> r.value == s
    ensures r.Ok? && Coord(s.verts[b], axis) != Coord(s.verts[a], axis) ==>
      var pa, pb, pv := s.verts[a], s.verts[b], s.verts[v];
      (r.value.verts[v].y - pa.y) * (Coord(pb, axis) - Coord(pa, axis)) == (pb.y - pa.y) * (Coord(pv, axis) - Coord(pa, axis))
  {
    if !(Indexes(s, v) && Indexes(s, a) && Indexes(s, b)) then Err(VertexOutOfRange)
    else
      var pa, pb, pv := s.verts[a], s.verts[b], s.verts[v];
      var span := Coord(pb, axis) - Coord(pa, axis);
      if span == 0.0 then Ok(s)
      else
        var w := (Coord(pv, axis) - Coord(pa, axis)) / span;
        assert (pb.y - pa.y) * w * span == (pb.y - pa.y) * (Coord(pv, axis) - Coord(pa, axis));
        Ok(Surface(s.verts[v := Vec3(pv.x, Lerp(pa.y, pb.y, w), pv.z)],
                   s.normals[v := LerpVec(s.normals[a], s.normals[b], w)]))
  }

  /** The vertex indices the scan of these cells' corner c may move. */
  function Targets(g: Grid, R: nat, cells: seq<Pos>, c: Corner): set<int>
    requires IsGrid(g, R) && forall k :: 0 <= k < |cells| ==> cells[k].x < R && cells[k].z < R
  {
    set k | 0 <= k < |cells| && IsCornerVertex(g[cells[k].x][cells[k].z], c) :: g[cells[k].x][cells[k].z].cornerIndex.At(c)
  }

  /** Every vertex corner c among these cells names a vertex of s. */
  predicate TargetsIndexed(g: Grid, R: nat, cells: seq<Pos>, c: Corner, s: Surface)
    requires IsGrid(g, R) && forall k :: 0 <= k < |cells| ==> cells[k].x < R && cells[k].z < R
  {
    forall k :: 0 <= k < |cells| && IsCornerVertex(g[cells[k].x][cells[k].z], c) ==>
      Indexes(s, g[cells[k].x][cells[k].z].cornerIndex.At(c))
  }

  /** Walk the cells in order and line up every one whose corner c is a vertex. */
  function ScanCells(s: Surface, g: Grid, R: nat, cells: seq<Pos>, c: Corner, a: int, b: int, axis: Axis): (r: Result<Surface>)
    requires IsGrid(g, R) && forall k :: 0 <= k < |cells| ==> cells[k].x < R && cells[k].z < R
    ensures Indexes(s, a) && Indexes(s, b) && TargetsIndexed(g, R, cells, c, s) ==> r.Ok?
    ensures r.Err? ==> r.error == VertexOutOfRange
    ensures r.Ok? ==> SameFootprint(s, r.value)
    ensures r.Ok? ==> forall i :: 0 <= i < |s.verts| && i !in Targets(g, R, cells, c) ==> r.value.verts[i] == s.verts[i]
    ensures r.Ok? ==> forall i :: 0 <= i < |s.normals| && i !in Targets(g, R, cells, c) ==> r.value.normals[i] == s.normals[i]
    decreases |cells|
  {
    if |cells| == 0 then Ok(s)
    else
      var p := cells[0];
      var rest := cells[1..];
      assert Targets(g, R, rest, c) <= Targets(g, R, cells, c) by {
        forall i | i in Targets(g, R, rest, c) ensures i in Targets(g, R, cells, c) {
          var k :| 0 <= k < |rest| && IsCornerVertex(g[rest[k].x][rest[k].z], c) && i == g[rest[k].x][rest[k].z].cornerIndex.At(c);
          assert cells[k + 1] == rest[k];
        }
      }
      if IsCornerVertex(g[p.x][p.z], c) then
        var v := g[p.x][p.z].cornerIndex.At(c);
        assert v in Targets(g, R, cells, c) by { assert cells[0] == p; }
        var s' :- Adjust(s, v, a, b, axis);
        assert TargetsIndexed(g, R, cells, c, s) ==> TargetsIndexed(g, R, rest, c, s') by {
          if TargetsIndexed(g, R, cells, c, s) {
            forall k | 0 <= k < |rest| && IsCornerVertex(g[rest[k].x][rest[k].z], c)
              ensures Indexes(s', g[rest[k].x][rest[k].z].cornerIndex.At(c))
            {
              assert cells[k + 1] == rest[k];
            }
          }
        }
        ScanCells(s', g, R, rest, c, a, b, axis)
      else
        assert TargetsIndexed(g, R, cells, c, s) ==> TargetsIndexed(g, R, rest, c, s) by {
          if TargetsIndexed(g, R, cells, c, s) {
            forall k | 0 <= k < |rest| && IsCornerVertex(g[rest[k].x][rest[k].z], c)
              ensures Indexes(s, g[rest[k].x][rest[k].z].cornerIndex.At(c))
            {
              assert cells[k + 1] == rest[k];
            }
          }
        }
        ScanCells(s, g, R, rest, c, a, b, axis)
  }

  /** n cells of row z from column x0 rightwards. */
  function Row(x0: nat, n: nat, z: nat): (r: seq<Pos>)
    ensures |r| == n && forall k :: 0 <= k < n ==> r[k] == Pos(x0 + k, z)
  {
    seq(n, k requires 0 <= k < n => Pos(x0 + k, z))
  }

  /** n cells of column x from row z0 upwards. */
  function Column(x: nat, z0: nat, n: nat): (r: seq<Pos>)
    ensures |r| == n && forall k :: 0 <= k < n ==> r[k] == Pos(x, z0 + k)
  {
    seq(n, k requires 0 <= k < n => Pos(x, z0 + k))
  }

  /**
   * The section of side h at (sx, sz) is one merged quad: it starts with a
   * BottomLeft vertex and the first BottomRight to its right is exactly in
   * its last column. This bounded scan agrees with the index builder's
   * unbounded one, and a single cell never starts a section of 2 or more.
   */
  function ValidSection(g: Grid, R: nat, sx: nat, sz: nat, h: nat): (r: bool)
    requires IsGrid(g, R) && h >= 1 && sx + h <= R && sz < R
    ensures r <==> IsCornerVertex(g[sx][sz], BottomLeft) && FirstBottomRight(g, R, sx, sz) == Some(sx + h - 1)
    ensures IsCellSingleQuad(g[sx][sz]) && h >= 2 ==> !r
  {
    && IsCornerVertex(g[sx][sz], BottomLeft)
    && (forall x :: sx <= x < sx + h - 1 ==> !IsCornerVertex(g[x][sz], BottomRight))
    && IsCornerVertex(g[sx + h - 1][sz], BottomRight)
  }

  /** The four corner vertices of section (sx, sz, h) and every vertex corner along its four edges name vertices of s. */
  predicate EdgesIndexed(s: Surface, g: Grid, R: nat, sx: nat, sz: nat, h: nat)
    requires IsGrid(g, R) && h >= 1 && sx + h <= R && sz + h <= R
  {
    && Indexes(s, g[sx][sz].cornerIndex.At(BottomLeft))
    && Indexes(s, g[sx + h - 1][sz].cornerIndex.At(BottomRight))
    && Indexes(s, g[sx][sz + h - 1].cornerIndex.At(TopLeft))
    && Indexes(s, g[sx + h - 1][sz + h - 1].cornerIndex.At(TopRight))
    && (sz >= 1 ==> TargetsIndexed(g, R, Row(sx, h - 1, sz - 1), TopRight, s))
    && (sz + h < R ==> TargetsIndexed(g, R, Row(sx, h - 1, sz + h), BottomRight, s))
    && (sx >= 1 ==> TargetsIndexed(g, R, Column(sx - 1, sz, h - 1), TopRight, s))
    && (sx + h < R ==> TargetsIndexed(g, R, Column(sx + h, sz, h - 1), TopLeft, s))
  }

  /**
   * The vertices the four edge scans of section (sx, sz, h) may move: the
   * vertex corners of the neighbouring row or column along each edge, short
   * of the cell that holds the section's own corner.
   */
  function EdgeTargets(g: Grid, R: nat, sx: nat, sz: nat, h: nat): set<int>
    requires IsGrid(g, R) && h >= 1 && sx + h <= R && sz + h <= R
  {
    RowEdgeTargets(g, R, sx, sz, h) + ColumnEdgeTargets(g, R, sx, sz, h)
  }

  /** The targets of the bottom and top scans. */
  function RowEdgeTargets(g: Grid, R: nat, sx: nat, sz: nat, h: nat): set<int>
    requires IsGrid(g, R) && h >= 1 && sx + h <= R && sz + h <= R
  {
    (if sz >= 1 then Targets(g, R, Row(sx, h - 1, sz - 1), TopRight) else {})
    + (if sz + h < R then Targets(g, R, Row(sx, h - 1, sz + h), BottomRight) else {})
  }

  /** The targets of the left and right scans. */
  function ColumnEdgeTargets(g: Grid, R: nat, sx: nat, sz: nat, h: nat): set<int>
    requires IsGrid(g, R) && h >= 1 && sx + h <= R && sz + h <= R
  {
    (if sx >= 1 then Targets(g, R, Column(sx - 1, sz, h - 1), TopRight) else {})
    + (if sx + h < R then Targets(g, R, Column(sx + h, sz, h - 1), TopLeft) else {})
  }

  /** Vertex i lies along an edge of the merged quad that section (x, z) of side h validates. */
  predicate OnMergedEdge(g: Grid, R: nat, h: nat, x: nat, z: nat, i: int)
  {
    && IsGrid(g, R) && h >= 1 && x + h <= R && z + h <= R
    && ValidSection(g, R, x, z, h) && i in EdgeTargets(g, R, x, z, h)
  }

  lemma EdgesIndexedFootprint(s: Surface, t: Surface, g: Grid, R: nat, sx: nat, sz: nat, h: nat)
    requires IsGrid(g, R) && h >= 1 && sx + h <= R && sz + h <= R
    requires SameFootprint(s, t)
    ensures EdgesIndexed(s, g, R, sx, sz, h) ==> EdgesIndexed(t, g, R, sx, sz, h)
  {
  }

  /** The bottom and top scans: along the rows below and above the section, when they exist. */
  function ScanRowEdges(s: Surface, g: Grid, R: nat, sx: nat, sz: nat, h: nat): (r: Result<Surface>)
    requires IsGrid(g, R) && h >= 1 && sx + h <= R && sz + h <= R
    ensures r.Err? ==> r.error == VertexOutOfRange
    ensures r.Ok? ==> SameFootprint(s, r.value)
    ensures r.Ok? ==> forall i :: Moved(s, r.value, i) ==> i in RowEdgeTargets(g, R, sx, sz, h)
    ensures EdgesIndexed(s, g, R, sx, sz, h) ==> r.Ok?
  {
    var bl := g[sx][sz].cornerIndex.At(BottomLeft);
    var br := g[sx + h - 1][sz].cornerIndex.At(BottomRight);
    var tl := g[sx][sz + h - 1].cornerIndex.At(TopLeft);
    var tr := g[sx + h - 1][sz + h - 1].cornerIndex.At(TopRight);
    var s1 :- if sz >= 1 then ScanCells(s, g, R, Row(sx, h - 1, sz - 1), TopRight, bl, br, AlongX) else Ok(s);
    EdgesIndexedFootprint(s, s1, g, R, sx, sz, h);
    var s2 := if sz + h < R then ScanCells(s1, g, R, Row(sx, h - 1, sz + h), BottomRight, tl, tr, AlongX) else Ok(s1);
    assert s2.Ok? ==> forall i :: Moved(s, s2.value, i) ==> i in RowEdgeTargets(g, R, sx, sz, h) by {
      if s2.Ok? {
        forall i | Moved(s, s2.value, i) ensures i in RowEdgeTargets(g, R, sx, sz, h) {
          MovedSplit(s, s1, s2.value, i);
        }
      }
    }
    s2
  }

  /** The left and right scans: along the columns left and right of the section, when they exist. */
  function ScanColumnEdges(s: Surface, g: Grid, R: nat, sx: nat, sz: nat, h: nat): (r: Result<Surface>)
    requires IsGrid(g, R) && h >= 1 && sx + h <= R && sz + h <= R
    ensures r.Err? ==> r.error == VertexOutOfRange
    ensures r.Ok? ==> SameFootprint(s, r.value)
    ensures r.Ok? ==> forall i :: Moved(s, r.value, i) ==> i in ColumnEdgeTargets(g, R, sx, sz, h)
    ensures EdgesIndexed(s, g, R, sx, sz, h) ==> r.Ok?
  {
    var bl := g[sx][sz].cornerIndex.At(BottomLeft);
    var br := g[sx + h - 1][sz].cornerIndex.At(BottomRight);
    var tl := g[sx][sz + h - 1].cornerIndex.At(TopLeft);
    var tr := g[sx + h - 1][sz + h - 1].cornerIndex.At(TopRight);
    var s3 :- if sx >= 1 then ScanCells(s, g, R, Column(sx - 1, sz, h - 1), TopRight, bl, tl, AlongZ) else Ok(s);
    EdgesIndexedFootprint(s, s3, g, R, sx, sz, h);
    var s4 := if sx + h < R then ScanCells(s3, g, R, Column(sx + h, sz, h - 1), TopLeft, br, tr, AlongZ) else Ok(s3);
    assert s4.Ok? ==> forall i :: Moved(s, s4.value, i) ==> i in ColumnEdgeTargets(g, R, sx, sz, h) by {
      if s4.Ok? {
        forall i | Moved(s, s4.value, i) ensures i in ColumnEdgeTargets(g, R, sx, sz, h) {
          MovedSplit(s, s3, s4.value, i);
        }
      }
    }
    s4
  }

  /**
   * The four edge scans of a merged section, in the source's order: bottom,
   * top, left, right, each only when the neighbouring row or column exists.
   */
  function ScanEdges(s: Surface, g: Grid, R: nat, sx: nat, sz: nat, h: nat): (r: Result<Surface>)
    requires IsGrid(g, R) && h >= 1 && sx + h <= R && sz + h <= R
    ensures r.Err? ==> r.error == VertexOutOfRange
    ensures r.Ok? ==> SameFootprint(s, r.value)
    ensures r.Ok? ==> forall i :: Moved(s, r.value, i) ==> i in EdgeTargets(g, R, sx, sz, h)
    ensures EdgesIndexed(s, g, R, sx, sz, h) ==> r.Ok?
  {
    var s2 :- ScanRowEdges(s, g, R, sx, sz, h);
    EdgesIndexedFootprint(s, s2, g, R, sx, sz, h);
    var s4 := ScanColumnEdges(s2, g, R, sx, sz, h);
    assert s4.Ok? ==> forall i :: Moved(s, s4.value, i) ==> i in EdgeTargets(g, R, sx, sz, h) by {
      if s4.Ok? {
        forall i | Moved(s, s4.value, i) ensures i in EdgeTargets(g, R, sx, sz, h) {
          MovedSplit(s, s2, s4.value, i);
        }
      }
    }
    s4
  }

  /**
   * One section of the loop: scan its edges when it is a single merged quad.
   * A section that is not one is left alone, and a valid one moves only the
   * vertices along its edges.
   */
  function CorrectSection(s: Surface, g: Grid, R: nat, sx: nat, sz: nat, h: nat): (r: Result<Surface>)
    requires IsGrid(g, R) && h >= 1 && sx + h <= R && sz + h <= R
    ensures !ValidSection(g, R, sx, sz, h) ==> r == Ok(s)
    ensures r.Err? ==> r.error == VertexOutOfRange
    ensures r.Ok? ==> SameFootprint(s, r.value)
    ensures r.Ok? ==> forall i :: Moved(s, r.value, i) ==> OnMergedEdge(g, R, h, sx, sz, i)
    ensures WellFormed(s) && Sealed(g, R) && CornersIndexed(g, R, |s.verts|) ==> r.Ok?
    ensures AllSingle(g, R) && h >= 2 ==> r == Ok(s)
  {
    assert AllSingle(g, R) ==> IsCellSingleQuad(g[sx][sz]);
    if !ValidSection(g, R, sx, sz, h) then Ok(s)
    else
      SectionEndsIndexed(s, g, R, sx, sz, h);
      ScanEdges(s, g, R, sx, sz, h)
  }

  /**
   * In a sealed, fully indexed grid the four corners of a valid section and
   * every vertex corner next to it name vertices of s.
   */
  lemma SectionEndsIndexed(s: Surface, g: Grid, R: nat, sx: nat, sz: nat, h: nat)
    requires IsGrid(g, R) && h >= 1 && sx + h <= R && sz + h <= R && ValidSection(g, R, sx, sz, h)
    ensures WellFormed(s) && Sealed(g, R) && CornersIndexed(g, R, |s.verts|) ==> EdgesIndexed(s, g, R, sx, sz, h)
  {
    if WellFormed(s) && Sealed(g, R) && CornersIndexed(g, R, |s.verts|) {
      assert QuadCloses(g, R, sx, sz);
      assert FirstBottomRight(g, R, sx, sz) == Some(sx + h - 1);
    }
  }

  /** The sections of one row of sections, from column sx rightwards. */
  function CorrectRow(s: Surface, g: Grid, R: nat, h: nat, sx: nat, sz: nat): (r: Result<Surface>)
    requires IsGrid(g, R) && h >= 1 && sx % h == 0 && R % h == 0 && sz + h <= R
    ensures r.Err? ==> r.error == VertexOutOfRange
    ensures r.Ok? ==> SameFootprint(s, r.value)
    ensures r.Ok? ==> forall i :: Moved(s, r.value, i) ==> exists x: nat :: sx <= x && x % h == 0 && OnMergedEdge(g, R, h, x, sz, i)
    ensures WellFormed(s) && Sealed(g, R) && CornersIndexed(g, R, |s.verts|) ==> r.Ok?
    ensures AllSingle(g, R) && h >= 2 ==> r == Ok(s)
    decreases R - sx
  {
    if sx >= R then Ok(s)
    else
      AlignedFits(sx, h, R);
      DivOfMultiple(sx / h + 1, h);
      assert sx + h == (sx / h + 1) * h;
      var s' :- CorrectSection(s, g, R, sx, sz, h);
      var t := CorrectRow(s', g, R, h, sx + h, sz);
      assert t.Ok? ==> forall i :: Moved(s, t.value, i) ==> exists x: nat :: sx <= x && x % h == 0 && OnMergedEdge(g, R, h, x, sz, i) by {
        if t.Ok? {
          forall i | Moved(s, t.value, i) ensures exists x: nat :: sx <= x && x % h == 0 && OnMergedEdge(g, R, h, x, sz, i) {
            MovedSplit(s, s', t.value, i);
            if Moved(s, s', i) {
              assert OnMergedEdge(g, R, h, sx, sz, i);
            }
          }
        }
      }
      t
  }

  /** The rows of sections from row sz upwards. */
  function CorrectRows(s: Surface, g: Grid, R: nat, h: nat, sz: nat): (r: Result<Surface>)
    requires IsGrid(g, R) && h >= 1 && sz % h == 0 && R % h == 0
    ensures r.Err? ==> r.error == VertexOutOfRange
    ensures r.Ok? ==> SameFootprint(s, r.value)
    ensures r.Ok? ==> forall i :: Moved(s, r.value, i) ==>
      exists x: nat, z: nat :: sz <= z && x % h == 0 && z % h == 0 && OnMergedEdge(g, R, h, x, z, i)
    ensures WellFormed(s) && Sealed(g, R) && CornersIndexed(g, R, |s.verts|) ==> r.Ok?
    ensures AllSingle(g, R) && h >= 2 ==> r == Ok(s)
    decreases R - sz
  {
    if sz >= R then Ok(s)
    else
      AlignedFits(sz, h, R);
      DivOfMultiple(sz / h + 1, h);
      assert sz + h == (sz / h + 1) * h;
      var s' :- CorrectRow(s, g, R, h, 0, sz);
      var t := CorrectRows(s', g, R, h, sz + h);
      assert t.Ok? ==> forall i :: Moved(s, t.value, i) ==>
        exists x: nat, z: nat :: sz <= z && x % h == 0 && z % h == 0 && OnMergedEdge(g, R, h, x, z, i) by {
        if t.Ok? {
          forall i | Moved(s, t.value, i)
            ensures exists x: nat, z: nat :: sz <= z && x % h == 0 && z % h == 0 && OnMergedEdge(g, R, h, x, z, i)
          {
            MovedSplit(s, s', t.value, i);
            if Moved(s, s', i) {
              var x: nat :| x % h == 0 && OnMergedEdge(g, R, h, x, sz, i);
              assert OnMergedEdge(g, R, h, x, sz, i);
            }
          }
        }
      }
      t
  }

  /**
   * BitwiseCorrectGapsFromTerrainQuadCells(size): every level of the
   * quadtree from sections of size / 2 down to sections of 2 cells. A vertex
   * moves only when it lies along an edge of a merged quad that some level
   * validates.
   */
  function CorrectGaps(s: Surface, g: Grid, R: nat, size: nat): (r: Result<Surface>)
    requires IsGrid(g, R) && IsPow2(size) && IsPow2(R) && size <= R
    ensures size < 4 ==> r == Ok(s)
    ensures r.Err? ==> r.error == VertexOutOfRange
    ensures r.Ok? ==> SameFootprint(s, r.value)
    ensures r.Ok? ==> forall i :: Moved(s, r.value, i) ==>
      exists h: nat, x: nat, z: nat :: IsPow2(h) && 2 <= h && 2 * h <= size && x % h == 0 && z % h == 0 && OnMergedEdge(g, R, h, x, z, i)
    ensures WellFormed(s) && Sealed(g, R) && CornersIndexed(g, R, |s.verts|) ==> r.Ok?
    ensures AllSingle(g, R) ==> r == Ok(s)
    decreases size
  {
    if size < 4 then Ok(s)
    else
      HalfIsPow2(size);
      var h := size / 2;
      Pow2Quotient(h, R);
      var s' :- CorrectRows(s, g, R, h, 0);
      var t := CorrectGaps(s', g, R, h);
      assert t.Ok? ==> forall i :: Moved(s, t.value, i) ==>
        exists h': nat, x: nat, z: nat :: IsPow2(h') && 2 <= h' && 2 * h' <= size && x % h' == 0 && z % h' == 0 && OnMergedEdge(g, R, h', x, z, i) by {
        if t.Ok? {
          forall i | Moved(s, t.value, i)
            ensures exists h': nat, x: nat, z: nat :: IsPow2(h') && 2 <= h' && 2 * h' <= size && x % h' == 0 && z % h' == 0 && OnMergedEdge(g, R, h', x, z, i)
          {
            MovedSplit(s, s', t.value, i);
            if Moved(s, s', i) {
              var x: nat, z: nat :| x % h == 0 && z % h == 0 && OnMergedEdge(g, R, h, x, z, i);
              assert OnMergedEdge(g, R, h, x, z, i);
            }
          }
        }
      }
      t
  }
}
