/**
 * The vertex compactor (PopulateVertsFromTerrainQuadCells): walk the
 * (R+1) x (R+1) lattice row by row and keep exactly the positions that some
 * cell claims as a corner vertex. Each kept position is copied from the
 * uniform lists and its new index is written into every claiming corner.
 */
module Compactor {
  import opened PowersOfTwo
  import opened QuadCells
  import opened Grids

  /**
   * Lattice position p is a corner vertex of one of the (up to four) cells
   * around it: BottomLeft of [x, z], BottomRight of [x-1, z], TopLeft of
   * [x, z-1] or TopRight of [x-1, z-1].
   */
  predicate Claimed(g: Grid, R: nat, p: Pos)
    requires IsGrid(g, R) && p.x <= R && p.z <= R
  {
    || (p.z < R && p.x < R && IsCornerVertex(g[p.x][p.z], BottomLeft))
    || (p.z < R && p.x > 0 && IsCornerVertex(g[p.x - 1][p.z], BottomRight))
    || (p.z > 0 && p.x < R && IsCornerVertex(g[p.x][p.z - 1], TopLeft))
    || (p.z > 0 && p.x > 0 && IsCornerVertex(g[p.x - 1][p.z - 1], TopRight))
  }

  /** A vertex corner of a cell claims the lattice position it sits on. */
  lemma CornerClaims(g: Grid, R: nat, x: nat, z: nat, c: Corner)
    requires IsGrid(g, R) && x < R && z < R && IsCornerVertex(g[x][z], c)
    ensures Claimed(g, R, CornerPos(x, z, c))
  {
  }

  lemma ClaimedSameMasks(g: Grid, h: Grid, R: nat, p: Pos)
    requires IsGrid(g, R) && IsGrid(h, R) && SameMasks(g, h, R) && p.x <= R && p.z <= R
    ensures Claimed(g, R, p) == Claimed(h, R, p)
  {
    if p.z < R && p.x < R { SameMaskSameCorners(g[p.x][p.z], h[p.x][p.z]); }
    if p.z < R && p.x > 0 { SameMaskSameCorners(g[p.x - 1][p.z], h[p.x - 1][p.z]); }
    if p.z > 0 && p.x < R { SameMaskSameCorners(g[p.x][p.z - 1], h[p.x][p.z - 1]); }
    if p.z > 0 && p.x > 0 { SameMaskSameCorners(g[p.x - 1][p.z - 1], h[p.x - 1][p.z - 1]); }
  }

  /** The lattice position at row-major index i. */
  function PosAt(R: nat, i: nat): (p: Pos)
    requires i < (R + 1) * (R + 1)
    ensures p.x <= R && p.z <= R && Flat(p, R) == i
  {
    var V := R + 1;
    QuotientBelow(i, V);
    Pos(i % V, i / V)
  }

  lemma PosAtFlat(p: Pos, R: nat)
    requires p.x <= R && p.z <= R
    ensures PosAt(R, Flat(p, R)) == p
  {
    FlatInverse(p, R);
  }

  /** The claimed positions among the first n row-major indices, in visiting order. */
  function ClaimsUpTo(g: Grid, R: nat, n: nat): (r: seq<Pos>)
    requires IsGrid(g, R) && n <= (R + 1) * (R + 1)
    ensures |r| <= n
    ensures forall k :: 0 <= k < |r| ==> r[k].x <= R && r[k].z <= R && Flat(r[k], R) < n && Claimed(g, R, r[k])
    ensures forall i, j :: 0 <= i < j < |r| ==> Flat(r[i], R) < Flat(r[j], R)
  {
    if n == 0 then []
    else
      var p := PosAt(R, n - 1);
      ClaimsUpTo(g, R, n - 1) + (if Claimed(g, R, p) then [p] else [])
  }

  /** Every claimed position, in row-major order: the compacted vertex list's sources. */
  function Claims(g: Grid, R: nat): seq<Pos>
    requires IsGrid(g, R)
  {
    ClaimsUpTo(g, R, (R + 1) * (R + 1))
  }

  /** Lattice position p's index in the compacted vertex list. */
  function Rank(g: Grid, R: nat, p: Pos): nat
    requires IsGrid(g, R) && p.x <= R && p.z <= R
  {
    |ClaimsUpTo(g, R, Flat(p, R))|
  }

  lemma {:induction false} ClaimsPrefix(g: Grid, R: nat, n: nat, m: nat)
    requires IsGrid(g, R) && n <= m <= (R + 1) * (R + 1)
    ensures ClaimsUpTo(g, R, n) <= ClaimsUpTo(g, R, m)
    decreases m
  {
    if n < m {
      ClaimsPrefix(g, R, n, m - 1);
    }
  }

  /**
   * A claimed position sits in the compacted list exactly at its rank, and
   * nothing else does: the list holds each claimed position once.
   */
  lemma RankIndexesClaims(g: Grid, R: nat, p: Pos)
    requires IsGrid(g, R) && p.x <= R && p.z <= R && Claimed(g, R, p)
    ensures Rank(g, R, p) < |Claims(g, R)| && Claims(g, R)[Rank(g, R, p)] == p
  {
    var n := Flat(p, R);
    PosAtFlat(p, R);
    assert ClaimsUpTo(g, R, n + 1) == ClaimsUpTo(g, R, n) + [p];
    ClaimsPrefix(g, R, n + 1, (R + 1) * (R + 1));
  }

  /** The compacted list holds exactly the claimed positions. */
  lemma ClaimsExact(g: Grid, R: nat, p: Pos)
    requires IsGrid(g, R) && p.x <= R && p.z <= R
    ensures p in Claims(g, R) <==> Claimed(g, R, p)
  {
    if Claimed(g, R, p) {
      RankIndexesClaims(g, R, p);
    }
  }

  /** A grid with no merged cells claims every lattice position. */
  lemma SingleCellsClaimAll(g: Grid, R: nat, p: Pos)
    requires IsGrid(g, R) && R >= 1 && p.x <= R && p.z <= R
    requires forall x, z :: 0 <= x < R && 0 <= z < R ==> IsCellSingleQuad(g[x][z])
    ensures Claimed(g, R, p)
  {
    var x, z := if p.x < R then p.x else p.x - 1, if p.z < R then p.z else p.z - 1;
    assert IsCellSingleQuad(g[x][z]);
  }

  /**
   * Without merged cells the compacted list is the whole lattice in
   * row-major order: entry i is the position with row-major index i.
   */
  lemma {:induction false} SingleCellsClaimsUpTo(g: Grid, R: nat, n: nat)
    requires IsGrid(g, R) && R >= 1 && n <= (R + 1) * (R + 1)
    requires forall x, z :: 0 <= x < R && 0 <= z < R ==> IsCellSingleQuad(g[x][z])
    ensures |ClaimsUpTo(g, R, n)| == n
    ensures forall i :: 0 <= i < n ==> Flat(ClaimsUpTo(g, R, n)[i], R) == i
  {
    if n > 0 {
      SingleCellsClaimsUpTo(g, R, n - 1);
      SingleCellsClaimAll(g, R, PosAt(R, n - 1));
    }
  }

  // ---------------------------------------------------------------------------
  // One lattice position of the walk
  // ---------------------------------------------------------------------------

  /** Write v into corner c of cell [x, z], leaving everything else alone. */
  function SetCorner(g: Grid, R: nat, x: nat, z: nat, c: Corner, v: int): (r: Grid)
    requires IsGrid(g, R) && x < R && z < R
    ensures IsGrid(r, R)
    ensures r[x][z] == g[x][z].(cornerIndex := g[x][z].cornerIndex.With(c, v))
    ensures forall x', z' :: 0 <= x' < R && 0 <= z' < R && (x', z') != (x, z) ==> r[x'][z'] == g[x'][z']
  {
    g[x := g[x][z := g[x][z].(cornerIndex := g[x][z].cornerIndex.With(c, v))]]
  }

  /** The grid after visiting one position, and the uniform index to copy (-1 for none). */
  datatype Placed = Placed(cells: Grid, copy: int)

  /**
   * One neighbour check: when cell [x, z] exists and has corner c as a
   * vertex, give that corner index k and ask for its uniform vertex.
   */
  function ClaimCorner(s: Placed, R: nat, x: int, z: int, c: Corner, k: int): (r: Placed)
    requires IsGrid(s.cells, R)
    ensures IsGrid(r.cells, R) && SameShape(s.cells, r.cells, R)
    ensures forall x', z', c' :: 0 <= x' < R && 0 <= z' < R ==>
      r.cells[x'][z'].cornerIndex.At(c') ==
        if x' == x && z' == z && c' == c && IsCornerVertex(s.cells[x][z], c) then k else s.cells[x'][z'].cornerIndex.At(c')
    ensures r.copy == if 0 <= x < R && 0 <= z < R && IsCornerVertex(s.cells[x][z], c)
                      then s.cells[x][z].uniformCornerIndex.At(c) else s.copy
  {
    if 0 <= x < R && 0 <= z < R && IsCornerVertex(s.cells[x][z], c)
    then Placed(SetCorner(s.cells, R, x, z, c, k), s.cells[x][z].uniformCornerIndex.At(c))
    else s
  }

  /**
   * The four neighbour checks for lattice position p, in the source's order
   * (each guard of the source is exactly "the neighbour cell exists"); k is
   * the next vertex index.
   */
  function PlaceVertex(g: Grid, R: nat, p: Pos, k: int): (r: Placed)
    requires IsGrid(g, R) && p.x <= R && p.z <= R
    ensures IsGrid(r.cells, R) && SameShape(g, r.cells, R)
  {
    var s1 := ClaimCorner(Placed(g, -1), R, p.x, p.z, BottomLeft, k);
    var s2 := ClaimCorner(s1, R, p.x - 1, p.z, BottomRight, k);
    var s3 := ClaimCorner(s2, R, p.x, p.z - 1, TopLeft, k);
    ClaimCorner(s3, R, p.x - 1, p.z - 1, TopRight, k)
  }

  /** Masks and uniform indices agree: only compacted corner indices may differ. */
  predicate SameShape(g: Grid, h: Grid, R: nat)
    requires IsGrid(g, R) && IsGrid(h, R)
  {
    forall x, z :: 0 <= x < R && 0 <= z < R ==>
      g[x][z].edges == h[x][z].edges && g[x][z].uniformCornerIndex == h[x][z].uniformCornerIndex
  }

  /** Visiting p gives index k to exactly the vertex corners sitting on p. */
  lemma PlaceVertexCorners(g: Grid, R: nat, p: Pos, k: int)
    requires IsGrid(g, R) && p.x <= R && p.z <= R
    ensures var r := PlaceVertex(g, R, p, k);
            && SameShape(g, r.cells, R)
            && (forall x, z, c :: 0 <= x < R && 0 <= z < R ==>
                  r.cells[x][z].cornerIndex.At(c) ==
                    if CornerPos(x, z, c) == p && IsCornerVertex(g[x][z], c) then k else g[x][z].cornerIndex.At(c))
  {
    var s1 := ClaimCorner(Placed(g, -1), R, p.x, p.z, BottomLeft, k);
    var s2 := ClaimCorner(s1, R, p.x - 1, p.z, BottomRight, k);
    var s3 := ClaimCorner(s2, R, p.x, p.z - 1, TopLeft, k);
    var r := ClaimCorner(s3, R, p.x - 1, p.z - 1, TopRight, k);
    assert r == PlaceVertex(g, R, p, k);
    forall x, z, c | 0 <= x < R && 0 <= z < R
      ensures r.cells[x][z].cornerIndex.At(c) ==
        if CornerPos(x, z, c) == p && IsCornerVertex(g[x][z], c) then k else g[x][z].cornerIndex.At(c)
    {
      PlaceVertexCell(g, R, p, k, x, z, c);
    }
  }

  lemma PlaceVertexCell(g: Grid, R: nat, p: Pos, k: int, x: nat, z: nat, c: Corner)
    requires IsGrid(g, R) && p.x <= R && p.z <= R && x < R && z < R
    ensures PlaceVertex(g, R, p, k).cells[x][z].cornerIndex.At(c) ==
      if CornerPos(x, z, c) == p && IsCornerVertex(g[x][z], c) then k else g[x][z].cornerIndex.At(c)
  {
    var s1 := ClaimCorner(Placed(g, -1), R, p.x, p.z, BottomLeft, k);
    var s2 := ClaimCorner(s1, R, p.x - 1, p.z, BottomRight, k);
    var s3 := ClaimCorner(s2, R, p.x, p.z - 1, TopLeft, k);
    var s4 := ClaimCorner(s3, R, p.x - 1, p.z - 1, TopRight, k);
    SameMaskSameCorners(g[x][z], s1.cells[x][z]);
    SameMaskSameCorners(g[x][z], s2.cells[x][z]);
    SameMaskSameCorners(g[x][z], s3.cells[x][z]);
    var vertex := IsCornerVertex(g[x][z], c);
    var v0 := g[x][z].cornerIndex.At(c);
    var v1 := if x == p.x && z == p.z && c == BottomLeft && vertex then k else v0;
    assert s1.cells[x][z].cornerIndex.At(c) == v1;
    var v2 := if x == p.x - 1 && z == p.z && c == BottomRight && vertex then k else v1;
    assert s2.cells[x][z].cornerIndex.At(c) == v2;
    var v3 := if x == p.x && z == p.z - 1 && c == TopLeft && vertex then k else v2;
    assert s3.cells[x][z].cornerIndex.At(c) == v3;
    var v4 := if x == p.x - 1 && z == p.z - 1 && c == TopRight && vertex then k else v3;
    assert s4.cells[x][z].cornerIndex.At(c) == v4;
    CornerPosCases(x, z, c, p);
  }

  /** The four (cell, corner) pairs that sit on lattice position p, as PlaceVertex visits them. */
  lemma CornerPosCases(x: nat, z: nat, c: Corner, p: Pos)
    ensures CornerPos(x, z, c) == p <==>
      || (x == p.x && z == p.z && c == BottomLeft)
      || (x == p.x - 1 && z == p.z && c == BottomRight)
      || (x == p.x && z == p.z - 1 && c == TopLeft)
      || (x == p.x - 1 && z == p.z - 1 && c == TopRight)
  {
  }

  /** Visiting p asks for a copy exactly when p is claimed, and then of p's own uniform vertex. */
  lemma PlaceVertexCopy(g: Grid, R: nat, p: Pos, k: int)
    requires IsGrid(g, R) && UniformLayout(g, R) && p.x <= R && p.z <= R
    ensures var r := PlaceVertex(g, R, p, k);
            && (r.copy >= 0 <==> Claimed(g, R, p))
            && (Claimed(g, R, p) ==> r.copy == Flat(p, R))
  {
    var s1 := ClaimCorner(Placed(g, -1), R, p.x, p.z, BottomLeft, k);
    var s2 := ClaimCorner(s1, R, p.x - 1, p.z, BottomRight, k);
    var s3 := ClaimCorner(s2, R, p.x, p.z - 1, TopLeft, k);
    if p.z < R && p.x < R {
      assert g[p.x][p.z].uniformCornerIndex.At(BottomLeft) == Flat(p, R);
    }
    if p.z < R && p.x > 0 {
      SameMaskSameCorners(g[p.x - 1][p.z], s1.cells[p.x - 1][p.z]);
      assert g[p.x - 1][p.z].uniformCornerIndex.At(BottomRight) == Flat(p, R);
    }
    if p.z > 0 && p.x < R {
      SameMaskSameCorners(g[p.x][p.z - 1], s2.cells[p.x][p.z - 1]);
      assert g[p.x][p.z - 1].uniformCornerIndex.At(TopLeft) == Flat(p, R);
    }
    if p.z > 0 && p.x > 0 {
      SameMaskSameCorners(g[p.x - 1][p.z - 1], s3.cells[p.x - 1][p.z - 1]);
      assert g[p.x - 1][p.z - 1].uniformCornerIndex.At(TopRight) == Flat(p, R);
    }
  }

  // ---------------------------------------------------------------------------
  // The walk
  // ---------------------------------------------------------------------------

  /** The vertices kept so far are the uniform vertices at the claimed positions among the first n. */
  ghost predicate VertsUpTo(g: Grid, R: nat, uVerts: seq<Vec3>, uUVs: seq<UV>, verts: seq<Vec3>, uvs: seq<UV>, n: nat)
    requires IsGrid(g, R) && n <= (R + 1) * (R + 1) && |uVerts| == |uUVs| == (R + 1) * (R + 1)
  {
    var claims := ClaimsUpTo(g, R, n);
    && |verts| == |uvs| == |claims|
    && (forall i :: 0 <= i < |verts| ==> verts[i] == uVerts[Flat(claims[i], R)] && uvs[i] == uUVs[Flat(claims[i], R)])
  }

  /** Every vertex corner on one of the first n positions holds that position's rank; other corners are untouched. */
  ghost predicate CornersUpTo(g: Grid, R: nat, cells: Grid, n: nat)
    requires IsGrid(g, R) && IsGrid(cells, R)
  {
    forall x, z, c :: 0 <= x < R && 0 <= z < R ==> CornerUpTo(g, R, cells, n, x, z, c)
  }

  ghost predicate CornerUpTo(g: Grid, R: nat, cells: Grid, n: nat, x: nat, z: nat, c: Corner)
    requires IsGrid(g, R) && IsGrid(cells, R) && x < R && z < R
  {
    cells[x][z].cornerIndex.At(c) ==
      if IsCornerVertex(g[x][z], c) && Flat(CornerPos(x, z, c), R) < n
      then Rank(g, R, CornerPos(x, z, c)) else g[x][z].cornerIndex.At(c)
  }

  /** The walk has visited the first n lattice positions. */
  ghost predicate CompactedUpTo(g: Grid, R: nat, uVerts: seq<Vec3>, uUVs: seq<UV>,
                                cells: Grid, verts: seq<Vec3>, uvs: seq<UV>, n: nat)
    requires IsGrid(g, R) && n <= (R + 1) * (R + 1) && |uVerts| == |uUVs| == (R + 1) * (R + 1)
  {
    && IsGrid(cells, R) && SameShape(g, cells, R)
    && VertsUpTo(g, R, uVerts, uUVs, verts, uvs, n)
    && CornersUpTo(g, R, cells, n)
  }

  lemma UniformLayoutSameShape(g: Grid, cells: Grid, R: nat)
    requires IsGrid(g, R) && IsGrid(cells, R) && SameShape(g, cells, R) && UniformLayout(g, R)
    ensures UniformLayout(cells, R) && SameMasks(g, cells, R)
  {
    forall x, z, c | 0 <= x < R && 0 <= z < R
      ensures cells[x][z].uniformCornerIndex.At(c) == Flat(CornerPos(x, z, c), R)
    {
      assert cells[x][z].uniformCornerIndex == g[x][z].uniformCornerIndex;
    }
  }

  lemma VertsStep(g: Grid, R: nat, uVerts: seq<Vec3>, uUVs: seq<UV>,
                  cells: Grid, verts: seq<Vec3>, uvs: seq<UV>, n: nat)
    requires IsGrid(g, R) && UniformLayout(g, R) && n < (R + 1) * (R + 1)
    requires |uVerts| == |uUVs| == (R + 1) * (R + 1)
    requires IsGrid(cells, R) && SameShape(g, cells, R)
    requires VertsUpTo(g, R, uVerts, uUVs, verts, uvs, n)
    ensures var placed := PlaceVertex(cells, R, PosAt(R, n), |verts|);
            && placed.copy < (R + 1) * (R + 1)
            && VertsUpTo(g, R, uVerts, uUVs,
                         verts + (if placed.copy >= 0 then [uVerts[placed.copy]] else []),
                         uvs + (if placed.copy >= 0 then [uUVs[placed.copy]] else []), n + 1)
  {
    var p := PosAt(R, n);
    UniformLayoutSameShape(g, cells, R);
    PlaceVertexCopy(cells, R, p, |verts|);
    ClaimedSameMasks(g, cells, R, p);
    assert ClaimsUpTo(g, R, n + 1) == ClaimsUpTo(g, R, n) + (if Claimed(g, R, p) then [p] else []);
  }

  lemma CornersStep(g: Grid, R: nat, cells: Grid, k: nat, n: nat)
    requires IsGrid(g, R) && n < (R + 1) * (R + 1)
    requires IsGrid(cells, R) && SameShape(g, cells, R)
    requires CornersUpTo(g, R, cells, n) && k == |ClaimsUpTo(g, R, n)|
    ensures var placed := PlaceVertex(cells, R, PosAt(R, n), k);
            SameShape(g, placed.cells, R) && CornersUpTo(g, R, placed.cells, n + 1)
  {
    var p := PosAt(R, n);
    var placed := PlaceVertex(cells, R, p, k);
    var m := n + 1;
    forall x, z, c | 0 <= x < R && 0 <= z < R
      ensures CornerUpTo(g, R, placed.cells, m, x, z, c)
    {
      CornersStepCell(g, R, cells, k, n, x, z, c);
    }
  }

  lemma CornersStepCell(g: Grid, R: nat, cells: Grid, k: nat, n: nat, x: nat, z: nat, c: Corner)
    requires IsGrid(g, R) && n < (R + 1) * (R + 1)
    requires IsGrid(cells, R) && SameShape(g, cells, R)
    requires CornersUpTo(g, R, cells, n) && k == |ClaimsUpTo(g, R, n)|
    requires x < R && z < R
    ensures CornerUpTo(g, R, PlaceVertex(cells, R, PosAt(R, n), k).cells, n + 1, x, z, c)
  {
    var p, cp := PosAt(R, n), CornerPos(x, z, c);
    assert CornerUpTo(g, R, cells, n, x, z, c);
    PlaceVertexCell(cells, R, p, k, x, z, c);
    SameMaskSameCorners(g[x][z], cells[x][z]);
    if Flat(cp, R) == n {
      PosAtFlat(cp, R);
      assert Rank(g, R, cp) == k;
    } else {
      assert cp != p;
    }
  }

  /** Visiting position n extends the walk by one position. */
  lemma CompactStep(g: Grid, R: nat, uVerts: seq<Vec3>, uUVs: seq<UV>,
                    cells: Grid, verts: seq<Vec3>, uvs: seq<UV>, n: nat)
    requires IsGrid(g, R) && UniformLayout(g, R) && n < (R + 1) * (R + 1)
    requires |uVerts| == |uUVs| == (R + 1) * (R + 1)
    requires CompactedUpTo(g, R, uVerts, uUVs, cells, verts, uvs, n)
    ensures var placed := PlaceVertex(cells, R, PosAt(R, n), |verts|);
            && placed.copy < (R + 1) * (R + 1)
            && CompactedUpTo(g, R, uVerts, uUVs, placed.cells,
                             verts + (if placed.copy >= 0 then [uVerts[placed.copy]] else []),
                             uvs + (if placed.copy >= 0 then [uUVs[placed.copy]] else []), n + 1)
  {
    VertsStep(g, R, uVerts, uUVs, cells, verts, uvs, n);
    CornersStep(g, R, cells, |verts|, n);
  }

  /** At the end of the walk every vertex corner names a kept copy of its own uniform vertex. */
  lemma CompactedCorners(g: Grid, R: nat, uVerts: seq<Vec3>, uUVs: seq<UV>,
                         cells: Grid, verts: seq<Vec3>, uvs: seq<UV>)
    requires IsGrid(g, R) && UniformLayout(g, R) && |uVerts| == |uUVs| == (R + 1) * (R + 1)
    requires CompactedUpTo(g, R, uVerts, uUVs, cells, verts, uvs, (R + 1) * (R + 1))
    ensures forall x, z, c :: 0 <= x < R && 0 <= z < R ==>
      cells[x][z].cornerIndex.At(c) ==
        if IsCornerVertex(g[x][z], c) then Rank(g, R, CornerPos(x, z, c)) else g[x][z].cornerIndex.At(c)
    ensures forall x, z, c :: 0 <= x < R && 0 <= z < R && IsCornerVertex(g[x][z], c) ==>
      0 <= cells[x][z].cornerIndex.At(c) < |verts|
      && verts[cells[x][z].cornerIndex.At(c)] == uVerts[g[x][z].uniformCornerIndex.At(c)]
      && uvs[cells[x][z].cornerIndex.At(c)] == uUVs[g[x][z].uniformCornerIndex.At(c)]
  {
    forall x, z, c | 0 <= x < R && 0 <= z < R
      ensures cells[x][z].cornerIndex.At(c) ==
        if IsCornerVertex(g[x][z], c) then Rank(g, R, CornerPos(x, z, c)) else g[x][z].cornerIndex.At(c)
      ensures IsCornerVertex(g[x][z], c) ==>
        0 <= cells[x][z].cornerIndex.At(c) < |verts|
        && verts[cells[x][z].cornerIndex.At(c)] == uVerts[g[x][z].uniformCornerIndex.At(c)]
        && uvs[cells[x][z].cornerIndex.At(c)] == uUVs[g[x][z].uniformCornerIndex.At(c)]
    {
      CompactedCorner(g, R, uVerts, uUVs, cells, verts, uvs, x, z, c);
    }
  }

  lemma CompactedCorner(g: Grid, R: nat, uVerts: seq<Vec3>, uUVs: seq<UV>,
                        cells: Grid, verts: seq<Vec3>, uvs: seq<UV>, x: nat, z: nat, c: Corner)
    requires IsGrid(g, R) && UniformLayout(g, R) && |uVerts| == |uUVs| == (R + 1) * (R + 1)
    requires CompactedUpTo(g, R, uVerts, uUVs, cells, verts, uvs, (R + 1) * (R + 1))
    requires x < R && z < R
    ensures cells[x][z].cornerIndex.At(c) ==
      if IsCornerVertex(g[x][z], c) then Rank(g, R, CornerPos(x, z, c)) else g[x][z].cornerIndex.At(c)
    ensures IsCornerVertex(g[x][z], c) ==>
      0 <= cells[x][z].cornerIndex.At(c) < |verts|
      && verts[cells[x][z].cornerIndex.At(c)] == uVerts[g[x][z].uniformCornerIndex.At(c)]
      && uvs[cells[x][z].cornerIndex.At(c)] == uUVs[g[x][z].uniformCornerIndex.At(c)]
  {
    assert CornerUpTo(g, R, cells, (R + 1) * (R + 1), x, z, c);
    if IsCornerVertex(g[x][z], c) {
      var p := CornerPos(x, z, c);
      CornerClaims(g, R, x, z, c);
      RankIndexesClaims(g, R, p);
      assert g[x][z].uniformCornerIndex.At(c) == Flat(p, R);
    }
  }

    /** Everything Compact promises about its outputs, as one fact. */
  ghost predicate CompactedInto(g: Grid, R: nat, uVerts: seq<Vec3>, uUVs: seq<UV>, cells: Grid, verts: seq<Vec3>, uvs: seq<UV>)
    requires IsGrid(g, R) && UniformLayout(g, R) && |uVerts| == |uUVs| == (R + 1) * (R + 1)
  {
    && IsGrid(cells, R) && SameShape(g, cells, R)
    && |verts| == |uvs| == |Claims(g, R)|
    && (forall i :: 0 <= i < |verts| ==>
          verts[i] == uVerts[Flat(Claims(g, R)[i], R)] && uvs[i] == uUVs[Flat(Claims(g, R)[i], R)])
    && (forall x, z, c :: 0 <= x < R && 0 <= z < R && IsCornerVertex(g[x][z], c) ==>
          0 <= cells[x][z].cornerIndex.At(c) < |verts|
          && verts[cells[x][z].cornerIndex.At(c)] == uVerts[g[x][z].uniformCornerIndex.At(c)]
          && uvs[cells[x][z].cornerIndex.At(c)] == uUVs[g[x][z].uniformCornerIndex.At(c)])
  }

/**
   * PopulateVertsFromTerrainQuadCells: the kept vertices are the uniform
   * vertices at the claimed positions, in row-major order; each vertex
   * corner receives the index of its own position's copy.
   */
  method Compact(g: Grid, R: nat, uVerts: seq<Vec3>, uUVs: seq<UV>) returns (cells: Grid, verts: seq<Vec3>, uvs: seq<UV>)
    requires IsGrid(g, R) && UniformLayout(g, R) && |uVerts| == |uUVs| == (R + 1) * (R + 1)
    ensures IsGrid(cells, R) && SameShape(g, cells, R)
    ensures |verts| == |uvs| == |Claims(g, R)|
    ensures forall i :: 0 <= i < |verts| ==>
      verts[i] == uVerts[Flat(Claims(g, R)[i], R)] && uvs[i] == uUVs[Flat(Claims(g, R)[i], R)]
    ensures forall x, z, c :: 0 <= x < R && 0 <= z < R ==>
      cells[x][z].cornerIndex.At(c) ==
        if IsCornerVertex(g[x][z], c) then Rank(g, R, CornerPos(x, z, c)) else g[x][z].cornerIndex.At(c)
    ensures forall x, z, c :: 0 <= x < R && 0 <= z < R && IsCornerVertex(g[x][z], c) ==>
      0 <= cells[x][z].cornerIndex.At(c) < |verts|
      && verts[cells[x][z].cornerIndex.At(c)] == uVerts[g[x][z].uniformCornerIndex.At(c)]
      && uvs[cells[x][z].cornerIndex.At(c)] == uUVs[g[x][z].uniformCornerIndex.At(c)]
    ensures CompactedInto(g, R, uVerts, uUVs, cells, verts, uvs)
  {
    cells, verts, uvs := Walk(g, R, uVerts, uUVs);
    CompactedCorners(g, R, uVerts, uUVs, cells, verts, uvs);
  }

  /** The row-major walk over the whole lattice, one PlaceVertex per position. */
  method Walk(g: Grid, R: nat, uVerts: seq<Vec3>, uUVs: seq<UV>) returns (cells: Grid, verts: seq<Vec3>, uvs: seq<UV>)
    requires IsGrid(g, R) && UniformLayout(g, R) && |uVerts| == |uUVs| == (R + 1) * (R + 1)
    ensures CompactedUpTo(g, R, uVerts, uUVs, cells, verts, uvs, (R + 1) * (R + 1))
  {
    var V, N := R + 1, (R + 1) * (R + 1);
    cells, verts, uvs := g, [], [];
    var z, n := 0, 0;
    while z < V
      invariant z <= V && n == z * V && n <= N
      invariant CompactedUpTo(g, R, uVerts, uUVs, cells, verts, uvs, n)
    {
      MulMonotone(z + 1, V, V);
      assert n + V == (z + 1) * V;
      var x := 0;
      while x < V
        invariant x <= V && n == z * V + x && n + (V - x) <= N
        invariant CompactedUpTo(g, R, uVerts, uUVs, cells, verts, uvs, n)
      {
        assert Flat(Pos(x, z), R) == n;
        cells, verts, uvs, n := Place(g, R, uVerts, uUVs, cells, verts, uvs, Pos(x, z), n);
        x := x + 1;
      }
      z := z + 1;
    }
    assert n == N;
  }

  /** One visit of the walk: PlaceVertex at p, keeping a copy of p's uniform vertex and UV when it asks for one. */
  method Place(g: Grid, R: nat, uVerts: seq<Vec3>, uUVs: seq<UV>, cells: Grid, verts: seq<Vec3>, uvs: seq<UV>, p: Pos, n: nat)
    returns (cells': Grid, verts': seq<Vec3>, uvs': seq<UV>, next: nat)
    requires IsGrid(g, R) && UniformLayout(g, R) && |uVerts| == |uUVs| == (R + 1) * (R + 1)
    requires p.x <= R && p.z <= R && n == Flat(p, R) && CompactedUpTo(g, R, uVerts, uUVs, cells, verts, uvs, n)
    ensures next == n + 1 && next <= (R + 1) * (R + 1)
    ensures CompactedUpTo(g, R, uVerts, uUVs, cells', verts', uvs', next)
  {
    PosAtFlat(p, R);
    assert PosAt(R, n) == p;
    CompactStep(g, R, uVerts, uUVs, cells, verts, uvs, n);
    var placed := PlaceVertex(cells, R, p, |verts|);
    var copied := placed.copy >= 0;
    cells' := placed.cells;
    verts' := verts + (if copied then [uVerts[placed.copy]] else []);
    uvs' := uvs + (if copied then [uUVs[placed.copy]] else []);
    next := n + 1;
  }
}
