/**
 * The quad-cell grid and the vertex lattice around it. The source keeps the
 * cells in a C# 2-D array indexed [x, z]; here a grid is a sequence of R
 * columns of R cells, so `g[x][z]` reads the same cell. The lattice of
 * (R+1) x (R+1) vertex positions is stored row-major: position (x, z) is
 * entry z * (R+1) + x of every uniform vertex list.
 */
module Grids {
  import opened Outcomes
  import opened QuadCells
  import opened PowersOfTwo

  /** A vertex position or normal. Only the gap corrector looks inside one. */
  datatype Vec3 = Vec3(x: real, y: real, z: real)

  /** A texture coordinate: carried, never inspected. */
  datatype UV = UV(u: real, v: real)

  /** A lattice position (vertex space) or a cell coordinate (cell space). */
  datatype Pos = Pos(x: nat, z: nat)

  type Grid = seq<seq<QuadCell>>

  predicate IsGrid(g: Grid, R: nat)
  {
    |g| == R && forall x :: 0 <= x < R ==> |g[x]| == R
  }

  /** The lattice position of a cell's corner. */
  function CornerPos(x: nat, z: nat, c: Corner): Pos
  {
    match c
    case TopLeft => Pos(x, z + 1)
    case TopRight => Pos(x + 1, z + 1)
    case BottomLeft => Pos(x, z)
    case BottomRight => Pos(x + 1, z)
  }

  /** Index of a lattice position in a row-major (R+1) x (R+1) vertex list. */
  function Flat(p: Pos, R: nat): (i: nat)
    requires p.x <= R && p.z <= R
    ensures i < (R + 1) * (R + 1)
  {
    FlatBound(p, R);
    p.z * (R + 1) + p.x
  }

  lemma FlatBound(p: Pos, R: nat)
    requires p.x <= R && p.z <= R
    ensures p.z * (R + 1) + p.x < (R + 1) * (R + 1)
  {
    assert p.z * (R + 1) <= R * (R + 1);
  }

  /** Row-major indices are one-to-one and invertible. */
  lemma FlatInverse(p: Pos, R: nat)
    requires p.x <= R && p.z <= R
    ensures Flat(p, R) / (R + 1) == p.z && Flat(p, R) % (R + 1) == p.x
  {
    DivInBlock(Flat(p, R), R + 1, p.z);
  }

  /** Every cell of the grid has the uniform corner indices of its own corners. */
  predicate UniformLayout(g: Grid, R: nat)
    requires IsGrid(g, R)
  {
    forall x, z, c :: 0 <= x < R && 0 <= z < R ==>
      g[x][z].uniformCornerIndex.At(c) == Flat(CornerPos(x, z, c), R)
  }

  /** Every cell of the grid is single (no edge bits): the uniform mesh. */
  predicate AllSingle(g: Grid, R: nat)
    requires IsGrid(g, R)
  {
    forall x, z :: 0 <= x < R && 0 <= z < R ==> IsCellSingleQuad(g[x][z])
  }

  /** Two grids agree on every edge mask. */
  predicate SameMasks(g: Grid, h: Grid, R: nat)
    requires IsGrid(g, R) && IsGrid(h, R)
  {
    forall x, z :: 0 <= x < R && 0 <= z < R ==> g[x][z].edges == h[x][z].edges
  }

  // ---------------------------------------------------------------------------
  // The BottomLeft / BottomRight scan shared by the index builder and the gap
  // corrector, and the closure property the optimiser establishes for it
  // ---------------------------------------------------------------------------

  /** The first cell at or right of x on row z that has a BottomRight vertex. */
  function FirstBottomRight(g: Grid, R: nat, x: nat, z: nat): (r: Option<nat>)
    requires IsGrid(g, R) && x <= R && z < R
    ensures r.Some? ==> x <= r.value < R && IsCornerVertex(g[r.value][z], BottomRight)
    ensures r.Some? ==> forall x' :: x <= x' < r.value ==> !IsCornerVertex(g[x'][z], BottomRight)
    ensures r.None? ==> forall x' :: x <= x' < R ==> !IsCornerVertex(g[x'][z], BottomRight)
    decreases R - x
  {
    if x == R then None
    else if IsCornerVertex(g[x][z], BottomRight) then Some(x)
    else FirstBottomRight(g, R, x + 1, z)
  }

  /** The scan's answer is determined by the masks alone. */
  lemma {:induction false} FirstBottomRightSameMasks(g: Grid, h: Grid, R: nat, x: nat, z: nat)
    requires IsGrid(g, R) && IsGrid(h, R) && SameMasks(g, h, R) && x <= R && z < R
    ensures FirstBottomRight(g, R, x, z) == FirstBottomRight(h, R, x, z)
    decreases R - x
  {
    if x < R {
      assert g[x][z].edges == h[x][z].edges;
      FirstBottomRightSameMasks(g, h, R, x + 1, z);
    }
  }

  /** The side length minus one of the quad starting at (x, z): 0 when no BottomRight is found. */
  function QuadLength(g: Grid, R: nat, x: nat, z: nat): nat
    requires IsGrid(g, R) && x < R && z < R
  {
    match FirstBottomRight(g, R, x, z)
    case Some(bx) => bx - x
    case None => 0
  }

  /**
   * The quad length is the distance from x to the first BottomRight vertex
   * at or right of it, or 0 when the row has none: the cell it points at is
   * inside the grid, and it is a BottomRight vertex unless the row has none.
   */
  lemma QuadLengthScan(g: Grid, R: nat, x: nat, z: nat)
    requires IsGrid(g, R) && x < R && z < R
    ensures var L := QuadLength(g, R, x, z);
            && x + L < R
            && (forall x' :: x <= x' < x + L ==> !IsCornerVertex(g[x'][z], BottomRight))
            && (IsCornerVertex(g[x + L][z], BottomRight) || (L == 0 && forall x' :: x <= x' < R ==> !IsCornerVertex(g[x'][z], BottomRight)))
  {
  }

  /**
   * The quad whose BottomLeft is cell (x, z) is sealed: a BottomRight is found
   * on its row, and the cells that length above it are its TopLeft and
   * TopRight corners.
   */
  predicate QuadCloses(g: Grid, R: nat, x: nat, z: nat)
    requires IsGrid(g, R) && x < R && z < R
  {
    var f := FirstBottomRight(g, R, x, z);
    && f.Some?
    && z + (f.value - x) < R
    && IsCornerVertex(g[x][z + (f.value - x)], TopLeft)
    && IsCornerVertex(g[f.value][z + (f.value - x)], TopRight)
  }

  /** A quad closes once its BottomRight scan stops at e and the two top corners of the square it spans are vertices. */
  lemma ClosesAt(g: Grid, R: nat, x: nat, z: nat, e: nat)
    requires IsGrid(g, R) && x < R && z < R && FirstBottomRight(g, R, x, z) == Some(e)
    requires z + (e - x) < R && IsCornerVertex(g[x][z + (e - x)], TopLeft) && IsCornerVertex(g[e][z + (e - x)], TopRight)
    ensures QuadCloses(g, R, x, z)
  {
  }

  /** Every quad of the grid closes: no "region not sealed" case can arise. */
  predicate Sealed(g: Grid, R: nat)
    requires IsGrid(g, R)
  {
    forall x, z :: 0 <= x < R && 0 <= z < R && IsCornerVertex(g[x][z], BottomLeft) ==> QuadCloses(g, R, x, z)
  }

  lemma SealedSameMasks(g: Grid, h: Grid, R: nat)
    requires IsGrid(g, R) && IsGrid(h, R) && SameMasks(g, h, R) && Sealed(g, R)
    ensures Sealed(h, R)
  {
    forall x, z | 0 <= x < R && 0 <= z < R && IsCornerVertex(h[x][z], BottomLeft)
      ensures QuadCloses(h, R, x, z)
    {
      QuadClosesSameMasks(g, h, R, x, z);
    }
  }

  lemma QuadClosesSameMasks(g: Grid, h: Grid, R: nat, x: nat, z: nat)
    requires IsGrid(g, R) && IsGrid(h, R) && SameMasks(g, h, R) && Sealed(g, R)
    requires x < R && z < R && IsCornerVertex(h[x][z], BottomLeft)
    ensures QuadCloses(h, R, x, z)
  {
    SameMaskSameCorners(g[x][z], h[x][z]);
    assert QuadCloses(g, R, x, z);
    FirstBottomRightSameMasks(g, h, R, x, z);
    var e := FirstBottomRight(g, R, x, z).value;
    var zt := z + (e - x);
    assert zt < R && IsCornerVertex(g[x][zt], TopLeft) && IsCornerVertex(g[e][zt], TopRight);
    SameMaskSameCorners(g[x][zt], h[x][zt]);
    SameMaskSameCorners(g[e][zt], h[e][zt]);
    ClosesAt(h, R, x, z, e);
  }

  /** Whether a corner is a vertex depends on the mask alone. */
  lemma SameMaskSameCorners(a: QuadCell, b: QuadCell)
    requires a.edges == b.edges
    ensures forall c :: IsCornerVertex(a, c) == IsCornerVertex(b, c)
  {
  }

  /** Every vertex corner of the grid has a compacted index below n. */
  predicate CornersIndexed(g: Grid, R: nat, n: nat)
    requires IsGrid(g, R)
  {
    forall x, z, c :: 0 <= x < R && 0 <= z < R && IsCornerVertex(g[x][z], c) ==>
      0 <= g[x][z].cornerIndex.At(c) < n
  }
}
