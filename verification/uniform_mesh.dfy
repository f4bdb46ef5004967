/**
 * The uniform (unsimplified) mesh: an (R+1) x (R+1) vertex lattice, two
 * triangles per cell and a fresh quad-cell grid (GenerateUniformMesh).
 * Vertex positions and texture coordinates come from the caller as
 * functions of the lattice position; the float arithmetic that computes them
 * from the size, amplitude and sampled height is not modelled.
 */
module UniformMesh {
  import opened QuadCells
  import opened Grids

  /** The six indices the builders emit for a quad: TL, BL, BR, then TL, BR, TR. */
  function QuadTriangles(q: Corners): (r: seq<int>)
    ensures |r| == 6
    ensures forall k :: 0 <= k < 6 ==> r[k] in {q.topLeft, q.topRight, q.bottomLeft, q.bottomRight}
  {
    [q.topLeft, q.bottomLeft, q.bottomRight, q.topLeft, q.bottomRight, q.topRight]
  }

  /** Fresh cell [x, z]: single, nothing emitted, and naming the lattice indices of its own corners. */
  function UniformCell(R: nat, x: nat, z: nat): (cell: QuadCell)
    requires x < R && z < R
    ensures IsCellSingleQuad(cell)
    ensures forall c :: cell.cornerIndex.At(c) == Unset
    ensures forall c :: cell.uniformCornerIndex.At(c) == Flat(CornerPos(x, z, c), R)
  {
    var V := R + 1;
    NewCell((z + 1) * V + x, (z + 1) * V + x + 1, z * V + x, z * V + x + 1)
  }

  /** The fresh grid: cell [x, z] has the lattice indices of its four corners. */
  function UniformCells(R: nat): (g: Grid)
    ensures IsGrid(g, R) && UniformLayout(g, R)
    ensures forall x, z :: 0 <= x < R && 0 <= z < R ==> IsCellSingleQuad(g[x][z])
    ensures forall x, z, c :: 0 <= x < R && 0 <= z < R ==> g[x][z].cornerIndex.At(c) == Unset
  {
    seq(R, x requires 0 <= x < R => seq(R, z requires 0 <= z < R => UniformCell(R, x, z)))
  }

  /** A row-major (R+1) x (R+1) list of per-position payloads. */
  function Lattice<T>(R: nat, at: (nat, nat) -> T): (r: seq<T>)
    ensures |r| == (R + 1) * (R + 1)
  {
    var V := R + 1;
    seq(V * V, i requires 0 <= i < V * V => at(i % V, i / V))
  }

  /** The lattice holds position (x, z)'s payload at its row-major index. */
  lemma LatticeAt<T>(R: nat, at: (nat, nat) -> T, p: Pos)
    requires p.x <= R && p.z <= R
    ensures Lattice(R, at)[Flat(p, R)] == at(p.x, p.z)
  {
    FlatInverse(p, R);
  }

  /** The uniform index buffer for cells x' < x of row z. */
  function RowIndices(g: Grid, R: nat, z: nat, x: nat): (r: seq<int>)
    requires IsGrid(g, R) && UniformLayout(g, R) && z < R && x <= R
    ensures |r| == 6 * x
    ensures forall k :: 0 <= k < |r| ==> 0 <= r[k] < (R + 1) * (R + 1)
  {
    if x == 0 then []
    else
      var u := g[x - 1][z].uniformCornerIndex;
      assert forall c :: 0 <= u.At(c) < (R + 1) * (R + 1) by {
        forall c ensures 0 <= u.At(c) < (R + 1) * (R + 1) {
          assert u.At(c) == Flat(CornerPos(x - 1, z, c), R);
        }
      }
      assert u.topLeft == u.At(TopLeft) && u.topRight == u.At(TopRight);
      assert u.bottomLeft == u.At(BottomLeft) && u.bottomRight == u.At(BottomRight);
      RowIndices(g, R, z, x - 1) + QuadTriangles(u)
  }

  /** The six-index runs of the cells of row z left of column x: run j is the two triangles of cell (j, z). */
  function RowRuns(g: Grid, R: nat, z: nat, x: nat): (runs: seq<seq<int>>)
    requires IsGrid(g, R) && z < R && x <= R
    ensures |runs| == x && forall j :: 0 <= j < x ==> runs[j] == QuadTriangles(g[j][z].uniformCornerIndex)
  {
    seq(x, j requires 0 <= j < x => QuadTriangles(g[j][z].uniformCornerIndex))
  }

  /** Run j of six in the row's buffer is the two triangles of cell (j, z). */
  lemma {:induction false} RowIndicesQuads(g: Grid, R: nat, z: nat, x: nat)
    requires IsGrid(g, R) && UniformLayout(g, R) && z < R && x <= R
    ensures forall j :: 0 <= j < x ==> RowIndices(g, R, z, x)[6 * j .. 6 * j + 6] == RowRuns(g, R, z, x)[j]
  {
    if x > 0 {
      RowIndicesQuads(g, R, z, x - 1);
      var prev := RowIndices(g, R, z, x - 1);
      var runs := RowRuns(g, R, z, x);
      assert forall j :: 0 <= j < x - 1 ==> RowRuns(g, R, z, x - 1)[j] == runs[j];
      RunsAppend(RowIndices(g, R, z, x), prev, runs, x - 1);
    }
  }

  /** Appending run n to a buffer holding runs 0 .. n-1 gives a buffer holding runs 0 .. n. */
  lemma RunsAppend(all: seq<int>, prev: seq<int>, runs: seq<seq<int>>, n: nat)
    requires |prev| == 6 * n && |runs| == n + 1 && |runs[n]| == 6 && all == prev + runs[n]
    requires forall j :: 0 <= j < n ==> prev[6 * j .. 6 * j + 6] == runs[j]
    ensures forall j :: 0 <= j <= n ==> all[6 * j .. 6 * j + 6] == runs[j]
  {
    forall j | 0 <= j <= n ensures all[6 * j .. 6 * j + 6] == runs[j] {
      if j < n {
        assert all[6 * j .. 6 * j + 6] == prev[6 * j .. 6 * j + 6];
      } else {
        assert all[6 * j .. 6 * j + 6] == runs[n];
      }
    }
  }

  /** The uniform index buffer for rows below z. */
  function RowsIndices(g: Grid, R: nat, z: nat): (r: seq<int>)
    requires IsGrid(g, R) && UniformLayout(g, R) && z <= R
    ensures |r| == 6 * R * z
    ensures forall k :: 0 <= k < |r| ==> 0 <= r[k] < (R + 1) * (R + 1)
  {
    if z == 0 then []
    else RowsIndices(g, R, z - 1) + RowIndices(g, R, z - 1, R)
  }

  datatype UniformMeshData = UniformMeshData(verts: seq<Vec3>, uvs: seq<UV>, indices: seq<int>, cells: Grid)

  /**
   * GenerateUniformMesh: (R+1)^2 vertices and UVs, 6 R^2 indices all naming a
   * lattice vertex, and a fresh grid whose cells name their own corners.
   */
  function GenerateUniformMesh(R: nat, vertexAt: (nat, nat) -> Vec3, uvAt: (nat, nat) -> UV): (m: UniformMeshData)
    ensures |m.verts| == |m.uvs| == (R + 1) * (R + 1)
    ensures |m.indices| == 6 * R * R
    ensures forall k :: 0 <= k < |m.indices| ==> 0 <= m.indices[k] < |m.verts|
    ensures IsGrid(m.cells, R) && UniformLayout(m.cells, R)
    ensures forall x, z :: 0 <= x < R && 0 <= z < R ==> IsCellSingleQuad(m.cells[x][z])
    ensures forall x, z, c :: 0 <= x < R && 0 <= z < R ==> m.cells[x][z].cornerIndex.At(c) == Unset
  {
    var cells := UniformCells(R);
    UniformMeshData(Lattice(R, vertexAt), Lattice(R, uvAt), RowsIndices(cells, R, R), cells)
  }

  /** Cell [x-1, z-1] gets TL = zV+x-1, TR = zV+x, BL = (z-1)V+x-1, BR = (z-1)V+x. */
  lemma UniformCellCorners(R: nat, x: nat, z: nat)
    requires 1 <= x <= R && 1 <= z <= R
    ensures var V := R + 1;
            var u := UniformCells(R)[x - 1][z - 1].uniformCornerIndex;
            && u.topLeft == z * V + x - 1 && u.topRight == z * V + x
            && u.bottomLeft == (z - 1) * V + x - 1 && u.bottomRight == (z - 1) * V + x
  {
  }
}
