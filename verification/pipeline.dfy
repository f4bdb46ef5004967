/**
 * The TerrainMeshData constructor: the uniform mesh, the quadtree
 * simplification, vertex compaction, the index and chunk look-up lists,
 * smooth normals, and the T-junction correction, in that order.
 */
module MeshData {
  import opened Outcomes
  import opened PowersOfTwo
  import opened QuadCells
  import opened Grids
  import opened UniformMesh
  import opened Optimiser
  import opened Compactor
  import opened IndexBuilder
  import opened GapCorrector
  import opened ChunkSplit
  import opened Settings

  /**
   * GenerateSmoothNormals, per vertex: the normal of vertex i given the vertex
   * and index lists. Its float arithmetic is not modelled.
   */
  type NormalRule = (seq<Vec3>, seq<int>, nat) -> Vec3

  /** One normal per vertex. */
  function SmoothNormals(verts: seq<Vec3>, indices: seq<int>, rule: NormalRule): (r: seq<Vec3>)
    ensures |r| == |verts|
  {
    seq(|verts|, i requires 0 <= i < |verts| => rule(verts, indices, i))
  }

  /**
   * GenerateSmoothNormals' reads, triangle by triangle from offset t: the
   * three index reads of a triangle, then its vertex and normal reads. The
   * first read that would throw, or None when none does.
   */
  function TriangleReads(indices: seq<int>, n: nat, t: nat): (r: Option<MeshError>)
    requires t <= |indices|
    ensures r.None? <==> (|indices| - t) % 3 == 0 && forall k :: t <= k < |indices| ==> 0 <= indices[k] < n
    ensures r.Some? ==> r.value in {IndexListOutOfRange, VertexOutOfRange}
    ensures r == Some(IndexListOutOfRange) ==> (|indices| - t) % 3 != 0
    decreases |indices| - t
  {
    if t == |indices| then None
    else if t + 2 >= |indices| then Some(IndexListOutOfRange)
    else if !(0 <= indices[t] < n && 0 <= indices[t + 1] < n && 0 <= indices[t + 2] < n) then Some(VertexOutOfRange)
    else
      ThreeFewer(|indices| - t, |indices| - (t + 3));
      TriangleReads(indices, n, t + 3)
  }

  /** Three fewer keep the count's remainder modulo 3. */
  lemma ThreeFewer(n: nat, m: nat)
    requires m + 3 == n
    ensures m % 3 == n % 3
  {
  }

  /** Whole quads are whole triangles. */
  lemma SixsAreThrees(n: nat)
    requires n % 6 == 0
    ensures n % 3 == 0
  {
    assert n == 3 * (2 * (n / 6));
  }

  /**
   * GenerateSmoothNormals: it throws when a triangle is cut short or names
   * an index outside the vertex list, and otherwise gives one normal per
   * vertex.
   */
  function Normals(verts: seq<Vec3>, indices: seq<int>, rule: NormalRule): (r: Result<seq<Vec3>>)
    ensures r.Ok? <==> |indices| % 3 == 0 && forall k :: 0 <= k < |indices| ==> 0 <= indices[k] < |verts|
    ensures r.Err? ==> r.error in {IndexListOutOfRange, VertexOutOfRange}
    ensures r == Err(IndexListOutOfRange) ==> |indices| % 3 != 0
    ensures r.Ok? ==> |r.value| == |verts| && forall i :: 0 <= i < |verts| ==> r.value[i] == rule(verts, indices, i)
  {
    match TriangleReads(indices, |verts|, 0)
    case Some(e) => Err(e)
    case None => Ok(SmoothNormals(verts, indices, rule))
  }

  /**
   * What SplitMeshAtChunk relies on: one UV and one normal per vertex, every
   * index names a vertex, one look-up list per chunk, and every look-up
   * entry is the offset of a quad laid out as TL, BL, BR, TL, BR, TR.
   */
  ghost predicate WellBuilt(m: TerrainMesh)
  {
    && |m.verts| == |m.uvs| == |m.normals|
    && |m.indices| % 6 == 0
    && (forall k :: 0 <= k < |m.indices| ==> 0 <= m.indices[k] < |m.verts|)
    && |m.lookup| == m.chunkCount * m.chunkCount
    && (forall id, j :: 0 <= id < |m.lookup| && 0 <= j < |m.lookup[id]| ==>
          m.lookup[id][j] % 6 == 0 && TriangleLayout(m, m.lookup[id][j]))
  }

  /** The simplifier keeps every cell's corner indices, so it keeps the uniform layout. */
  lemma OptimisedLayout(g: Grid, R: nat, cr: nat, fl: Flatness)
    requires IsGrid(g, R) && IsPow2(R) && UniformLayout(g, R)
    ensures UniformLayout(Optimise(g, R, cr, fl, R, 0, 0), R)
  {
    var o: Grid := Optimise(g, R, cr, fl, R, 0, 0);
    forall x, z, c: Corner | 0 <= x < R && 0 <= z < R
      ensures o[x][z].uniformCornerIndex.At(c) == Flat(CornerPos(x, z, c), R)
    {
      assert SameCorners(o[x][z], g[x][z]);
    }
  }

  /** Compaction gives every vertex corner an index into the compacted vertex list. */
  lemma CompactedIndexed(g: Grid, cells: Grid, R: nat, n: nat)
    requires IsGrid(g, R) && IsGrid(cells, R) && SameMasks(g, cells, R)
    requires forall x, z, c :: 0 <= x < R && 0 <= z < R && IsCornerVertex(g[x][z], c) ==>
      0 <= cells[x][z].cornerIndex.At(c) < n
    ensures CornersIndexed(cells, R, n)
  {
    forall x, z, c | 0 <= x < R && 0 <= z < R && IsCornerVertex(cells[x][z], c)
      ensures 0 <= cells[x][z].cornerIndex.At(c) < n
    {
      SameMaskSameCorners(g[x][z], cells[x][z]);
    }
  }

  /** Described look-up entries are offsets of six-entry quads in the builders' layout. */
  lemma DescribedLayout(g: Grid, R: nat, cr: nat, cc: nat, qs: seq<Pos>, b: Built, m: TerrainMesh)
    requires IsGrid(g, R) && cr > 0
    requires forall j :: 0 <= j < |qs| ==> qs[j].x < R && qs[j].z < R && QuadFits(g, R, qs[j])
    requires Describes(g, R, cr, cc, qs, b)
    requires m.indices == b.indices && m.lookup == b.lookup
    ensures forall id, j :: 0 <= id < |m.lookup| && 0 <= j < |m.lookup[id]| ==>
      m.lookup[id][j] % 6 == 0 && TriangleLayout(m, m.lookup[id][j])
  {
    forall id, j | 0 <= id < |m.lookup| && 0 <= j < |m.lookup[id]|
      ensures m.lookup[id][j] % 6 == 0 && TriangleLayout(m, m.lookup[id][j])
    {
      var q := m.lookup[id][j];
      var k := q / 6;
      assert q == 6 * k && k < |qs|;
      var six := b.indices[6 * k .. 6 * k + 6];
      assert six == QuadTriangles(QuadCorners(g, R, qs[k]));
      assert m.indices[q] == six[0] && m.indices[q + 3] == six[3];
      assert m.indices[q + 2] == six[2] && m.indices[q + 4] == six[4];
    }
  }

  /** On a sealed grid whose corners are indexed below n, every quad start reads four corners below n. */
  lemma SealedCornersBelow(g: Grid, R: nat, n: nat)
    requires IsGrid(g, R) && Sealed(g, R) && CornersIndexed(g, R, n)
    ensures forall j :: 0 <= j < |QuadStarts(g, R)| ==>
      QuadFits(g, R, QuadStarts(g, R)[j]) && CornersBelow(QuadCorners(g, R, QuadStarts(g, R)[j]), n)
  {
    var qs := QuadStarts(g, R);
    forall j | 0 <= j < |qs|
      ensures QuadFits(g, R, qs[j]) && CornersBelow(QuadCorners(g, R, qs[j]), n)
    {
      assert QuadCloses(g, R, qs[j].x, qs[j].z);
      QuadCornersIndexed(g, R, n, qs[j]);
    }
  }

  /** A successful build over quads whose corners are all below |verts| yields a mesh SplitMeshAtChunk can read. */
  lemma BuiltIsWellBuilt(g: Grid, R: nat, cr: nat, cc: nat, b: Built, m: TerrainMesh)
    requires IsGrid(g, R) && cr > 0
    requires forall j :: 0 <= j < |QuadStarts(g, R)| ==>
      QuadFits(g, R, QuadStarts(g, R)[j]) && CornersBelow(QuadCorners(g, R, QuadStarts(g, R)[j]), |m.verts|)
    requires BuildIndices(g, R, cr, cc) == Ok(b)
    requires m.indices == b.indices && m.lookup == b.lookup && m.chunkCount == cc
    requires |m.verts| == |m.uvs| == |m.normals|
    ensures WellBuilt(m)
  {
    var qs := QuadStarts(g, R);
    BuildUpToDescribes(g, R, cr, cc, R * R);
    DescribedIndicesInRange(g, R, cr, cc, |m.verts|, qs, b);
    DescribedLayout(g, R, cr, cc, qs, b, m);
  }

  /** A grid of single cells, compacted, keeps every lattice vertex in lattice order. */
  lemma SingleCellsKeepLattice<T>(g: Grid, R: nat, uniform: seq<T>, verts: seq<T>)
    requires IsGrid(g, R) && R >= 1 && AllSingle(g, R) && |uniform| == (R + 1) * (R + 1)
    requires |verts| == |Claims(g, R)|
    requires forall i :: 0 <= i < |verts| ==> verts[i] == uniform[Flat(Claims(g, R)[i], R)]
    ensures verts == uniform
  {
    SingleCellsClaimsUpTo(g, R, (R + 1) * (R + 1));
  }

  /** A grid of single cells has a quad at its first cell, so a chunk resolution of 0 fails there. */
  lemma NarrowFails(cells: Grid, R: nat, cc: nat)
    requires IsGrid(cells, R) && R >= 1 && AllSingle(cells, R)
    ensures BuildIndices(cells, R, 0, cc) == Err(DivideByZero)
  {
    assert StartsQuad(cells, R, Pos(0, 0)) by {
      assert IsCellSingleQuad(cells[0][0]);
    }
    ZeroChunkResolutionFails(cells, R, cc, R * R);
  }

  lemma AllSingleSameMasks(g: Grid, h: Grid, R: nat)
    requires IsGrid(g, R) && IsGrid(h, R) && SameMasks(g, h, R) && AllSingle(g, R)
    ensures AllSingle(h, R)
  {
    forall x, z | 0 <= x < R && 0 <= z < R ensures IsCellSingleQuad(h[x][z]) {
      assert g[x][z].edges == h[x][z].edges;
    }
  }

  /** What the index builder and the corrector need of the compacted grid. */
  ghost predicate Ready(cells: Grid, R: nat, n: nat)
    requires IsGrid(cells, R)
  {
    Sealed(cells, R) && CornersIndexed(cells, R, n)
  }

  /**
   * The constructor's first half: the uniform mesh, the simplification with
   * chunk resolution cr, and compaction. The result is sealed, its vertex
   * corners index the compacted lists, and without any merge it is the
   * uniform mesh itself.
   */
  method Simplify(R: nat, cr: nat, vertexAt: (nat, nat) -> Vec3, uvAt: (nat, nat) -> UV, fl: Flatness)
    returns (cells: Grid, verts: seq<Vec3>, uvs: seq<UV>)
    requires IsPow2(R)
    ensures IsGrid(cells, R) && Ready(cells, R, |verts|)
    ensures |verts| == |uvs|
    ensures cr < 2 || NeverFlat(fl) ==> AllSingle(cells, R)
    ensures NeverFlat(fl) ==> verts == Lattice(R, vertexAt) && uvs == Lattice(R, uvAt)
  {
    var u, g, uVerts, uUVs := Optimised(R, cr, vertexAt, uvAt, fl);
    cells, verts, uvs := Compact(g, R, uVerts, uUVs);
    CompactedFacts(u, g, R, cr, fl, uVerts, uUVs, cells, verts, uvs);
  }

  /** The uniform mesh and its simplification, before compaction. */
  method Optimised(R: nat, cr: nat, vertexAt: (nat, nat) -> Vec3, uvAt: (nat, nat) -> UV, fl: Flatness)
    returns (u: Grid, g: Grid, uVerts: seq<Vec3>, uUVs: seq<UV>)
    requires IsPow2(R)
    ensures IsGrid(u, R) && AllSingle(u, R) && UniformLayout(u, R)
    ensures g == Optimise(u, R, cr, fl, R, 0, 0) && IsGrid(g, R) && UniformLayout(g, R)
    ensures uVerts == Lattice(R, vertexAt) && uUVs == Lattice(R, uvAt)
  {
    var uniform := GenerateUniformMesh(R, vertexAt, uvAt);
    u, g, uVerts, uUVs := uniform.cells, Optimise(uniform.cells, R, cr, fl, R, 0, 0), uniform.verts, uniform.uvs;
    OptimisedLayout(u, R, cr, fl);
  }

  /** What Simplify promises, from what the simplifier and Compact promise. */
  lemma CompactedFacts(u: Grid, g: Grid, R: nat, cr: nat, fl: Flatness, uVerts: seq<Vec3>, uUVs: seq<UV>,
                       cells: Grid, verts: seq<Vec3>, uvs: seq<UV>)
    requires IsGrid(u, R) && IsPow2(R) && AllSingle(u, R) && UniformLayout(u, R)
    requires g == Optimise(u, R, cr, fl, R, 0, 0)
    requires |uVerts| == |uUVs| == (R + 1) * (R + 1)
    requires UniformLayout(g, R) && CompactedInto(g, R, uVerts, uUVs, cells, verts, uvs)
    ensures Ready(cells, R, |verts|)
    ensures cr < 2 || NeverFlat(fl) ==> AllSingle(cells, R)
    ensures NeverFlat(fl) ==> verts == uVerts && uvs == uUVs
  {
    Pow2Positive(R);
    OptimisedIsSealed(u, R, cr, fl);
    OptimisedLayout(u, R, cr, fl);
    UniformLayoutSameShape(g, cells, R);
    SealedSameMasks(g, cells, R);
    CompactedIndexed(g, cells, R, |verts|);
    if cr < 2 || NeverFlat(fl) {
      if cr < 2 {
        NarrowChunksKeepGrid(u, R, cr, fl);
      } else {
        NeverFlatKeepsGrid(u, R, cr, fl);
      }
      AllSingleSameMasks(g, cells, R);
      if NeverFlat(fl) {
        SingleCellsKeepLattice(g, R, uVerts, verts);
        SingleCellsKeepLattice(g, R, uUVs, uvs);
      }
    }
  }


  /**
   * The constructor's second half: the index and look-up lists, smooth
   * normals over them, and the T-junction correction. It divides by zero
   * only with a chunk resolution of 0; any other failure is a bad cell,
   * chunk or vertex index. A success names only vertices of the list and
   * keeps the vertex count, every vertex's X and Z, and the UVs.
   */
  function Finish(cells: Grid, R: nat, cr: nat, cc: nat, verts: seq<Vec3>, uvs: seq<UV>, rule: NormalRule): (r: Result<TerrainMesh>)
    requires IsGrid(cells, R) && IsPow2(R)
    ensures r == Err(DivideByZero) ==> cr == 0
    ensures r.Err? ==> r.error in {DivideByZero, CellOutOfRange, ChunkListOutOfRange, VertexOutOfRange}
    ensures r.Ok? ==> |r.value.verts| == |verts| && r.value.uvs == uvs && r.value.chunkCount == cc
    ensures r.Ok? ==> forall i :: 0 <= i < |verts| ==> r.value.verts[i].x == verts[i].x && r.value.verts[i].z == verts[i].z
    ensures r.Ok? ==> forall k :: 0 <= k < |r.value.indices| ==> 0 <= r.value.indices[k] < |verts|
  {
    var built :- BuildIndices(cells, R, cr, cc);
    SixsAreThrees(|built.indices|);
    var normals :- Normals(verts, built.indices, rule);
    var corrected :- CorrectGaps(Surface(verts, normals), cells, R, R);
    Ok(TerrainMesh(corrected.verts, uvs, corrected.normals, built.indices, built.lookup, cc))
  }

  /** With chunks tiling the grid, a sealed and indexed grid always finishes. */
  lemma FinishOk(cells: Grid, R: nat, cr: nat, cc: nat, verts: seq<Vec3>, uvs: seq<UV>, rule: NormalRule)
    requires IsGrid(cells, R) && IsPow2(R) && Ready(cells, R, |verts|)
    requires cr > 0 && cr * cc == R
    ensures Finish(cells, R, cr, cc, verts, uvs, rule).Ok?
  {
    BuildIndicesSealed(cells, R, cr, cc, |verts|);
    var built := BuildIndices(cells, R, cr, cc).value;
    var normals := Normals(verts, built.indices, rule);
    assert normals.Ok?;
    assert WellFormed(Surface(verts, normals.value));
  }

  /** Whatever finishes is a mesh SplitMeshAtChunk can read, with one UV per vertex. */
  lemma FinishWellBuilt(cells: Grid, R: nat, cr: nat, cc: nat, verts: seq<Vec3>, uvs: seq<UV>, rule: NormalRule)
    requires IsGrid(cells, R) && IsPow2(R) && Ready(cells, R, |verts|)
    requires |verts| == |uvs| && cr > 0
    requires Finish(cells, R, cr, cc, verts, uvs, rule).Ok?
    ensures WellBuilt(Finish(cells, R, cr, cc, verts, uvs, rule).value)
    ensures Finish(cells, R, cr, cc, verts, uvs, rule).value.chunkCount == cc
  {
    var built := BuildIndices(cells, R, cr, cc).value;
    SealedCornersBelow(cells, R, |verts|);
    BuiltIsWellBuilt(cells, R, cr, cc, built, Finish(cells, R, cr, cc, verts, uvs, rule).value);
  }

  /** A grid of single cells keeps its vertices: the corrector has no merged quad to correct against. */
  lemma FinishSingle(cells: Grid, R: nat, cr: nat, cc: nat, verts: seq<Vec3>, uvs: seq<UV>, rule: NormalRule)
    requires IsGrid(cells, R) && IsPow2(R) && AllSingle(cells, R)
    ensures cr == 0 ==> Finish(cells, R, cr, cc, verts, uvs, rule) == Err(DivideByZero)
    ensures Finish(cells, R, cr, cc, verts, uvs, rule).Ok? ==>
      Finish(cells, R, cr, cc, verts, uvs, rule).value.verts == verts && Finish(cells, R, cr, cc, verts, uvs, rule).value.uvs == uvs
  {
    Pow2Positive(R);
    if cr == 0 {
      NarrowFails(cells, R, cc);
    }
  }

  /** Everything the constructor promises about its second half. */
  lemma FinishFacts(cells: Grid, R: nat, cc: nat, verts: seq<Vec3>, uvs: seq<UV>, rule: NormalRule)
    requires IsGrid(cells, R) && IsPow2(R) && Ready(cells, R, |verts|) && |verts| == |uvs| && cc > 0
    requires cc > R ==> AllSingle(cells, R)
    ensures var r := Finish(cells, R, R / cc, cc, verts, uvs, rule);
            && (ValidConfig(R, cc) ==> r.Ok?)
            && (cc > R ==> r == Err(DivideByZero))
            && (r == Err(DivideByZero) ==> cc > R)
            && (r.Ok? ==> WellBuilt(r.value) && r.value.chunkCount == cc)
            && (r.Ok? && AllSingle(cells, R) ==> r.value.verts == verts && r.value.uvs == uvs)
  {
    var cr := R / cc;
    if ValidConfig(R, cc) {
      Pow2Quotient(cc, R);
      Pow2Positive(R / cc);
      FinishOk(cells, R, cr, cc, verts, uvs, rule);
    }
    if cc > R {
      DivInBlock(R, cc, 0);
    }
    if cr == 0 || AllSingle(cells, R) {
      FinishSingle(cells, R, cr, cc, verts, uvs, rule);
    }
    if Finish(cells, R, cr, cc, verts, uvs, rule).Ok? && cr > 0 {
      FinishWellBuilt(cells, R, cr, cc, verts, uvs, rule);
    }
  }

  /**
   * The constructor. The resolution is a power of two (the editor's setters
   * guarantee it); the chunk count is whatever the caller passed.
   */
  method Generate(R: nat, cc: nat, vertexAt: (nat, nat) -> Vec3, uvAt: (nat, nat) -> UV, fl: Flatness, rule: NormalRule)
    returns (r: Result<TerrainMesh>)
    requires IsPow2(R)
    ensures ValidConfig(R, cc) ==> r.Ok?
    ensures cc == 0 || cc > R ==> r == Err(DivideByZero)
    ensures r == Err(DivideByZero) ==> cc == 0 || cc > R
    ensures r.Ok? ==> WellBuilt(r.value) && r.value.chunkCount == cc
    ensures r.Ok? && NeverFlat(fl) ==> r.value.verts == Lattice(R, vertexAt) && r.value.uvs == Lattice(R, uvAt)
  {
    if cc == 0 {
      return Err(DivideByZero);
    }
    var cr := R / cc;
    if cc > R {
      DivInBlock(R, cc, 0);
    }
    var cells, verts, uvs := Simplify(R, cr, vertexAt, uvAt, fl);
    FinishFacts(cells, R, cc, verts, uvs, rule);
    r := Finish(cells, R, cr, cc, verts, uvs, rule);
  }

  /**
   * A mesh the constructor built can be split at every chunk of its grid:
   * the split succeeds, and mapping the chunk's indices back to global
   * vertices gives exactly the six-index runs its look-up entry names.
   */
  lemma WellBuiltChunksSplit(m: TerrainMesh, cx: int, cz: int, origin: Vec3)
    requires WellBuilt(m) && 0 <= cx < m.chunkCount && 0 <= cz < m.chunkCount
    ensures SplitMeshAtChunk(m, cx, cz, origin).Ok?
    ensures Mapped(SplitMeshAtChunk(m, cx, cz, origin).value) == Gather(m.indices, m.lookup[ChunkId(cx, cz, m.chunkCount)])
  {
    var cc := m.chunkCount;
    var id := ChunkId(cx, cz, cc);
    MulMonotone(cz + 1, cc, cc);
    assert id < cc * cc;
    var quads := m.lookup[id];
    forall j | 0 <= j < |quads| ensures QuadReadable(m, quads[j]) {
      assert TriangleLayout(m, quads[j]);
    }
    assert AllReadable(m, quads);
    SplitIsExact(m, cx, cz, origin);
  }
}
