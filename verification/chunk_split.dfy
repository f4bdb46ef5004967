/**
 * Splitting the simplified mesh into one chunk's mesh (SplitMeshAtChunk):
 * walk the chunk's quad offsets, fetch each quad's four corners from the
 * global index list, give every global vertex met for the first time the
 * next local index (a dictionary from global to local index), copy its
 * position (made relative to the chunk), UV and normal, and emit the quad's
 * two triangles in local indices.
 */
module ChunkSplit {
  import opened Outcomes
  import opened PowersOfTwo
  import opened Grids

  /** The simplified terrain mesh with its per-chunk quad look-up lists. */
  datatype TerrainMesh = TerrainMesh(
    verts: seq<Vec3>, uvs: seq<UV>, normals: seq<Vec3>, indices: seq<int>,
    lookup: seq<seq<nat>>, chunkCount: nat)

  /**
   * A chunk's mesh under construction: the four output lists, plus the
   * dictionary `local` from global to local vertex index and its inverse
   * `globals`.
   */
  datatype ChunkMesh = ChunkMesh(
    verts: seq<Vec3>, uvs: seq<UV>, normals: seq<Vec3>, indices: seq<int>,
    globals: seq<int>, local: map<int, nat>)

  const EmptyChunk := ChunkMesh([], [], [], [], [], map[])

  function Sub(a: Vec3, b: Vec3): Vec3
  {
    Vec3(a.x - b.x, a.y - b.y, a.z - b.z)
  }

  /** Global vertex v can be read from all three vertex lists. */
  predicate HasVertex(m: TerrainMesh, v: int)
  {
    0 <= v < |m.verts| && v < |m.uvs| && v < |m.normals|
  }

  /**
   * The chunk's lists are a faithful, duplicate-free copy: local vertex l
   * is global vertex globals[l] shifted by the chunk position, the
   * dictionary and `globals` are inverse to each other, and every local
   * index names a local vertex.
   */
  ghost predicate Consistent(m: TerrainMesh, origin: Vec3, c: ChunkMesh)
  {
    && |c.verts| == |c.uvs| == |c.normals| == |c.globals|
    && (forall l :: 0 <= l < |c.globals| ==>
          && HasVertex(m, c.globals[l])
          && c.globals[l] in c.local && c.local[c.globals[l]] == l
          && c.verts[l] == Sub(m.verts[c.globals[l]], origin)
          && c.uvs[l] == m.uvs[c.globals[l]]
          && c.normals[l] == m.normals[c.globals[l]])
    && (forall v :: v in c.local ==> c.local[v] < |c.globals| && c.globals[c.local[v]] == v)
    && (forall k :: 0 <= k < |c.indices| ==> 0 <= c.indices[k] < |c.globals|)
  }

  /** The chunk after one corner, and the corner's local index. */
  datatype Added = Added(chunk: ChunkMesh, index: nat)

  /** One corner: reuse the local index of a vertex already seen, else copy the vertex in. */
  function AddCorner(m: TerrainMesh, origin: Vec3, c: ChunkMesh, v: int): (r: Result<Added>)
    requires Consistent(m, origin, c)
    ensures r.Ok? <==> HasVertex(m, v)
    ensures r.Err? ==> r.error == VertexOutOfRange
    ensures r.Ok? ==> Consistent(m, origin, r.value.chunk)
    ensures r.Ok? ==> r.value.index < |r.value.chunk.globals| && r.value.chunk.globals[r.value.index] == v
    ensures r.Ok? ==> r.value.chunk.indices == c.indices && c.globals <= r.value.chunk.globals
    ensures r.Ok? ==> |r.value.chunk.globals| == |c.globals| + (if v in c.local then 0 else 1)
  {
    if v in c.local then Ok(Added(c, c.local[v]))
    else if !HasVertex(m, v) then Err(VertexOutOfRange)
    else
      var l := |c.verts|;
      Ok(Added(ChunkMesh(c.verts + [Sub(m.verts[v], origin)], c.uvs + [m.uvs[v]], c.normals + [m.normals[v]],
                         c.indices, c.globals + [v], c.local[v := l]), l))
  }

  /** Where each of a quad's six emitted indices comes from, relative to the quad's offset: TL, BL, BR, TL, BR, TR. */
  function Source(t: nat): (r: nat)
    requires t < 6
    ensures r <= t && r <= 5
  {
    [0, 1, 2, 0, 2, 5][t]
  }

  /** The quad at offset q can be read: its four corner entries exist and name vertices. */
  predicate QuadReadable(m: TerrainMesh, q: nat)
  {
    && q + 5 < |m.indices|
    && HasVertex(m, m.indices[q]) && HasVertex(m, m.indices[q + 1])
    && HasVertex(m, m.indices[q + 2]) && HasVertex(m, m.indices[q + 5])
  }

  /** The chunk after a run of corners, and each corner's local index. */
  datatype AddedAll = AddedAll(chunk: ChunkMesh, locals: seq<nat>)

  /** Corners vs in order, each through AddCorner. */
  function AddCorners(m: TerrainMesh, origin: Vec3, c: ChunkMesh, vs: seq<int>): (r: Result<AddedAll>)
    requires Consistent(m, origin, c)
    ensures r.Ok? ==> Consistent(m, origin, r.value.chunk)
    ensures r.Ok? ==> r.value.chunk.indices == c.indices && c.globals <= r.value.chunk.globals
    ensures r.Ok? ==> |r.value.locals| == |vs|
    ensures r.Ok? ==> forall i :: 0 <= i < |vs| ==>
      r.value.locals[i] < |r.value.chunk.globals| && r.value.chunk.globals[r.value.locals[i]] == vs[i]
    ensures r.Ok? <==> forall i :: 0 <= i < |vs| ==> HasVertex(m, vs[i])
    ensures r.Err? ==> r.error == VertexOutOfRange
    decreases |vs|
  {
    if |vs| == 0 then Ok(AddedAll(c, []))
    else
      var a :- AddCorner(m, origin, c, vs[0]);
      var rest :- AddCorners(m, origin, a.chunk, vs[1..]);
      assert rest.chunk.globals[a.index] == a.chunk.globals[a.index];
      Ok(AddedAll(rest.chunk, [a.index] + rest.locals))
  }

  /**
   * The six local indices from position `at` of d name, through `globals`,
   * the global vertices the quad at offset q names: TL, BL, BR, TL, BR, TR.
   */
  ghost predicate ReEmits(m: TerrainMesh, q: nat, d: ChunkMesh, at: nat)
  {
    && q + 5 < |m.indices| && at + 6 <= |d.indices|
    && forall t :: 0 <= t < 6 ==> ReEmitsAt(m, q, d, at, t)
  }

  /** Entry t of those six. */
  ghost predicate ReEmitsAt(m: TerrainMesh, q: nat, d: ChunkMesh, at: nat, t: nat)
  {
    && t < 6 && q + 5 < |m.indices| && at + t < |d.indices|
    && 0 <= d.indices[at + t] < |d.globals| && d.globals[d.indices[at + t]] == m.indices[q + Source(t)]
  }

  /** Local corners l (TL, TR, BL, BR) emitted in triangle order re-emit the quad at q. */
  lemma SixReEmits(m: TerrainMesh, q: nat, r: ChunkMesh, at: nat, l: seq<nat>)
    requires q + 5 < |m.indices| && |l| == 4 && at <= |r.indices|
    requires forall i :: 0 <= i < 4 ==> l[i] < |r.globals|
    requires r.globals[l[0]] == m.indices[q] && r.globals[l[1]] == m.indices[q + 5]
    requires r.globals[l[2]] == m.indices[q + 1] && r.globals[l[3]] == m.indices[q + 2]
    requires r.indices[at..] == [l[0], l[2], l[3], l[0], l[3], l[1]]
    ensures ReEmits(m, q, r, at)
  {
    forall t | 0 <= t < 6 ensures ReEmitsAt(m, q, r, at, t) {
      assert r.indices[at + t] == r.indices[at..][t];
    }
  }

  /** Append six local indices that all name local vertices. */
  function EmitLocal(m: TerrainMesh, origin: Vec3, d: ChunkMesh, six: seq<nat>): (r: ChunkMesh)
    requires Consistent(m, origin, d) && |six| == 6 && forall t :: 0 <= t < 6 ==> six[t] < |d.globals|
    ensures Consistent(m, origin, r) && r.globals == d.globals && r.indices == d.indices + six
    ensures r.indices[|d.indices|..] == six
  {
    d.(indices := d.indices + six)
  }

  /**
   * One quad at offset q of the global index list: its corners TL, TR, BL,
   * BR are entries q, q+5, q+1, q+2, and the quad is re-emitted as TL, BL,
   * BR, TL, BR, TR in local indices.
   */
  function AddQuad(m: TerrainMesh, origin: Vec3, c: ChunkMesh, q: nat): (r: Result<ChunkMesh>)
    requires Consistent(m, origin, c)
    ensures r.Ok? ==> q + 5 < |m.indices|
    ensures r.Ok? ==> Consistent(m, origin, r.value)
    ensures r.Ok? ==> c.globals <= r.value.globals
    ensures r.Ok? ==> |r.value.indices| == |c.indices| + 6 && r.value.indices[..|c.indices|] == c.indices
    ensures r.Ok? ==> ReEmits(m, q, r.value, |c.indices|)
    ensures r.Ok? <==> QuadReadable(m, q)
    ensures r.Err? ==> r.error == if q + 5 < |m.indices| then VertexOutOfRange else IndexListOutOfRange
  {
    if q + 5 >= |m.indices| then Err(IndexListOutOfRange)
    else
      var corners := [m.indices[q], m.indices[q + 5], m.indices[q + 1], m.indices[q + 2]];
      var a :- AddCorners(m, origin, c, corners);
      Ok(EmitQuad(m, origin, c, q, a))
  }

  /** The second half of AddQuad: the four local corners emitted as TL, BL, BR, TL, BR, TR. */
  function EmitQuad(m: TerrainMesh, origin: Vec3, c: ChunkMesh, q: nat, a: AddedAll): (r: ChunkMesh)
    requires q + 5 < |m.indices| && Consistent(m, origin, a.chunk)
    requires a.chunk.indices == c.indices && c.globals <= a.chunk.globals && |a.locals| == 4
    requires forall i :: 0 <= i < 4 ==> a.locals[i] < |a.chunk.globals|
    requires a.chunk.globals[a.locals[0]] == m.indices[q] && a.chunk.globals[a.locals[1]] == m.indices[q + 5]
    requires a.chunk.globals[a.locals[2]] == m.indices[q + 1] && a.chunk.globals[a.locals[3]] == m.indices[q + 2]
    ensures Consistent(m, origin, r) && c.globals <= r.globals
    ensures |r.indices| == |c.indices| + 6 && r.indices[..|c.indices|] == c.indices
    ensures ReEmits(m, q, r, |c.indices|)
  {
    var l := a.locals;
    var r := EmitLocal(m, origin, a.chunk, [l[0], l[2], l[3], l[0], l[3], l[1]]);
    SixReEmits(m, q, r, |c.indices|, l);
    r
  }

  /** Growing a chunk at its ends keeps what its earlier indices re-emit. */
  lemma ReEmitsGrow(m: TerrainMesh, q: nat, d: ChunkMesh, e: ChunkMesh, at: nat)
    requires ReEmits(m, q, d, at)
    requires |d.indices| <= |e.indices| && e.indices[..|d.indices|] == d.indices && d.globals <= e.globals
    ensures ReEmits(m, q, e, at)
  {
    forall t | 0 <= t < 6 ensures ReEmitsAt(m, q, e, at, t) {
      assert ReEmitsAt(m, q, d, at, t);
      var l := d.indices[at + t];
      assert e.indices[at + t] == e.indices[..|d.indices|][at + t] == l;
      assert e.globals[l] == d.globals[l];
    }
  }

  /** The quads at the given offsets, in order, into a fresh chunk; the first quad that cannot be read fails the split. */
  function AddQuads(m: TerrainMesh, origin: Vec3, offsets: seq<nat>): (r: Result<ChunkMesh>)
    ensures r.Ok? ==> Consistent(m, origin, r.value)
    ensures r.Ok? ==> AllReEmitted(m, offsets, r.value)
    ensures r.Ok? <==> AllReadable(m, offsets)
    ensures r.Err? ==> r.error == IndexListOutOfRange || r.error == VertexOutOfRange
  {
    if |offsets| == 0 then Ok(EmptyChunk)
    else
      var init := offsets[..|offsets| - 1];
      assert AllReadable(m, offsets) <==> AllReadable(m, init) && QuadReadable(m, offsets[|offsets| - 1]) by {
        assert forall j :: 0 <= j < |init| ==> init[j] == offsets[j];
      }
      var c :- AddQuads(m, origin, init);
      var d :- AddQuad(m, origin, c, offsets[|offsets| - 1]);
      AllReEmittedAppend(m, offsets, c, d);
      Ok(d)
  }

  /** Every quad at the given offsets can be read. */
  predicate AllReadable(m: TerrainMesh, offsets: seq<nat>)
  {
    forall j :: 0 <= j < |offsets| ==> QuadReadable(m, offsets[j])
  }

  /** Chunk d holds six indices per offset, and the j-th six re-emit the quad at offsets[j]. */
  ghost predicate AllReEmitted(m: TerrainMesh, offsets: seq<nat>, d: ChunkMesh)
  {
    |d.indices| == 6 * |offsets| && forall j :: 0 <= j < |offsets| ==> ReEmits(m, offsets[j], d, 6 * j)
  }

  lemma AllReEmittedAppend(m: TerrainMesh, offsets: seq<nat>, c: ChunkMesh, d: ChunkMesh)
    requires |offsets| > 0 && AllReEmitted(m, offsets[..|offsets| - 1], c)
    requires |d.indices| == |c.indices| + 6 && d.indices[..|c.indices|] == c.indices && c.globals <= d.globals
    requires ReEmits(m, offsets[|offsets| - 1], d, |c.indices|)
    ensures AllReEmitted(m, offsets, d)
  {
    var init := offsets[..|offsets| - 1];
    forall j | 0 <= j < |offsets| ensures ReEmits(m, offsets[j], d, 6 * j) {
      if j < |init| {
        assert offsets[j] == init[j];
        ReEmitsGrow(m, init[j], c, d, 6 * j);
      }
    }
  }

  /**
   * Position of chunk (cx, cz) in the look-up table: row cz and column cx of
   * a cc x cc table, so a chunk inside the grid has an id below cc * cc from
   * which its coordinates can be read back.
   */
  function ChunkId(cx: nat, cz: nat, cc: nat): (r: nat)
    ensures cx < cc ==> r / cc == cz && r % cc == cx
    ensures cx < cc && cz < cc ==> r < cc * cc
  {
    var r := cz * cc + cx;
    if cx < cc then
      DivInBlock(r, cc, cz);
      if cz < cc then MulMonotone(cz, cc - 1, cc); r else r
    else r
  }

  /**
   * SplitMeshAtChunk: chunk (cx, cz) of a cc x cc chunk grid, made
   * relative to `origin`.
   */
  function SplitMeshAtChunk(m: TerrainMesh, cx: int, cz: int, origin: Vec3): (r: Result<ChunkMesh>)
    ensures r == Err(ChunkOutOfBounds) <==> !(0 <= cx < m.chunkCount && 0 <= cz < m.chunkCount)
    ensures r == Err(ChunkListOutOfRange) <==>
      0 <= cx < m.chunkCount && 0 <= cz < m.chunkCount && ChunkId(cx, cz, m.chunkCount) >= |m.lookup|
    ensures r.Ok? ==> 0 <= cx < m.chunkCount && 0 <= cz < m.chunkCount && ChunkId(cx, cz, m.chunkCount) < |m.lookup|
    ensures r.Ok? ==> Consistent(m, origin, r.value)
    ensures r.Ok? ==> AllReEmitted(m, m.lookup[ChunkId(cx, cz, m.chunkCount)], r.value)
    ensures r.Ok? <==> 0 <= cx < m.chunkCount && 0 <= cz < m.chunkCount && ChunkId(cx, cz, m.chunkCount) < |m.lookup|
                       && AllReadable(m, m.lookup[ChunkId(cx, cz, m.chunkCount)])
    ensures r.Err? ==> r.error in {ChunkOutOfBounds, ChunkListOutOfRange, IndexListOutOfRange, VertexOutOfRange}
  {
    if cx < 0 || cx >= m.chunkCount || cz < 0 || cz >= m.chunkCount then Err(ChunkOutOfBounds)
    else
      var id := ChunkId(cx, cz, m.chunkCount);
      if id >= |m.lookup| then Err(ChunkListOutOfRange)
      else AddQuads(m, origin, m.lookup[id])
  }

  /** The six index entries at q are laid out as TL, BL, BR, TL, BR, TR: entry 3 repeats 0 and entry 4 repeats 2. */
  predicate TriangleLayout(m: TerrainMesh, q: nat)
  {
    q + 5 < |m.indices| && m.indices[q + 3] == m.indices[q] && m.indices[q + 4] == m.indices[q + 2]
  }

  /** The index list of a chunk whose indices all name local vertices, mapped back to global vertex indices. */
  function Mapped(d: ChunkMesh): (r: seq<int>)
    requires forall k :: 0 <= k < |d.indices| ==> 0 <= d.indices[k] < |d.globals|
    ensures |r| == |d.indices|
  {
    seq(|d.indices|, k requires 0 <= k < |d.indices| => d.globals[d.indices[k]])
  }

  /** The six-entry slices of the global index list at the given offsets, concatenated. */
  function Gather(ix: seq<int>, offsets: seq<nat>): (r: seq<int>)
    requires forall j :: 0 <= j < |offsets| ==> offsets[j] + 6 <= |ix|
    ensures |r| == 6 * |offsets|
  {
    if |offsets| == 0 then []
    else Gather(ix, offsets[..|offsets| - 1]) + ix[offsets[|offsets| - 1] .. offsets[|offsets| - 1] + 6]
  }

  /** Entry 6j + t of Gather is entry t of the j-th slice. */
  lemma {:induction false} GatherAt(ix: seq<int>, offsets: seq<nat>, j: nat, t: nat)
    requires forall j :: 0 <= j < |offsets| ==> offsets[j] + 6 <= |ix|
    requires j < |offsets| && t < 6
    ensures Gather(ix, offsets)[6 * j + t] == ix[offsets[j] + t]
  {
    var init := offsets[..|offsets| - 1];
    if j < |init| {
      assert offsets[j] == init[j];
      GatherAt(ix, init, j, t);
    }
  }

  /** In the builders' layout, entry Source(t) of a quad's six holds what entry t holds. */
  lemma LayoutSource(m: TerrainMesh, q: nat, t: nat)
    requires TriangleLayout(m, q) && t < 6
    ensures m.indices[q + Source(t)] == m.indices[q + t]
  {
    if t == 3 {
      assert Source(t) == 0;
    } else if t == 4 {
      assert Source(t) == 2;
    } else {
      assert Source(t) == t;
    }
  }

  /** Entry k = 6j + t of the chunk, mapped back, is entry t of the j-th quad's six. */
  lemma MappedAt(m: TerrainMesh, q: nat, c: ChunkMesh, j: nat, t: nat, k: nat)
    requires t < 6 && k == 6 * j + t && ReEmitsAt(m, q, c, 6 * j, t) && TriangleLayout(m, q)
    requires forall k :: 0 <= k < |c.indices| ==> 0 <= c.indices[k] < |c.globals|
    ensures Mapped(c)[k] == m.indices[q + t]
  {
    assert c.globals[c.indices[k]] == m.indices[q + Source(t)];
    LayoutSource(m, q, t);
  }

  /** Six indices per quad, each re-emitting a quad laid out as the builders lay it out, map back to the quads' slices. */
  lemma ReEmittedIsExact(m: TerrainMesh, quads: seq<nat>, c: ChunkMesh)
    requires AllReEmitted(m, quads, c)
    requires forall j :: 0 <= j < |quads| ==> TriangleLayout(m, quads[j])
    requires forall k :: 0 <= k < |c.indices| ==> 0 <= c.indices[k] < |c.globals|
    ensures forall j :: 0 <= j < |quads| ==> quads[j] + 6 <= |m.indices|
    ensures Mapped(c) == Gather(m.indices, quads)
  {
    assert forall j :: 0 <= j < |quads| ==> quads[j] + 6 <= |m.indices| by {
      forall j | 0 <= j < |quads| ensures quads[j] + 6 <= |m.indices| {
        assert ReEmits(m, quads[j], c, 6 * j);
      }
    }
    forall k | 0 <= k < |c.indices| ensures Mapped(c)[k] == Gather(m.indices, quads)[k] {
      var j, t := SplitSix(k);
      assert ReEmits(m, quads[j], c, 6 * j);
      MappedAtIndex(m, quads, c, j, t, k);
    }
  }

  /** Entry k = 6j + t of the mapped chunk and of the gathered slices agree. */
  lemma MappedAtIndex(m: TerrainMesh, quads: seq<nat>, c: ChunkMesh, j: nat, t: nat, k: nat)
    requires j < |quads| && t < 6 && k == 6 * j + t && k < |c.indices|
    requires ReEmitsAt(m, quads[j], c, 6 * j, t) && TriangleLayout(m, quads[j])
    requires forall j :: 0 <= j < |quads| ==> quads[j] + 6 <= |m.indices|
    requires forall k :: 0 <= k < |c.indices| ==> 0 <= c.indices[k] < |c.globals|
    ensures Mapped(c)[k] == Gather(m.indices, quads)[k]
  {
    var v := m.indices[quads[j] + t];
    MappedAt(m, quads[j], c, j, t, k);
    assert Mapped(c)[k] == v;
    GatherAt(m.indices, quads, j, t);
    assert Gather(m.indices, quads)[6 * j + t] == v;
  }

  /** Position k of a list of six-entry runs is entry t of run j. */
  lemma SplitSix(k: nat) returns (j: nat, t: nat)
    ensures k == 6 * j + t && t < 6
  {
    j, t := k / 6, k % 6;
  }

  /** A consistent chunk copies no global vertex twice. */
  lemma ConsistentNoDuplicates(m: TerrainMesh, origin: Vec3, c: ChunkMesh)
    requires Consistent(m, origin, c)
    ensures forall l1, l2 :: 0 <= l1 < l2 < |c.globals| ==> c.globals[l1] != c.globals[l2]
  {
    forall l1, l2 | 0 <= l1 < l2 < |c.globals| ensures c.globals[l1] != c.globals[l2] {
      assert c.local[c.globals[l1]] == l1 && c.local[c.globals[l2]] == l2;
    }
  }

  /**
   * For quads laid out as the builders lay them out, a split chunk's index
   * list, mapped back through `globals`, is exactly its quads' slices of the
   * global index list, and no global vertex is copied twice.
   */
  lemma SplitIsExact(m: TerrainMesh, cx: int, cz: int, origin: Vec3)
    requires SplitMeshAtChunk(m, cx, cz, origin).Ok?
    requires forall q :: q in m.lookup[ChunkId(cx, cz, m.chunkCount)] ==> TriangleLayout(m, q)
    ensures var c := SplitMeshAtChunk(m, cx, cz, origin).value;
            && Mapped(c) == Gather(m.indices, m.lookup[ChunkId(cx, cz, m.chunkCount)])
            && (forall l1, l2 :: 0 <= l1 < l2 < |c.globals| ==> c.globals[l1] != c.globals[l2])
  {
    var c := SplitMeshAtChunk(m, cx, cz, origin).value;
    var quads := m.lookup[ChunkId(cx, cz, m.chunkCount)];
    ReEmittedIsExact(m, quads, c);
    ConsistentNoDuplicates(m, origin, c);
  }
}
