# Pastures terrain simplification, modelled in Dafny

Pastures builds a terrain mesh from a heightmap. The pipeline runs in these steps:

1. It lays out a uniform (R+1) x (R+1) vertex lattice over an R x R grid of
   *quad cells*.
2. A quadtree pass merges flat power-of-two quadrants into single large quads.
   It marks each cell's four-bit *edge mask* with the sides that lie on a
   merged quad's boundary.
3. It keeps only the lattice vertices that some cell corner still claims
   (*compaction*).
4. It emits two triangles per surviving quad and records each quad's offset in
   the index list against the chunk the quad lies in (the *look-up table*).
5. It lines up the vertices of finer neighbours that sit on a merged quad's
   edge, so the mesh has no cracks (*gap correction*).
6. It cuts the mesh into per-chunk meshes on request (*chunk splitting*).

The editor's `Resolution` and `ChunkCount` properties clamp their values to
powers of two before the builder runs.

This project models every step that decides which vertices and triangles
exist, over integer grids and index lists. It proves what each step
guarantees to the next:

- the merged regions are sealed squares;
- every emitted index names a kept vertex;
- each chunk's look-up list holds exactly the offsets of the quads in that
  chunk;
- a split chunk reproduces its quads through a duplicate-free local vertex
  list;
- the constructor fails with a division by zero exactly when the chunk count
  is 0 or exceeds the resolution.

The modules follow the source:

- `QuadCells`: the quad cell of `TerrainQuadCell.cs`.
- `Grids`: the cell grid and vertex lattice.
- `UniformMesh`: the uniform mesh.
- `Optimiser`: the quadtree optimiser.
- `Compactor`: vertex compaction.
- `IndexBuilder`: the index and look-up builder.
- `GapCorrector`: gap correction.
- `ChunkSplit`: `SplitMeshAtChunk`.
- `MeshData`: the `TerrainMeshData` constructor.
- `Settings`: the property setters of both generators.
- `PowersOfTwo`: power-of-two arithmetic.
- `Outcomes`: the result and error types.

The exceptions the C# code can throw become `Err` values of a `Result`:

- an out-of-range list or array access;
- an integer division by zero;
- the chunk bounds check.

The older, unchunked generator (`TerrainGenerator.cs`) runs the same
algorithms. Its optimiser is the chunked one with the chunk resolution equal
to the whole resolution, so the `halfResolution <= _chunkResolution` cap
always holds. One optimiser with a chunk-resolution parameter models both.

Three behaviours of the code are easy to misread, and the model follows the
code in each:

- **Fully flat terrain.** The code never merges the whole grid: the top level
  only considers the four quadrants of side R/2. So when chunks are at least
  R/2 cells wide (the older generator, or a chunk count of 2), a fully flat
  terrain collapses into four quads, not one
  (`Optimiser.AlwaysFlatFourQuadrants`). With narrower chunks the merge cap
  `halfResolution <= _chunkResolution` (scripts/editor/TerrainMeshData.cs:245)
  keeps every merged square inside one chunk
  (`Optimiser.MergedSquareInOneChunk`), so a flat terrain splits into at
  least one quad per chunk, for example 16 quads with the default chunk
  count of 4.
- **Look-up offsets.** The look-up offsets are multiples of 6. The builder
  records one offset per quad, and every quad takes six indices
  (`MeshData.DescribedLayout`).
- **Chunk id.** The comment on the look-up table
  (scripts/editor/TerrainMeshData.cs:16) indexes it as
  `chunkx * chunksize + chunkz`. Both the builder and the splitter use
  `chunkZ * chunkCount + chunkX`, and so does the model (`ChunkSplit.ChunkId`,
  `IndexBuilder.ChunkOf`).

## Model

| member | source | states |
|---|---|---|
| QuadCells.NewCell | TerrainQuadCell.cs:28-47 | a fresh cell has no external side, every compacted corner index is -1, the uniform indices are the arguments in TL, TR, BL, BR order, and all four corners are vertices |
| QuadCells.SetExternalEdge | TerrainQuadCell.cs:49-52 | the named side becomes external, every other side keeps its state, and the corner indices are untouched |
| QuadCells.SetExternalEdgeIdempotent | TerrainQuadCell.cs:49-52 | setting a side twice is the same as setting it once |
| QuadCells.SetExternalEdgeCommutes | TerrainQuadCell.cs:49-52 | the order in which two sides are set does not matter |
| QuadCells.SetExternalEdgeMonotone | TerrainQuadCell.cs:49-52 | setting a side never clears a side already set |
| QuadCells.CornerRule | TerrainQuadCell.cs:54-76 | IsCornerVertex: a corner is a vertex iff the mask is 0, or the mask is not 0b1111 and both sides meeting at that corner are set |
| QuadCells.SingleIffNoSide | TerrainQuadCell.cs:77 | IsCellSingleQuad: a cell is a standalone quad iff none of its four sides is external |
| QuadCells.StandaloneAndInterior | TerrainQuadCell.cs:54-64 | a cell with no external side has four corner vertices; an interior cell (0b1111) has none |
| QuadCells.PartialMaskCounts | TerrainQuadCell.cs:66-73 | one external side gives no corner vertex, two give at most one, three give exactly two |
| Grids.FirstBottomRight | scripts/editor/TerrainMeshData.cs:456-466 | the rightward scan returns the first cell at or right of x with a BottomRight vertex, with no such cell before it, or none when the row has none |
| Grids.QuadLengthScan | scripts/editor/TerrainMeshData.cs:454-466 | the quad length is the distance from the start cell to the first BottomRight vertex on its row, which lies inside the grid, or 0 when the row has none |
| Grids.FlatInverse | scripts/editor/TerrainMeshData.cs:148-169 | the row-major vertex index z(R+1)+x gives back the row and the column |
| Grids.SealedSameMasks | scripts/editor/TerrainMeshData.cs:440-472 | whether every quad start closes depends on the edge masks alone, not on the corner indices |
| Grids.QuadClosesSameMasks | scripts/editor/TerrainMeshData.cs:454-472 | a quad start that closes in one grid closes in any grid with the same masks |
| UniformMesh.QuadTriangles | scripts/editor/TerrainMeshData.cs:180-188 | a quad gives six indices, two triangles of three, and every one of them is one of the quad's four corners |
| UniformMesh.UniformCell | scripts/editor/TerrainMeshData.cs:174-196 | a fresh cell has no external side, no compacted index, and names the row-major lattice indices of its own four corners |
| UniformMesh.UniformCells | scripts/editor/TerrainMeshData.cs:172-197 | the fresh grid is R x R, each cell names its own four lattice corners, has no external side and no compacted index |
| UniformMesh.RowIndices | scripts/editor/TerrainMeshData.cs:172-196 | the uniform indices of the first x cells of a row are 6x entries, each naming a lattice vertex |
| UniformMesh.RowIndicesQuads | scripts/editor/TerrainMeshData.cs:172-196 | run j of six in a row's uniform indices is the two triangles over the four lattice corners of cell (j, z) |
| UniformMesh.RunsAppend | scripts/editor/TerrainMeshData.cs:180-188 | appending one quad's six indices keeps every earlier run of six and adds the new one as the last run |
| UniformMesh.RowsIndices | scripts/editor/TerrainMeshData.cs:172-197 | the uniform indices of the first z rows are 6Rz entries, each naming a lattice vertex |
| UniformMesh.LatticeAt | scripts/editor/TerrainMeshData.cs:148-169 | the vertex (and UV) list holds position (x, z)'s payload at row-major index z(R+1)+x |
| UniformMesh.GenerateUniformMesh | scripts/editor/TerrainMeshData.cs:143-202 | (R+1)^2 vertices and UVs, 6R^2 indices all naming a lattice vertex, and a fresh grid of single cells in the uniform layout |
| UniformMesh.UniformCellCorners | TerrainGenerator.cs:610-635 | cell [x-1, z-1] gets TL = zV+x-1, TR = zV+x, BL = (z-1)V+x-1, BR = (z-1)V+x |
| Optimiser.MarkCell | scripts/editor/TerrainMeshData.cs:308-337 | marking a cell changes only its edge mask |
| Optimiser.MarkedEdges | scripts/editor/TerrainMeshData.cs:313-337 | in a merged quadrant of side h, a fresh cell at local (i, j) gets Left iff i = 0, Right iff i = h-1, Down iff j = 0, Up iff j = h-1, and interior cells get 0b1111 (MarkedSides) |
| Optimiser.MarkedCorners | scripts/editor/TerrainMeshData.cs:304-339 | in a merged quadrant of side h >= 2, a cell corner is a vertex iff it is one of the quadrant's four outer corners |
| Optimiser.MarkQuadrantMarks | scripts/editor/TerrainMeshData.cs:304-339 | marking a square of side h >= 2 leaves every cell outside it alone and keeps the corner arrays inside; a fresh cell inside ends with exactly the sides on the square's boundary (all four when interior), and its vertex corners are exactly the square's four outer corners |
| Optimiser.Optimise | scripts/editor/TerrainMeshData.cs:229-351 | a region below 4 is left alone; cells outside the searched region are unchanged; no cell's corner indices change |
| Optimiser.Quadrants | scripts/editor/TerrainMeshData.cs:241-348 | the quadrant loop of a region of side 2h changes only cells inside that region and only their masks |
| Optimiser.Visit | scripts/editor/TerrainMeshData.cs:245-348 | one quadrant step changes only cells inside that quadrant and only their masks |
| Optimiser.Owner | scripts/editor/TerrainMeshData.cs:245-348 | the square that merges a cell contains it, lies in the region, is a power of two with 2 <= h <= chunk resolution, is flat, and is aligned to its size |
| Optimiser.OptimiseCell | scripts/editor/TerrainMeshData.cs:229-351 | each cell of the region is marked at most once: as its unique owning square prescribes, or not at all |
| Optimiser.QuadrantsCell | scripts/editor/TerrainMeshData.cs:241-348 | of the four quadrant steps, only the one whose quadrant holds a cell changes it, as that quadrant's owner prescribes |
| Optimiser.OwnerConsistent | scripts/editor/TerrainMeshData.cs:241-348 | all cells of a merged square have that same square as owner, so merged squares never overlap |
| Optimiser.TileConsistent | scripts/editor/TerrainMeshData.cs:241-348 | the optimised grid is partitioned into tiles: every cell of a cell's tile has that same tile |
| Optimiser.OptimisedCorner | scripts/editor/TerrainMeshData.cs:229-351 | after optimising a uniform grid, a cell corner is a vertex iff it is an outer corner of the cell's tile |
| Optimiser.OptimisedTiled | scripts/editor/TerrainMeshData.cs:229-351 | in the optimised grid the vertex corners are exactly the outer corners of the tiles |
| Optimiser.TileBottomRow | scripts/editor/TerrainMeshData.cs:454-466 | in a grid whose vertex corners are exactly its tiles' outer corners, a cell with a BottomLeft vertex starts its tile, and the rightward scan stops exactly at the tile's last column |
| Optimiser.TileCloses | scripts/editor/TerrainMeshData.cs:468-472 | in such a grid, the cells the builder reads for TL, BR and TR of a quad are inside the grid and carry those corners as vertices |
| Optimiser.OptimisedIsSealed | scripts/editor/TerrainMeshData.cs:229-351 | every quad start of the optimised grid closes into a square |
| Optimiser.MergedSquareInOneChunk | scripts/editor/TerrainMeshData.cs:245 | every cell of a merged square lies in the same chunk |
| Optimiser.NeverFlatKeepsGrid | scripts/editor/TerrainMeshData.cs:302 | when no quadrant is flat the grid is returned unchanged |
| Optimiser.NarrowChunksKeepGrid | scripts/editor/TerrainMeshData.cs:245 | with chunks under 2 cells wide the cap never holds and the grid is returned unchanged |
| Optimiser.AlwaysFlatFourQuadrants | scripts/editor/TerrainMeshData.cs:241-341 | with everything flat and chunks at least R/2 wide, a corner is a vertex iff it is an outer corner of its top-level quadrant |
| Compactor.ClaimsUpTo | scripts/editor/TerrainMeshData.cs:362-423 | the positions kept among the first n are claimed, in strictly increasing row-major order, at most n of them |
| Compactor.PosAt | scripts/editor/TerrainMeshData.cs:362-364 | the walk's n-th position is the lattice position with row-major index n |
| Compactor.RankIndexesClaims | scripts/editor/TerrainMeshData.cs:376-377 | a claimed position's new index is its rank, and the kept list holds that position at that rank |
| Compactor.ClaimsExact | scripts/editor/TerrainMeshData.cs:419-423 | a position is kept iff some neighbouring cell claims it as a corner vertex |
| Compactor.SingleCellsClaimAll | scripts/editor/TerrainMeshData.cs:370-416 | with no merged cell, every lattice position is claimed |
| Compactor.SingleCellsClaimsUpTo | scripts/editor/TerrainMeshData.cs:362-423 | with no merged cell, the first n kept positions are exactly row-major positions 0 .. n-1 |
| Compactor.PlaceVertex | scripts/editor/TerrainMeshData.cs:366-416 | visiting a position keeps every mask and every uniform index; only compacted corner indices change |
| Compactor.ClaimCorner | scripts/editor/TerrainMeshData.cs:374-381 | one neighbour check writes the new index into exactly that corner when it is a vertex, and asks for its uniform vertex |
| Compactor.PlaceVertexCorners | scripts/editor/TerrainMeshData.cs:370-416 | visiting a position gives the new index to exactly the vertex corners sitting on it |
| Compactor.PlaceVertexCopy | scripts/editor/TerrainMeshData.cs:366-423 | a copy is requested iff the position is claimed, and then of that position's own uniform vertex |
| Compactor.CompactStep | scripts/editor/TerrainMeshData.cs:364-423 | one loop iteration extends the walk's invariant by one position |
| Compactor.Place | scripts/editor/TerrainMeshData.cs:366-423 | one visit of the walk, with its copy appended when one is asked for, extends the walk's invariant by one position |
| Compactor.Walk | scripts/editor/TerrainMeshData.cs:362-425 | after both loops every lattice position has been visited: the kept vertices are the claimed ones in order and every visited vertex corner holds its rank |
| Compactor.CompactedCorners | scripts/editor/TerrainMeshData.cs:356-426 | after the walk every vertex corner holds its position's rank, which names a kept copy of its own uniform vertex and UV |
| Compactor.Compact | scripts/editor/TerrainMeshData.cs:356-426 | masks and uniform indices are unchanged; vertices and UVs are the uniform ones at the claimed positions, in row-major order; every vertex corner holds the index of its own copy, and other corners are untouched |
| IndexBuilder.CellAt | scripts/editor/TerrainMeshData.cs:434-436 | the walk's i-th cell is the cell with row-major index i |
| IndexBuilder.QuadStartsUpTo | scripts/editor/TerrainMeshData.cs:434-441 | the quad starts among the first m cells are cells with a BottomLeft vertex, in strictly increasing row-major order |
| IndexBuilder.EmitCell | scripts/editor/TerrainMeshData.cs:438-488 | a cell succeeds iff it starts no quad or its quad can be emitted (chunk resolution not 0, quad inside the grid, chunk id inside the table) |
| IndexBuilder.BuildUpTo | scripts/editor/TerrainMeshData.cs:428-491 | a successful walk leaves one look-up list per chunk; a failure is a division by zero (only with chunk resolution 0), a cell read outside the grid or a chunk id past the table |
| IndexBuilder.BuildIndices | scripts/editor/TerrainMeshData.cs:428-491 | the builder fails iff some quad start cannot be emitted, divides by zero only with chunk resolution 0, and on success lists every quad of the grid, six indices each, with one look-up list per chunk |
| IndexBuilder.AllEmittableAppend | scripts/editor/TerrainMeshData.cs:434-441 | the quads of two runs of cells can all be emitted iff those of each run can |
| IndexBuilder.BuildUpToOk | scripts/editor/TerrainMeshData.cs:428-491 | the builder fails iff some quad start cannot be emitted |
| IndexBuilder.DescribesAppend | scripts/editor/TerrainMeshData.cs:476-487 | emitting a quad appends its six indices TL, BL, BR, TL, BR, TR and records its offset in exactly its chunk's list |
| IndexBuilder.AppendIndices | scripts/editor/TerrainMeshData.cs:479-487 | emitting a quad keeps every earlier quad's six indices and adds its own six |
| IndexBuilder.AppendOffsets | scripts/editor/TerrainMeshData.cs:476 | after recording the new offset, every look-up entry is a multiple of 6 naming a quad of its own chunk |
| IndexBuilder.AppendOffsetsIncrease | scripts/editor/TerrainMeshData.cs:476 | the new offset exceeds every recorded one, so each look-up list stays strictly increasing |
| IndexBuilder.AppendOffsetsComplete | scripts/editor/TerrainMeshData.cs:476 | every quad so far, the new one included, has its offset in its own chunk's list |
| IndexBuilder.BuildUpToDescribes | scripts/editor/TerrainMeshData.cs:428-491 | a successful build lists six indices per quad start, in order, and each look-up list holds exactly the offsets of its chunk's quads, in increasing order |
| IndexBuilder.ChunkOfDecodes | scripts/editor/TerrainMeshData.cs:443-446 | a cell's chunk id, read as row and column of a table cc wide, gives back the cell's chunk row z / cr and chunk column x / cr |
| IndexBuilder.ChunkInRange | scripts/editor/TerrainMeshData.cs:443-446 | with resolution = chunk resolution * chunk count, every cell's chunk id indexes the look-up table |
| IndexBuilder.SealedEmittable | scripts/editor/TerrainMeshData.cs:438-477 | in a sealed grid with chunks tiling it, every quad start can be emitted |
| IndexBuilder.BuildIndicesSealed | scripts/editor/TerrainMeshData.cs:428-491 | on a sealed grid whose vertex corners are indexed below n, the builder succeeds, describes every quad, and every emitted index is in [0, n) |
| IndexBuilder.DescribedIndicesInRange | scripts/editor/TerrainMeshData.cs:469-487 | when every quad's corners are below n, so is every emitted index |
| IndexBuilder.DescribedIndexInRange | scripts/editor/TerrainMeshData.cs:479-487 | each emitted index is a corner of the quad it belongs to, so it is below n when those corners are |
| IndexBuilder.QuadCornersIndexed | scripts/editor/TerrainMeshData.cs:469-472 | the four corners a closed quad reads are vertex corners, so they carry indices below n |
| IndexBuilder.ZeroChunkResolutionFails | scripts/editor/TerrainMeshData.cs:444 | with chunk resolution 0 and a quad at the first cell, the build fails with a division by zero |
| GapCorrector.Lerp | scripts/editor/TerrainMeshData.cs:572 | interpolation weight 0 gives the first end, 1 the second |
| GapCorrector.Adjust | scripts/editor/TerrainMeshData.cs:563-576 | one vertex is adjusted iff all three indices are valid, and a failure is a bad vertex index; only its height and normal change, and its new height lies on the line through the edge's end vertices (a zero-length edge leaves it alone) |
| GapCorrector.ScanCells | scripts/editor/TerrainMeshData.cs:560-577 | scanning an edge keeps every vertex's horizontal position and changes only vertices named by a vertex corner on that edge; it fails only with a bad vertex index, and never when all those indices are valid |
| GapCorrector.EdgesIndexedFootprint | scripts/editor/TerrainMeshData.cs:554-656 | moving vertices vertically keeps every index the later scans read valid |
| GapCorrector.ValidSection | scripts/editor/TerrainMeshData.cs:511-538 | a section is a merged quad iff its first cell has a BottomLeft vertex and the builder's rightward BottomRight scan from it stops exactly at the section's last column; a single cell never starts a section of side 2 or more |
| GapCorrector.ScanRowEdges | scripts/editor/TerrainMeshData.cs:554-604 | the bottom and top scans keep the footprint, move only vertex corners of the rows below and above short of the last cell, fail only with a bad vertex index, and not when every index they read is valid |
| GapCorrector.ScanColumnEdges | scripts/editor/TerrainMeshData.cs:606-656 | the left and right scans keep the footprint, move only vertex corners of the columns left and right short of the last cell, fail only with a bad vertex index, and not when every index they read is valid |
| GapCorrector.ScanEdges | scripts/editor/TerrainMeshData.cs:554-656 | the four edge scans keep the footprint, move only the edge targets (vertex corners along the four neighbouring rows and columns), fail only with a bad vertex index, and not when every index they read is valid |
| GapCorrector.SectionEndsIndexed | scripts/editor/TerrainMeshData.cs:508-548 | in a sealed, indexed grid a valid section's corners and edge neighbours all name vertices |
| GapCorrector.CorrectSection | scripts/editor/TerrainMeshData.cs:508-657 | a section that is not one merged quad is returned unchanged; a valid one keeps the footprint and moves only vertices along its own edges; it fails only with a bad vertex index, never on a sealed indexed grid, and changes nothing in a grid of single cells |
| GapCorrector.CorrectRow | scripts/editor/TerrainMeshData.cs:506-657 | one row of sections keeps the footprint, moves only vertices along the edges of valid sections of that row, fails only with a bad vertex index and never on a sealed indexed grid |
| GapCorrector.CorrectRows | scripts/editor/TerrainMeshData.cs:504-658 | all rows of sections of one level keep the footprint and move only vertices along the edges of valid, aligned sections of that level, with the same failure guarantees |
| GapCorrector.CorrectGaps | scripts/editor/TerrainMeshData.cs:497-661 | below size 4 nothing changes; otherwise the vertex count and every X and Z are kept, and a vertex moves only when it lies along an edge of a merged quad validated at some level h (a power of two with 2 <= h <= size / 2); it fails only with a bad vertex index, never on a sealed indexed grid, and leaves a grid of single cells as it is |
| ChunkSplit.AddCorner | scripts/editor/TerrainMeshData.cs:106-127 | a corner succeeds iff its vertex exists; a vertex met before reuses its local index, a new one is appended with its shifted position, UV and normal; the dictionary stays injective |
| ChunkSplit.AddCorners | scripts/editor/TerrainMeshData.cs:106-128 | the four corners in order succeed iff all name vertices, and each gets a local index that maps back to it |
| ChunkSplit.SixReEmits | scripts/editor/TerrainMeshData.cs:132-139 | local corners emitted as TL, BL, BR, TL, BR, TR map back to the quad's global indices |
| ChunkSplit.EmitLocal | scripts/editor/TerrainMeshData.cs:132-139 | the six local indices are appended and the chunk stays consistent |
| ChunkSplit.EmitQuad | scripts/editor/TerrainMeshData.cs:130-139 | the four local corners emitted as two triangles extend the chunk by six indices that re-emit the quad, leaving earlier indices alone |
| ChunkSplit.AddQuad | scripts/editor/TerrainMeshData.cs:93-139 | a quad succeeds iff its entries +0, +1, +2, +5 exist and name vertices; reading past the index list and naming a missing vertex are told apart; its six local indices re-emit the quad |
| ChunkSplit.ReEmitsGrow | scripts/editor/TerrainMeshData.cs:93-140 | later quads never disturb what earlier quads emitted |
| ChunkSplit.AddQuads | scripts/editor/TerrainMeshData.cs:93-140 | the chunk's quads succeed iff all can be read, and then the j-th six local indices re-emit the j-th quad |
| ChunkSplit.AllReEmittedAppend | scripts/editor/TerrainMeshData.cs:93-140 | appending one re-emitted quad extends the chunk's correspondence by one quad |
| ChunkSplit.ChunkId | scripts/editor/TerrainMeshData.cs:93 | chunk (cx, cz) of a cc x cc grid has an id below cc * cc, from which its row cz and column cx are read back |
| ChunkSplit.SplitMeshAtChunk | scripts/editor/TerrainMeshData.cs:75-141 | an out-of-bounds chunk fails with ChunkOutOfBounds, a chunk id past the table fails with ChunkListOutOfRange, and otherwise the split succeeds iff its quads can be read, giving a consistent chunk that re-emits them |
| ChunkSplit.GatherAt | scripts/editor/TerrainMeshData.cs:93 | entry 6j+t of the gathered index runs is entry t of the j-th quad |
| ChunkSplit.LayoutSource | scripts/editor/TerrainMeshData.cs:97-100 | in the builders' layout, reading TL, TR, BL, BR from +0, +5, +1, +2 and re-emitting gives back every one of the six entries |
| ChunkSplit.MappedAt | scripts/editor/TerrainMeshData.cs:130-139 | each local index maps back to the global index at the same position of its quad |
| ChunkSplit.MappedAtIndex | scripts/editor/TerrainMeshData.cs:93-139 | entry 6j+t of the mapped-back chunk equals entry 6j+t of the gathered quad runs |
| ChunkSplit.ReEmittedIsExact | scripts/editor/TerrainMeshData.cs:93-140 | the chunk's index list mapped back to global indices is exactly the concatenation of its quads' six-entry runs |
| ChunkSplit.ConsistentNoDuplicates | scripts/editor/TerrainMeshData.cs:109-119 | the dictionary lookup means no global vertex is copied into a chunk twice |
| ChunkSplit.SplitIsExact | scripts/editor/TerrainMeshData.cs:75-141 | a split chunk's indices map back to exactly its quads' runs of the global index list, with no global vertex copied twice |
| Settings.ResolutionSearch | TerrainGenerator.cs:41-50 | the countdown finds the largest 1 << (4+i) not above the value, a power of two in [32, ...], or 0 when the value is below 32 |
| Settings.RootResolution | TerrainGenerator.cs:39-54 | the older setter yields a power of two in [32, 8192]: 128 for a value below 32, otherwise the largest such power not above the value |
| Settings.GrowResolution | scripts/editor/TerrainGenerator.cs:42-46 | the doubling loop stops at the first power of two reaching the value, or at 8192 |
| Settings.EditorResolution | scripts/editor/TerrainGenerator.cs:36-47 | the editor setter yields a power of two in [32, 8192]: 32 for values up to 32, 8192 above 8192, otherwise the smallest power of two not below the value |
| Settings.GrowChunkCount | scripts/editor/TerrainGenerator.cs:61-65 | the doubling loop stops at the first power of two reaching the value, or at half the resolution |
| Settings.EditorChunkCount | scripts/editor/TerrainGenerator.cs:55-68 | the chunk count is a power of two >= 2, the smallest reaching the value unless capped at half the current resolution |
| Settings.ChunkCountAtMostHalf | scripts/editor/TerrainGenerator.cs:58-65 | for a power-of-two resolution of at least 4, the chunk count never exceeds half of it |
| Settings.ChunkCountFits | scripts/editor/TerrainGenerator.cs:58-65 | the same cap as an implication: when the resolution is a power of two of at least 4, the chunk count is at most half of it |
| Settings.ChunkResolution | scripts/editor/TerrainMeshData.cs:45 | for a valid configuration the chunk resolution is a power of two that times the chunk count is the resolution |
| Settings.ResolutionThenChunkCount | scripts/editor/TerrainGenerator.cs:30-69 | setting the resolution and then the chunk count leaves a valid state whose chunk resolution divides the resolution and is at least 2 |
| Settings.ValidEditorConfig | scripts/editor/TerrainMeshData.cs:43-45 | every valid editor state is a configuration the builder accepts, with chunks at least 2 cells wide |
| Settings.SetChunkCount | scripts/editor/TerrainGenerator.cs:50-69 | the ChunkCount setter keeps the resolution and, from a valid resolution, leaves a valid state |
| Settings.SetResolutionAsWritten | scripts/editor/TerrainGenerator.cs:30-48 | the Resolution setter as written keeps the chunk count and sets a power-of-two resolution in [32, 8192] |
| Settings.SetResolutionKeepsStaleChunkCount | scripts/editor/TerrainGenerator.cs:30-69 | from the defaults, ChunkCount = 64 then Resolution = 32 leaves 64 chunks per side over 32 cells, so 32 / 64 = 0 cells per chunk: an invalid state |
| Settings.ChunkCountKeepsFit | scripts/editor/TerrainGenerator.cs:58-65 | a power of two in [2, resolution/2] passes the chunk-count clamp unchanged |
| Settings.SetResolution | scripts/editor/TerrainGenerator.cs:30-48 | the corrected Resolution setter also re-clamps the chunk count: it always leaves a valid state, and keeps a chunk count that still fits |
| Settings.CallsStayValid | scripts/editor/TerrainGenerator.cs:30-69 | with the corrected setter, any sequence of assignments from a valid state leaves a valid state the builder accepts |
| MeshData.SmoothNormals | scripts/editor/TerrainMeshData.cs:663-697 | one normal per vertex |
| MeshData.TriangleReads | scripts/editor/TerrainMeshData.cs:670-688 | the triangle loop's reads fail iff the remaining indices are not whole triangles (an index-list read past the end) or one of them lies outside the vertex list (a vertex or normal read); a read past the end happens only when they are not whole triangles |
| MeshData.Normals | scripts/editor/TerrainMeshData.cs:663-697 | the normals step succeeds iff the index list is whole triangles naming only vertices of the list; then it gives the rule's normal for every vertex, and otherwise fails with a vertex read, or with an index-list read only when the list is not whole triangles |
| MeshData.OptimisedLayout | scripts/editor/TerrainMeshData.cs:64 | the optimiser keeps every cell's uniform corner indices |
| MeshData.CompactedIndexed | scripts/editor/TerrainMeshData.cs:65 | after compaction every vertex corner of the grid indexes the compacted vertex list |
| MeshData.DescribedLayout | scripts/editor/TerrainMeshData.cs:476-487 | every look-up entry is a multiple of 6 whose six entries are laid out TL, BL, BR, TL, BR, TR |
| MeshData.SealedCornersBelow | scripts/editor/TerrainMeshData.cs:468-472 | on a sealed indexed grid every quad start reads four corners below the vertex count |
| MeshData.BuiltIsWellBuilt | scripts/editor/TerrainMeshData.cs:428-491 | a successful build over quads with indexed corners yields index and look-up lists the splitter can read |
| MeshData.SingleCellsKeepLattice | scripts/editor/TerrainMeshData.cs:356-426 | with no merged cell, compaction keeps every uniform vertex in uniform order |
| MeshData.NarrowFails | scripts/editor/TerrainMeshData.cs:444-445 | on a grid of single cells, chunk resolution 0 makes the builder divide by zero |
| MeshData.AllSingleSameMasks | scripts/editor/TerrainMeshData.cs:65 | compaction cannot turn single cells into merged ones |
| MeshData.Optimised | scripts/editor/TerrainMeshData.cs:60-64 | the uniform mesh is a grid of single cells in the uniform layout with the lattice as vertices and UVs, and the optimiser keeps that layout |
| MeshData.CompactedFacts | scripts/editor/TerrainMeshData.cs:63-65 | after optimising and compacting, the grid is sealed and indexed; without any merge it is all single cells and keeps the uniform vertices |
| MeshData.Simplify | scripts/editor/TerrainMeshData.cs:59-65 | the constructor's first half leaves a sealed grid whose vertex corners index the kept vertices; with chunks under 2 cells or nothing flat, no cell is merged and the vertices are the whole lattice |
| MeshData.Finish | scripts/editor/TerrainMeshData.cs:66-68 | the second half divides by zero only with chunk resolution 0, fails otherwise only by a bad cell, chunk or vertex index (the normals step throws on an index outside the vertex list), and on success names only vertices of the list and keeps the vertex count, every X and Z, the UVs and the chunk count |
| MeshData.FinishOk | scripts/editor/TerrainMeshData.cs:66-68 | with chunks tiling the grid, building indices and correcting gaps never fail |
| MeshData.FinishWellBuilt | scripts/editor/TerrainMeshData.cs:66-68 | whatever the second half produces has one UV and one normal per vertex, valid indices, one look-up list per chunk, and look-up entries in the builders' layout |
| MeshData.FinishSingle | scripts/editor/TerrainMeshData.cs:66-68 | on a grid of single cells, chunk resolution 0 fails with a division by zero, and a success keeps the vertices and UVs |
| MeshData.FinishFacts | scripts/editor/TerrainMeshData.cs:43-68 | the second half succeeds for a valid configuration, fails with a division by zero exactly when the chunk count exceeds the resolution, and otherwise yields a well-built mesh |
| MeshData.Generate | scripts/editor/TerrainMeshData.cs:29-70 | the constructor succeeds for a valid configuration, fails with a division by zero exactly for chunk count 0 or above the resolution, yields a mesh the splitter can read, and without any flat quadrant keeps the whole lattice |
| MeshData.WellBuiltChunksSplit | scripts/editor/TerrainMeshData.cs:75-141 | every chunk of a built mesh splits without error, and its indices map back to exactly its quads' runs of the global index list |

## Left out

- The flatness score is left out: the mean and variance of the uniform
  normals, taken over a quadrant, is float arithmetic. It is an oracle
  `score(h, x, z)` compared strictly against the threshold.
- `SampleHeight`, the vertex world positions, the UV values and the scale
  (`size / resolution`) are float computations left out. Vertex positions and
  UVs come from caller-supplied functions of the lattice position.
- The arithmetic of `GenerateSmoothNormals` is left out (cross products and
  normalisation). It is the `NormalRule` parameter; its reads of the index
  and vertex lists, and the throws they can cause, are modelled
  (MeshData.Normals).
- MeshData.SmoothNormals: states only the length of the result, because the
  float normal computation is not modelled.
- The gap corrector's float division by a zero-length edge is left out: C#
  gives an infinite or NaN weight there. The model leaves the vertex
  unchanged instead (GapCorrector.Adjust). Godot's `Vector3.Lerp` on normals
  is taken to be componentwise linear interpolation.
- MeshData.Generate: requires a power-of-two resolution, which both
  generators' Resolution setters guarantee. The C# constructor accepts any
  int, and the quadtree code assumes a power of two. The chunk count is
  unbounded, so the 32-bit product `chunkCount * chunkCount` that sizes the
  look-up table (scripts/editor/TerrainMeshData.cs:38) is not modelled: from
  a chunk count of 46341 it overflows, and C# throws or allocates a wrong
  size where the model builds cc * cc lists.
- The chunk count is a `nat`. A negative chunk count (a negative array size
  in C#) is left out.
- The Size setters, `UpdateMeshScale`, chunk centre offsets, node creation,
  collision shapes, `ArrayMesh` assembly and the editor buttons are left out:
  they are scene glue.
- TerrainGeneratorLOD.cs, CameraController.cs and both
  PaperAeroplaneController.cs files are not part of this model: they are
  input handling, physics and shader parameters.
- The older generator's `OnGenerateMesh` is left out. It chains the same
  steps with chunk resolution equal to the resolution and no look-up table,
  so it is covered by the shared step models.
- Vertex positions are `real`, not 32-bit floats, so float rounding in the
  interpolation is left out.

## Findings

| source | as written | input that shows it | evidently intended | confidence | as-written member | corrected member |
|---|---|---|---|---|---|---|
| scripts/editor/TerrainGenerator.cs:36-47 | the Resolution setter replaces the resolution but keeps a chunk count that was clamped against the old resolution | from the defaults (128, 4): ChunkCount = 64, then Resolution = 32 gives (32, 64); the chunk resolution 32 / 64 is 0 and the index builder divides by it (scripts/editor/TerrainMeshData.cs:444) | setting the resolution re-clamps the chunk count to at most half of the new resolution, so every state keeps chunks at least 2 cells wide | medium, not executed | Settings.SetResolutionKeepsStaleChunkCount | Settings.CallsStayValid |
