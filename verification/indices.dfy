/**
 * The index builder (PopulateIndicesFromTerrainQuadCells): every cell with a
 * BottomLeft vertex starts a square quad, whose side is found by scanning
 * right for the first BottomRight vertex. Each quad adds two triangles, and
 * its offset in the index list is recorded in the look-up list of the chunk
 * its BottomLeft cell lies in.
 */
module IndexBuilder {
  import opened Outcomes
  import opened PowersOfTwo
  import opened QuadCells
  import opened Grids
  import opened UniformMesh

  /** The cell with row-major cell index i (R cells per row). */
  function CellAt(R: nat, i: nat): (p: Pos)
    requires i < R * R
    ensures p.x < R && p.z < R && p.z * R + p.x == i
  {
    QuotientBelow(i, R);
    Pos(i % R, i / R)
  }

  lemma CellAtIndex(R: nat, p: Pos)
    requires p.x < R && p.z < R
    ensures p.z * R + p.x < R * R && CellAt(R, p.z * R + p.x) == p
  {
    MulMonotone(p.z + 1, R, R);
    var i := p.z * R + p.x;
    DivInBlock(i, R, p.z);
  }

  /** Cell (x, z) starts a quad: it has a BottomLeft vertex. */
  predicate StartsQuad(g: Grid, R: nat, p: Pos)
    requires IsGrid(g, R) && p.x < R && p.z < R
  {
    IsCornerVertex(g[p.x][p.z], BottomLeft)
  }

  /** The quad-starting cells among the first m cells, in visiting order. */
  function QuadStartsUpTo(g: Grid, R: nat, m: nat): (r: seq<Pos>)
    requires IsGrid(g, R) && m <= R * R
    ensures |r| <= m
    ensures forall j :: 0 <= j < |r| ==> r[j].x < R && r[j].z < R && StartsQuad(g, R, r[j]) && r[j].z * R + r[j].x < m
    ensures forall i, j :: 0 <= i < j < |r| ==> r[i].z * R + r[i].x < r[j].z * R + r[j].x
  {
    if m == 0 then []
    else
      var p := CellAt(R, m - 1);
      QuadStartsUpTo(g, R, m - 1) + (if StartsQuad(g, R, p) then [p] else [])
  }

  /** Every quad-starting cell, in row-major order. */
  function QuadStarts(g: Grid, R: nat): seq<Pos>
    requires IsGrid(g, R)
  {
    QuadStartsUpTo(g, R, R * R)
  }

  /** The quad starting at p fits: its top row z + length is still inside the grid. */
  predicate QuadFits(g: Grid, R: nat, p: Pos)
    requires IsGrid(g, R) && p.x < R && p.z < R
  {
    p.z + QuadLength(g, R, p.x, p.z) < R
  }

  /** The compacted vertex indices of the quad starting at p. */
  function QuadCorners(g: Grid, R: nat, p: Pos): Corners
    requires IsGrid(g, R) && p.x < R && p.z < R && QuadFits(g, R, p)
  {
    var L := QuadLength(g, R, p.x, p.z);
    Corners(g[p.x][p.z + L].cornerIndex.At(TopLeft), g[p.x + L][p.z + L].cornerIndex.At(TopRight),
            g[p.x][p.z].cornerIndex.At(BottomLeft), g[p.x + L][p.z].cornerIndex.At(BottomRight))
  }

  /** The chunk holding cell p: chunks are cr cells wide, cc to a row. */
  function ChunkOf(p: Pos, cr: nat, cc: nat): nat
    requires cr > 0
  {
    MulMonotone(0, p.z / cr, cc);
    (p.z / cr) * cc + p.x / cr
  }

  /**
   * Read back as row and column of the chunk table, a cell's chunk id gives
   * the cell's chunk row z / cr and chunk column x / cr.
   */
  lemma ChunkOfDecodes(p: Pos, cr: nat, cc: nat)
    requires cr > 0 && p.x / cr < cc
    ensures ChunkOf(p, cr, cc) / cc == p.z / cr && ChunkOf(p, cr, cc) % cc == p.x / cr
  {
    DivInBlock(ChunkOf(p, cr, cc), cc, p.z / cr);
  }

  /** The quad starting at p can be emitted: no division by zero, no read past the grid or the look-up table. */
  predicate Emittable(g: Grid, R: nat, cr: nat, cc: nat, p: Pos)
    requires IsGrid(g, R) && p.x < R && p.z < R
  {
    cr > 0 && QuadFits(g, R, p) && ChunkOf(p, cr, cc) < cc * cc
  }

  /** The index list and the per-chunk look-up table of quad offsets. */
  datatype Built = Built(indices: seq<int>, lookup: seq<seq<nat>>)

  /** One cell of the walk. */
  function EmitCell(g: Grid, R: nat, cr: nat, cc: nat, b: Built, p: Pos): (r: Result<Built>)
    requires IsGrid(g, R) && p.x < R && p.z < R && |b.lookup| == cc * cc
    ensures r.Ok? <==> !StartsQuad(g, R, p) || Emittable(g, R, cr, cc, p)
    ensures r.Ok? ==> |r.value.lookup| == cc * cc && |r.value.indices| % 6 == |b.indices| % 6
  {
    if !StartsQuad(g, R, p) then Ok(b)
    else if cr == 0 then Err(DivideByZero)
    else if !QuadFits(g, R, p) then Err(CellOutOfRange)
    else
      var k := ChunkOf(p, cr, cc);
      if k >= |b.lookup| then Err(ChunkListOutOfRange)
      else
        var indices := b.indices + QuadTriangles(QuadCorners(g, R, p));
        SixMore(|b.indices|, |indices|);
        Ok(Built(indices, b.lookup[k := b.lookup[k] + [|b.indices|]]))
  }

  /** Six more indices keep the count's remainder modulo 6. */
  lemma SixMore(n: nat, m: nat)
    requires m == n + 6
    ensures m % 6 == n % 6
  {
  }

  /** The walk over the first m cells, row by row. */
  function BuildUpTo(g: Grid, R: nat, cr: nat, cc: nat, m: nat): (r: Result<Built>)
    requires IsGrid(g, R) && m <= R * R
    ensures r.Ok? ==> |r.value.lookup| == cc * cc && |r.value.indices| % 6 == 0
    ensures r == Err(DivideByZero) ==> cr == 0
    ensures r.Err? ==> r.error in {DivideByZero, CellOutOfRange, ChunkListOutOfRange}
  {
    if m == 0 then Ok(Built([], seq(cc * cc, _ => [])))
    else
      var b :- BuildUpTo(g, R, cr, cc, m - 1);
      EmitCell(g, R, cr, cc, b, CellAt(R, m - 1))
  }

  /**
   * PopulateIndicesFromTerrainQuadCells on the whole grid: it fails exactly
   * when some quad start cannot be emitted, it divides by zero only with a
   * chunk resolution of 0, and a success lists every quad of the grid with
   * one look-up list per chunk.
   */
  function BuildIndices(g: Grid, R: nat, cr: nat, cc: nat): (r: Result<Built>)
    requires IsGrid(g, R)
    ensures r.Ok? <==> AllEmittable(g, R, cr, cc, QuadStarts(g, R))
    ensures r == Err(DivideByZero) ==> cr == 0
    ensures r.Err? ==> r.error in {DivideByZero, CellOutOfRange, ChunkListOutOfRange}
    ensures r.Ok? ==> |r.value.lookup| == cc * cc && |r.value.indices| % 6 == 0
    ensures r.Ok? && cr > 0 ==>
      && (forall j :: 0 <= j < |QuadStarts(g, R)| ==> QuadFits(g, R, QuadStarts(g, R)[j]))
      && Describes(g, R, cr, cc, QuadStarts(g, R), r.value)
  {
    BuildUpToOk(g, R, cr, cc, R * R);
    var r := BuildUpTo(g, R, cr, cc, R * R);
    if r.Ok? && cr > 0 then BuildUpToDescribes(g, R, cr, cc, R * R); r else r
  }

  /**
   * The built lists describe the quads qs: six indices per quad, in order,
   * naming the quad's corners as TL, BL, BR, TL, BR, TR; and look-up list k
   * holds, in increasing order, the offsets of exactly the quads of chunk k.
   */
  ghost predicate Describes(g: Grid, R: nat, cr: nat, cc: nat, qs: seq<Pos>, b: Built)
    requires IsGrid(g, R) && cr > 0
    requires forall j :: 0 <= j < |qs| ==> qs[j].x < R && qs[j].z < R && QuadFits(g, R, qs[j])
  {
    && |b.indices| == 6 * |qs|
    && |b.lookup| == cc * cc
    && (forall j :: 0 <= j < |qs| ==> b.indices[6 * j .. 6 * j + 6] == QuadTriangles(QuadCorners(g, R, qs[j])))
    && (forall k, t :: 0 <= k < |b.lookup| && 0 <= t < |b.lookup[k]| ==>
          b.lookup[k][t] % 6 == 0 && b.lookup[k][t] / 6 < |qs| && ChunkOf(qs[b.lookup[k][t] / 6], cr, cc) == k)
    && (forall k, t, u :: 0 <= k < |b.lookup| && 0 <= t < u < |b.lookup[k]| ==> b.lookup[k][t] < b.lookup[k][u])
    && (forall j :: 0 <= j < |qs| ==> ChunkOf(qs[j], cr, cc) < |b.lookup| && 6 * j in b.lookup[ChunkOf(qs[j], cr, cc)])
  }

  /** Every quad of qs can be emitted. */
  predicate AllEmittable(g: Grid, R: nat, cr: nat, cc: nat, qs: seq<Pos>)
    requires IsGrid(g, R) && forall j :: 0 <= j < |qs| ==> qs[j].x < R && qs[j].z < R
  {
    forall j :: 0 <= j < |qs| ==> Emittable(g, R, cr, cc, qs[j])
  }

  /** The walk fails exactly when some quad start among the first m cells cannot be emitted. */
  lemma {:induction false} BuildUpToOk(g: Grid, R: nat, cr: nat, cc: nat, m: nat)
    requires IsGrid(g, R) && m <= R * R
    ensures BuildUpTo(g, R, cr, cc, m).Ok? <==> AllEmittable(g, R, cr, cc, QuadStartsUpTo(g, R, m))
  {
    if m > 0 {
      BuildUpToOk(g, R, cr, cc, m - 1);
      var p := CellAt(R, m - 1);
      var qs := QuadStartsUpTo(g, R, m - 1);
      if StartsQuad(g, R, p) {
        assert QuadStartsUpTo(g, R, m) == qs + [p];
        AllEmittableAppend(g, R, cr, cc, qs, [p]);
        assert AllEmittable(g, R, cr, cc, [p]) <==> Emittable(g, R, cr, cc, p) by {
          assert [p][0] == p;
        }
      } else {
        assert QuadStartsUpTo(g, R, m) == qs;
      }
      var prev := BuildUpTo(g, R, cr, cc, m - 1);
      if prev.Ok? {
        assert BuildUpTo(g, R, cr, cc, m) == EmitCell(g, R, cr, cc, prev.value, p);
      } else {
        assert BuildUpTo(g, R, cr, cc, m) == Err(prev.error);
      }
    }
  }

  /** The quads of qs + extra can all be emitted iff those of qs and those of extra can. */
  lemma AllEmittableAppend(g: Grid, R: nat, cr: nat, cc: nat, qs: seq<Pos>, extra: seq<Pos>)
    requires IsGrid(g, R)
    requires forall j :: 0 <= j < |qs| ==> qs[j].x < R && qs[j].z < R
    requires forall j :: 0 <= j < |extra| ==> extra[j].x < R && extra[j].z < R
    ensures AllEmittable(g, R, cr, cc, qs + extra) <==> AllEmittable(g, R, cr, cc, qs) && AllEmittable(g, R, cr, cc, extra)
  {
    var all := qs + extra;
    if AllEmittable(g, R, cr, cc, qs) && AllEmittable(g, R, cr, cc, extra) {
      forall j | 0 <= j < |all| ensures Emittable(g, R, cr, cc, all[j]) {
        if j < |qs| {
          assert all[j] == qs[j];
        } else {
          assert all[j] == extra[j - |qs|];
        }
      }
    }
    if AllEmittable(g, R, cr, cc, all) {
      forall j | 0 <= j < |qs| ensures Emittable(g, R, cr, cc, qs[j]) {
        assert all[j] == qs[j];
      }
      forall j | 0 <= j < |extra| ensures Emittable(g, R, cr, cc, extra[j]) {
        assert all[|qs| + j] == extra[j];
      }
    }
  }

  /** Appending one emitted quad keeps the lists describing the quads so far. */
  lemma DescribesAppend(g: Grid, R: nat, cr: nat, cc: nat, qs: seq<Pos>, b: Built, p: Pos)
    requires IsGrid(g, R) && cr > 0
    requires forall j :: 0 <= j < |qs| ==> qs[j].x < R && qs[j].z < R && QuadFits(g, R, qs[j])
    requires p.x < R && p.z < R && Emittable(g, R, cr, cc, p)
    requires Describes(g, R, cr, cc, qs, b)
    ensures var k := ChunkOf(p, cr, cc);
            Describes(g, R, cr, cc, qs + [p],
                      Built(b.indices + QuadTriangles(QuadCorners(g, R, p)), b.lookup[k := b.lookup[k] + [|b.indices|]]))
  {
    var k := ChunkOf(p, cr, cc);
    var b' := Built(b.indices + QuadTriangles(QuadCorners(g, R, p)), b.lookup[k := b.lookup[k] + [|b.indices|]]);
    AppendIndices(g, R, cr, cc, qs, b, p);
    AppendOffsets(g, R, cr, cc, qs, b, p);
    AppendOffsetsIncrease(g, R, cr, cc, qs, b, p);
    AppendOffsetsComplete(g, R, cr, cc, qs, b, p);
  }

  /** Appending a quad's six indices keeps every earlier quad's six and adds its own. */
  lemma AppendIndices(g: Grid, R: nat, cr: nat, cc: nat, qs: seq<Pos>, b: Built, p: Pos)
    requires IsGrid(g, R) && cr > 0
    requires forall j :: 0 <= j < |qs| ==> qs[j].x < R && qs[j].z < R && QuadFits(g, R, qs[j])
    requires p.x < R && p.z < R && Emittable(g, R, cr, cc, p)
    requires Describes(g, R, cr, cc, qs, b)
    ensures var all, ix := qs + [p], b.indices + QuadTriangles(QuadCorners(g, R, p));
            |ix| == 6 * |all| && forall j :: 0 <= j < |all| ==> ix[6 * j .. 6 * j + 6] == QuadTriangles(QuadCorners(g, R, all[j]))
  {
    var all, ix := qs + [p], b.indices + QuadTriangles(QuadCorners(g, R, p));
    forall j | 0 <= j < |all|
      ensures ix[6 * j .. 6 * j + 6] == QuadTriangles(QuadCorners(g, R, all[j]))
    {
      if j < |qs| {
        assert ix[6 * j .. 6 * j + 6] == b.indices[6 * j .. 6 * j + 6];
      } else {
        assert ix[6 * j .. 6 * j + 6] == QuadTriangles(QuadCorners(g, R, p));
      }
    }
  }

  /** After recording the new quad's offset, every look-up entry still names a quad of its own chunk. */
  lemma AppendOffsets(g: Grid, R: nat, cr: nat, cc: nat, qs: seq<Pos>, b: Built, p: Pos)
    requires IsGrid(g, R) && cr > 0
    requires forall j :: 0 <= j < |qs| ==> qs[j].x < R && qs[j].z < R && QuadFits(g, R, qs[j])
    requires p.x < R && p.z < R && Emittable(g, R, cr, cc, p)
    requires Describes(g, R, cr, cc, qs, b)
    ensures var k, all := ChunkOf(p, cr, cc), qs + [p];
            var lk := b.lookup[k := b.lookup[k] + [|b.indices|]];
            forall k', t :: 0 <= k' < |lk| && 0 <= t < |lk[k']| ==>
              lk[k'][t] % 6 == 0 && lk[k'][t] / 6 < |all| && ChunkOf(all[lk[k'][t] / 6], cr, cc) == k'
  {
    var k, all := ChunkOf(p, cr, cc), qs + [p];
    var lk := b.lookup[k := b.lookup[k] + [|b.indices|]];
    forall k', t | 0 <= k' < |lk| && 0 <= t < |lk[k']|
      ensures lk[k'][t] % 6 == 0 && lk[k'][t] / 6 < |all| && ChunkOf(all[lk[k'][t] / 6], cr, cc) == k'
    {
      if k' != k || t < |b.lookup[k]| {
        assert lk[k'][t] == b.lookup[k'][t];
      }
    }
  }

  /** The new quad's offset is larger than every offset already recorded, so each list stays increasing. */
  lemma AppendOffsetsIncrease(g: Grid, R: nat, cr: nat, cc: nat, qs: seq<Pos>, b: Built, p: Pos)
    requires IsGrid(g, R) && cr > 0
    requires forall j :: 0 <= j < |qs| ==> qs[j].x < R && qs[j].z < R && QuadFits(g, R, qs[j])
    requires p.x < R && p.z < R && Emittable(g, R, cr, cc, p)
    requires Describes(g, R, cr, cc, qs, b)
    ensures var k := ChunkOf(p, cr, cc);
            var lk := b.lookup[k := b.lookup[k] + [|b.indices|]];
            forall k', t, u :: 0 <= k' < |lk| && 0 <= t < u < |lk[k']| ==> lk[k'][t] < lk[k'][u]
  {
    var k := ChunkOf(p, cr, cc);
    var lk := b.lookup[k := b.lookup[k] + [|b.indices|]];
    forall k', t, u | 0 <= k' < |lk| && 0 <= t < u < |lk[k']|
      ensures lk[k'][t] < lk[k'][u]
    {
      if k' == k && u == |b.lookup[k]| {
        assert b.lookup[k][t] % 6 == 0 && b.lookup[k][t] / 6 < |qs|;
      }
    }
  }

  /** Every quad, the new one included, has its offset in its own chunk's list. */
  lemma AppendOffsetsComplete(g: Grid, R: nat, cr: nat, cc: nat, qs: seq<Pos>, b: Built, p: Pos)
    requires IsGrid(g, R) && cr > 0
    requires forall j :: 0 <= j < |qs| ==> qs[j].x < R && qs[j].z < R && QuadFits(g, R, qs[j])
    requires p.x < R && p.z < R && Emittable(g, R, cr, cc, p)
    requires Describes(g, R, cr, cc, qs, b)
    ensures var k, all := ChunkOf(p, cr, cc), qs + [p];
            var lk := b.lookup[k := b.lookup[k] + [|b.indices|]];
            forall j :: 0 <= j < |all| ==> ChunkOf(all[j], cr, cc) < |lk| && 6 * j in lk[ChunkOf(all[j], cr, cc)]
  {
    var k, all := ChunkOf(p, cr, cc), qs + [p];
    var lk := b.lookup[k := b.lookup[k] + [|b.indices|]];
    forall j | 0 <= j < |all|
      ensures ChunkOf(all[j], cr, cc) < |lk| && 6 * j in lk[ChunkOf(all[j], cr, cc)]
    {
      if j < |qs| {
        assert all[j] == qs[j];
        assert 6 * j in b.lookup[ChunkOf(qs[j], cr, cc)];
      } else {
        assert lk[k][|b.lookup[k]|] == 6 * j;
      }
    }
  }

  /** A successful walk over the first m cells describes exactly the quads starting among them. */
  lemma {:induction false} BuildUpToDescribes(g: Grid, R: nat, cr: nat, cc: nat, m: nat)
    requires IsGrid(g, R) && m <= R * R && cr > 0
    requires BuildUpTo(g, R, cr, cc, m).Ok?
    ensures forall j :: 0 <= j < |QuadStartsUpTo(g, R, m)| ==> QuadFits(g, R, QuadStartsUpTo(g, R, m)[j])
    ensures Describes(g, R, cr, cc, QuadStartsUpTo(g, R, m), BuildUpTo(g, R, cr, cc, m).value)
  {
    if m > 0 {
      var p := CellAt(R, m - 1);
      var qs := QuadStartsUpTo(g, R, m - 1);
      var prev := BuildUpTo(g, R, cr, cc, m - 1);
      assert prev.Ok?;
      var next := EmitCell(g, R, cr, cc, prev.value, p);
      assert BuildUpTo(g, R, cr, cc, m) == next;
      BuildUpToDescribes(g, R, cr, cc, m - 1);
      if StartsQuad(g, R, p) {
        assert QuadStartsUpTo(g, R, m) == qs + [p];
        assert Emittable(g, R, cr, cc, p);
        DescribesAppend(g, R, cr, cc, qs, prev.value, p);
      } else {
        assert QuadStartsUpTo(g, R, m) == qs;
        assert next == Ok(prev.value);
      }
    } else {
      assert Describes(g, R, cr, cc, [], BuildUpTo(g, R, cr, cc, m).value);
    }
  }

  /** With R = cr * cc, every cell's chunk id is a valid index into the cc * cc look-up lists. */
  lemma ChunkInRange(p: Pos, cr: nat, cc: nat)
    requires cr > 0 && p.x < cr * cc && p.z < cr * cc
    ensures ChunkOf(p, cr, cc) < cc * cc
  {
    var a, b := p.z / cr, p.x / cr;
    if a >= cc {
      MulMonotone(cc, a, cr);
      assert false;
    }
    if b >= cc {
      MulMonotone(cc, b, cr);
      assert false;
    }
    MulMonotone(a, cc - 1, cc);
  }

  /** In a sealed grid every quad start can be emitted once chunks tile the grid exactly. */
  lemma SealedEmittable(g: Grid, R: nat, cr: nat, cc: nat, p: Pos)
    requires IsGrid(g, R) && Sealed(g, R) && cr > 0 && cr * cc == R
    requires p.x < R && p.z < R && StartsQuad(g, R, p)
    ensures Emittable(g, R, cr, cc, p)
    ensures QuadCloses(g, R, p.x, p.z)
  {
    ChunkInRange(p, cr, cc);
  }

  /**
   * On a sealed grid whose vertex corners are all indexed below n, the
   * builder never fails, every index it emits names one of the n vertices,
   * and the lists describe every quad of the grid.
   */
  lemma BuildIndicesSealed(g: Grid, R: nat, cr: nat, cc: nat, n: nat)
    requires IsGrid(g, R) && Sealed(g, R) && CornersIndexed(g, R, n) && cr > 0 && cr * cc == R
    ensures BuildIndices(g, R, cr, cc).Ok?
    ensures forall j :: 0 <= j < |QuadStarts(g, R)| ==> QuadFits(g, R, QuadStarts(g, R)[j])
    ensures Describes(g, R, cr, cc, QuadStarts(g, R), BuildIndices(g, R, cr, cc).value)
    ensures forall i :: 0 <= i < |BuildIndices(g, R, cr, cc).value.indices| ==>
      0 <= BuildIndices(g, R, cr, cc).value.indices[i] < n
  {
    var qs := QuadStarts(g, R);
    forall j | 0 <= j < |qs|
      ensures Emittable(g, R, cr, cc, qs[j])
    {
      SealedEmittable(g, R, cr, cc, qs[j]);
    }
    BuildUpToOk(g, R, cr, cc, R * R);
    BuildUpToDescribes(g, R, cr, cc, R * R);
    forall j | 0 <= j < |qs|
      ensures CornersBelow(QuadCorners(g, R, qs[j]), n)
    {
      assert QuadCloses(g, R, qs[j].x, qs[j].z);
      QuadCornersIndexed(g, R, n, qs[j]);
    }
    DescribedIndicesInRange(g, R, cr, cc, n, qs, BuildIndices(g, R, cr, cc).value);
  }

  /** All four corner indices lie in [0, n). */
  predicate CornersBelow(c: Corners, n: nat)
  {
    0 <= c.topLeft < n && 0 <= c.topRight < n && 0 <= c.bottomLeft < n && 0 <= c.bottomRight < n
  }

  lemma DescribedIndicesInRange(g: Grid, R: nat, cr: nat, cc: nat, n: nat, qs: seq<Pos>, b: Built)
    requires IsGrid(g, R) && cr > 0
    requires forall j :: 0 <= j < |qs| ==> qs[j].x < R && qs[j].z < R && QuadFits(g, R, qs[j])
    requires forall j :: 0 <= j < |qs| ==> CornersBelow(QuadCorners(g, R, qs[j]), n)
    requires Describes(g, R, cr, cc, qs, b)
    ensures forall i :: 0 <= i < |b.indices| ==> 0 <= b.indices[i] < n
  {
    forall i | 0 <= i < |b.indices|
      ensures 0 <= b.indices[i] < n
    {
      DescribedIndexInRange(g, R, cr, cc, n, qs, b, i);
    }
  }

  /** Entry i of the index list is one of the four corners of quad i / 6, so it is below n. */
  lemma DescribedIndexInRange(g: Grid, R: nat, cr: nat, cc: nat, n: nat, qs: seq<Pos>, b: Built, i: nat)
    requires IsGrid(g, R) && cr > 0
    requires forall j :: 0 <= j < |qs| ==> qs[j].x < R && qs[j].z < R && QuadFits(g, R, qs[j])
    requires forall j :: 0 <= j < |qs| ==> CornersBelow(QuadCorners(g, R, qs[j]), n)
    requires |b.indices| == 6 * |qs|
    requires forall j :: 0 <= j < |qs| ==> b.indices[6 * j .. 6 * j + 6] == QuadTriangles(QuadCorners(g, R, qs[j]))
    requires i < |b.indices|
    ensures 0 <= b.indices[i] < n
  {
    var j := i / 6;
    assert 6 * j <= i < 6 * j + 6 && j < |qs|;
    var c := QuadCorners(g, R, qs[j]);
    var six := b.indices[6 * j .. 6 * j + 6];
    assert six == QuadTriangles(c);
    assert b.indices[i] == six[i - 6 * j];
    assert CornersBelow(c, n);
  }

  /** The four corners a closed quad reads are vertices, so they carry indices below n. */
  lemma QuadCornersIndexed(g: Grid, R: nat, n: nat, q: Pos)
    requires IsGrid(g, R) && CornersIndexed(g, R, n)
    requires q.x < R && q.z < R && StartsQuad(g, R, q) && QuadCloses(g, R, q.x, q.z)
    ensures QuadFits(g, R, q)
    ensures CornersBelow(QuadCorners(g, R, q), n)
  {
    var L := QuadLength(g, R, q.x, q.z);
    var zt := q.z + L;
    var c := QuadCorners(g, R, q);
    assert c.topLeft == g[q.x][zt].cornerIndex.At(TopLeft);
    assert c.topRight == g[q.x + L][zt].cornerIndex.At(TopRight);
    assert c.bottomLeft == g[q.x][q.z].cornerIndex.At(BottomLeft);
    assert c.bottomRight == g[q.x + L][q.z].cornerIndex.At(BottomRight);
  }

  /**
   * With a chunk resolution of 0 and a quad starting at the first cell, the
   * builder stops there with a division by zero, whatever follows.
   */
  lemma {:induction false} ZeroChunkResolutionFails(g: Grid, R: nat, cc: nat, m: nat)
    requires IsGrid(g, R) && 1 <= m <= R * R && StartsQuad(g, R, Pos(0, 0))
    ensures BuildUpTo(g, R, 0, cc, m) == Err(DivideByZero)
  {
    if m == 1 {
      assert CellAt(R, 0) == Pos(0, 0);
    } else {
      ZeroChunkResolutionFails(g, R, cc, m - 1);
    }
  }
}
