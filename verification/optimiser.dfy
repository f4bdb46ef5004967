/**
 * The quadtree optimiser (BitwiseOptimiseTerrainQuadCells): split a
 * power-of-two region into four quadrants and, for each in turn, either mark
 * it as one merged quad or recurse into it. The flatness score of a quadrant
 * (mean and variance of the uniform normals) is an oracle; only its strict
 * comparison against the threshold is modelled.
 */
module Optimiser {
  import opened Outcomes
  import opened PowersOfTwo
  import opened QuadCells
  import opened Grids

  /** The flatness oracle: score(h, x, z) for the quadrant of side h whose bottom-left cell is (x, z). */
  datatype Flatness = Flatness(score: (nat, nat, nat) -> real, threshold: real)

  /** The strict test `standardDeviation < _simplifyThreshold`. */
  predicate IsFlat(fl: Flatness, h: nat, x: nat, z: nat)
  {
    fl.score(h, x, z) < fl.threshold
  }

  /** A square block of cells of side h whose bottom-left cell is (x, z). */
  datatype Square = Square(x: nat, z: nat, h: nat)

  predicate InSquare(x: int, z: int, s: Square)
  {
    s.x <= x < s.x + s.h && s.z <= z < s.z + s.h
  }

  predicate SquareWithin(inner: Square, outer: Square)
  {
    outer.x <= inner.x && inner.x + inner.h <= outer.x + outer.h
    && outer.z <= inner.z && inner.z + inner.h <= outer.z + outer.h
  }

  /** The two cells agree on everything but the edge mask. */
  predicate SameCorners(a: QuadCell, b: QuadCell)
  {
    a.uniformCornerIndex == b.uniformCornerIndex && a.cornerIndex == b.cornerIndex
  }

  /** Whether local cell (i, j) of a side-h square sits at corner c of the square. */
  predicate OuterCorner(i: int, j: int, h: int, c: Corner)
  {
    match c
    case TopLeft => i == 0 && j == h - 1
    case TopRight => i == h - 1 && j == h - 1
    case BottomLeft => i == 0 && j == 0
    case BottomRight => i == h - 1 && j == 0
  }

  // ---------------------------------------------------------------------------
  // Marking a merged quadrant
  // ---------------------------------------------------------------------------

  /** The marking loop's body for local cell (i, j) of a merged quadrant of side h. */
  function MarkCell(cell: QuadCell, i: nat, j: nat, h: nat): (r: QuadCell)
    ensures SameCorners(r, cell)
  {
    var c1 := if i == 0 then SetExternalEdge(cell, Left) else cell;
    var c2 := if i == h - 1 then SetExternalEdge(c1, Right) else c1;
    var c3 := if j == 0 then SetExternalEdge(c2, Down) else c2;
    var c4 := if j == h - 1 then SetExternalEdge(c3, Up) else c3;
    var internalQuad := i != 0 && i != h - 1 && j != 0 && j != h - 1;
    if internalQuad then c4.(edges := Interior) else c4
  }

  /**
   * The sides a cell at local (i, j) of a merged square of side h ends with:
   * a boundary cell has exactly the sides on the square's boundary, an
   * interior cell has all four.
   */
  predicate MarkedSides(cell: QuadCell, i: int, j: int, h: int)
  {
    var interior := 0 < i < h - 1 && 0 < j < h - 1;
    && (HasEdge(cell, Left) <==> i == 0 || interior)
    && (HasEdge(cell, Right) <==> i == h - 1 || interior)
    && (HasEdge(cell, Down) <==> j == 0 || interior)
    && (HasEdge(cell, Up) <==> j == h - 1 || interior)
    && (interior ==> cell.edges == Interior)
  }

  /** Marking a fresh cell gives it exactly the sides MarkedSides prescribes. */
  lemma MarkedEdges(cell: QuadCell, i: nat, j: nat, h: nat)
    requires IsCellSingleQuad(cell) && h >= 2 && i < h && j < h
    ensures MarkedSides(MarkCell(cell, i, j, h), i, j, h)
  {
  }

  /** In a merged quadrant of side h >= 2, exactly its four outer corners are vertices. */
  lemma MarkedCorners(cell: QuadCell, i: nat, j: nat, h: nat, c: Corner)
    requires IsCellSingleQuad(cell) && h >= 2 && i < h && j < h
    ensures IsCornerVertex(MarkCell(cell, i, j, h), c) <==> OuterCorner(i, j, h, c)
  {
  }

  /** Mark every cell of square s (the two marking loops). */
  function MarkQuadrant(g: Grid, R: nat, s: Square): (r: Grid)
    requires IsGrid(g, R) && s.x + s.h <= R && s.z + s.h <= R
    ensures IsGrid(r, R)
    ensures forall x, z :: 0 <= x < R && 0 <= z < R ==>
      r[x][z] == if InSquare(x, z, s) then MarkCell(g[x][z], x - s.x, z - s.z, s.h) else g[x][z]
  {
    seq(R, x requires 0 <= x < R =>
      seq(R, z requires 0 <= z < R =>
        if InSquare(x, z, s) then MarkCell(g[x][z], x - s.x, z - s.z, s.h) else g[x][z]))
  }

  /**
   * Marking a square of side h >= 2 leaves every cell outside it alone and
   * keeps the corner arrays of every cell inside it; a fresh cell inside
   * ends with the sides its local position prescribes, and its vertex
   * corners are exactly those at the square's four outer corners.
   */
  lemma MarkQuadrantMarks(g: Grid, R: nat, s: Square)
    requires IsGrid(g, R) && s.x + s.h <= R && s.z + s.h <= R && s.h >= 2
    ensures var r := MarkQuadrant(g, R, s);
            && (forall x, z :: 0 <= x < R && 0 <= z < R && !InSquare(x, z, s) ==> r[x][z] == g[x][z])
            && (forall x, z :: 0 <= x < R && 0 <= z < R && InSquare(x, z, s) ==> SameCorners(r[x][z], g[x][z]))
            && (forall x, z :: 0 <= x < R && 0 <= z < R && InSquare(x, z, s) && IsCellSingleQuad(g[x][z]) ==>
                  MarkedSides(r[x][z], x - s.x, z - s.z, s.h))
            && (forall x, z, c :: 0 <= x < R && 0 <= z < R && InSquare(x, z, s) && IsCellSingleQuad(g[x][z]) ==>
                  (IsCornerVertex(r[x][z], c) <==> OuterCorner(x - s.x, z - s.z, s.h, c)))
  {
    var r := MarkQuadrant(g, R, s);
    forall x, z | 0 <= x < R && 0 <= z < R && InSquare(x, z, s) && IsCellSingleQuad(g[x][z])
      ensures MarkedSides(r[x][z], x - s.x, z - s.z, s.h)
      ensures forall c :: IsCornerVertex(r[x][z], c) <==> OuterCorner(x - s.x, z - s.z, s.h, c)
    {
      MarkedEdges(g[x][z], x - s.x, z - s.z, s.h);
      forall c ensures IsCornerVertex(r[x][z], c) <==> OuterCorner(x - s.x, z - s.z, s.h, c) {
        MarkedCorners(g[x][z], x - s.x, z - s.z, s.h, c);
      }
    }
  }

  // ---------------------------------------------------------------------------
  // The recursion
  // ---------------------------------------------------------------------------

  /**
   * BitwiseOptimiseTerrainQuadCells(size, ox, oz) with chunk resolution cr.
   * The older, unchunked generator is the case cr = R, where the cap
   * `halfResolution <= _chunkResolution` always holds.
   */
  function Optimise(g: Grid, R: nat, cr: nat, fl: Flatness, size: nat, ox: nat, oz: nat): (r: Grid)
    requires IsGrid(g, R) && IsPow2(size) && ox + size <= R && oz + size <= R
    ensures IsGrid(r, R)
    ensures size < 4 ==> r == g
    ensures forall x, z :: 0 <= x < R && 0 <= z < R && !InSquare(x, z, Square(ox, oz, size)) ==> r[x][z] == g[x][z]
    ensures forall x, z :: 0 <= x < R && 0 <= z < R ==> SameCorners(r[x][z], g[x][z])
    decreases size, 1
  {
    if size < 4 then g
    else
      HalfIsPow2(size);
      Quadrants(g, R, cr, fl, size / 2, ox, oz)
  }

  /** The quadrant loop of a region of side 2h: bottom-left, bottom-right, top-left, top-right. */
  function Quadrants(g: Grid, R: nat, cr: nat, fl: Flatness, h: nat, ox: nat, oz: nat): (r: Grid)
    requires IsGrid(g, R) && IsPow2(h) && ox + 2 * h <= R && oz + 2 * h <= R
    ensures IsGrid(r, R)
    ensures forall x, z :: 0 <= x < R && 0 <= z < R && !InSquare(x, z, Square(ox, oz, 2 * h)) ==> r[x][z] == g[x][z]
    ensures forall x, z :: 0 <= x < R && 0 <= z < R ==> SameCorners(r[x][z], g[x][z])
    decreases 2 * h, 0
  {
    var g1 := Visit(g, R, cr, fl, Square(ox, oz, h));
    var g2 := Visit(g1, R, cr, fl, Square(ox + h, oz, h));
    var g3 := Visit(g2, R, cr, fl, Square(ox, oz + h, h));
    Visit(g3, R, cr, fl, Square(ox + h, oz + h, h))
  }

  /** One quadrant of the loop: mark it when small enough and flat, else recurse. */
  function Visit(g: Grid, R: nat, cr: nat, fl: Flatness, q: Square): (r: Grid)
    requires IsGrid(g, R) && IsPow2(q.h) && q.x + q.h <= R && q.z + q.h <= R
    ensures IsGrid(r, R)
    ensures forall x, z :: 0 <= x < R && 0 <= z < R && !InSquare(x, z, q) ==> r[x][z] == g[x][z]
    ensures forall x, z :: 0 <= x < R && 0 <= z < R ==> SameCorners(r[x][z], g[x][z])
    decreases q.h, 2
  {
    if q.h <= cr && IsFlat(fl, q.h, q.x, q.z) then MarkQuadrant(g, R, q)
    else Optimise(g, R, cr, fl, q.h, q.x, q.z)
  }

  // ---------------------------------------------------------------------------
  // Reference: which merged square, if any, owns a cell
  // ---------------------------------------------------------------------------

  /** The quadrant of region (ox, oz, 2h) that holds cell (x, z). */
  function QuadrantOf(ox: nat, oz: nat, h: nat, x: nat, z: nat): Square
  {
    Square(if x < ox + h then ox else ox + h, if z < oz + h then oz else oz + h, h)
  }

  /**
   * Descend the quadtree along cell (x, z): the first quadrant on the way
   * that is at most cr wide and flat is the merged square holding the cell;
   * None when the descent reaches a region smaller than 4 first.
   */
  function Owner(cr: nat, fl: Flatness, size: nat, ox: nat, oz: nat, x: nat, z: nat): (o: Option<Square>)
    requires IsPow2(size) && InSquare(x, z, Square(ox, oz, size))
    ensures o.Some? ==> InSquare(x, z, o.value) && SquareWithin(o.value, Square(ox, oz, size))
    ensures o.Some? ==> IsPow2(o.value.h) && 2 <= o.value.h <= cr && o.value.h < size
    ensures o.Some? ==> IsFlat(fl, o.value.h, o.value.x, o.value.z)
    ensures o.Some? && ox % size == 0 && oz % size == 0 ==> o.value.x % o.value.h == 0 && o.value.z % o.value.h == 0
    decreases size
  {
    if size < 4 then None
    else
      HalfIsPow2(size);
      var h := size / 2;
      var q := QuadrantOf(ox, oz, h, x, z);
      AlignedHalf(ox, h);
      AlignedHalf(oz, h);
      if h <= cr && IsFlat(fl, h, q.x, q.z) then Some(q)
      else Owner(cr, fl, h, q.x, q.z, x, z)
  }

  /** An offset aligned to 2h is aligned to h, and so is that offset plus h. */
  lemma AlignedHalf(o: nat, h: nat)
    requires h >= 1
    ensures o % (2 * h) == 0 ==> o % h == 0 && (o + h) % h == 0
  {
    if o % (2 * h) == 0 {
      var k := o / (2 * h);
      assert o == (2 * k) * h;
      DivOfMultiple(2 * k, h);
      DivOfMultiple(2 * k + 1, h);
    }
  }

  /** A cell as the optimiser leaves it, given the square (if any) that owns it. */
  function Apply(o: Option<Square>, cell: QuadCell, x: nat, z: nat): QuadCell
    requires o.Some? ==> InSquare(x, z, o.value)
  {
    match o
    case None => cell
    case Some(s) => MarkCell(cell, x - s.x, z - s.z, s.h)
  }

  /**
   * Within the region, the optimiser marks a cell exactly once, as its owning
   * square prescribes, or leaves it alone when no square owns it.
   */
  lemma {:induction false} OptimiseCell(g: Grid, R: nat, cr: nat, fl: Flatness, size: nat, ox: nat, oz: nat, x: nat, z: nat)
    requires IsGrid(g, R) && IsPow2(size) && ox + size <= R && oz + size <= R
    requires InSquare(x, z, Square(ox, oz, size))
    ensures Optimise(g, R, cr, fl, size, ox, oz)[x][z] == Apply(Owner(cr, fl, size, ox, oz, x, z), g[x][z], x, z)
    decreases size, 2
  {
    if size >= 4 {
      HalfIsPow2(size);
      var h := size / 2;
      OwnerStep(cr, fl, size, ox, oz, x, z);
      QuadrantsCell(g, R, cr, fl, h, ox, oz, x, z);
    }
  }

  /** The quadrant loop of a region, followed at one of its cells: only the quadrant holding the cell touches it. */
  lemma {:induction false} QuadrantsCell(g: Grid, R: nat, cr: nat, fl: Flatness, h: nat, ox: nat, oz: nat, x: nat, z: nat)
    requires IsGrid(g, R) && IsPow2(h) && h >= 2 && ox + 2 * h <= R && oz + 2 * h <= R
    requires InSquare(x, z, Square(ox, oz, 2 * h))
    ensures InSquare(x, z, QuadrantOf(ox, oz, h, x, z))
    ensures Quadrants(g, R, cr, fl, h, ox, oz)[x][z] == Apply(VisitOwner(cr, fl, QuadrantOf(ox, oz, h, x, z), x, z), g[x][z], x, z)
    decreases 2 * h, 1
  {
    var s0, s1, s2, s3 := Square(ox, oz, h), Square(ox + h, oz, h), Square(ox, oz + h, h), Square(ox + h, oz + h, h);
    var g1 := Visit(g, R, cr, fl, s0);
    var g2 := Visit(g1, R, cr, fl, s1);
    var g3 := Visit(g2, R, cr, fl, s2);
    var g4 := Visit(g3, R, cr, fl, s3);
    var q := QuadrantOf(ox, oz, h, x, z);
    var o := VisitOwner(cr, fl, q, x, z);
    if x < ox + h && z < oz + h {
      assert q == s0 && !InSquare(x, z, s1) && !InSquare(x, z, s2) && !InSquare(x, z, s3);
      VisitCell(g, R, cr, fl, s0, x, z);
      assert g4[x][z] == g3[x][z] == g2[x][z] == g1[x][z] == Apply(o, g[x][z], x, z);
    } else if z < oz + h {
      assert q == s1 && !InSquare(x, z, s0) && !InSquare(x, z, s2) && !InSquare(x, z, s3);
      VisitCell(g1, R, cr, fl, s1, x, z);
      assert g1[x][z] == g[x][z];
      assert g4[x][z] == g3[x][z] == g2[x][z] == Apply(o, g[x][z], x, z);
    } else if x < ox + h {
      assert q == s2 && !InSquare(x, z, s0) && !InSquare(x, z, s1) && !InSquare(x, z, s3);
      VisitCell(g2, R, cr, fl, s2, x, z);
      assert g2[x][z] == g1[x][z] == g[x][z];
      assert g4[x][z] == g3[x][z] == Apply(o, g[x][z], x, z);
    } else {
      assert q == s3 && !InSquare(x, z, s0) && !InSquare(x, z, s1) && !InSquare(x, z, s2);
      VisitCell(g3, R, cr, fl, s3, x, z);
      assert g3[x][z] == g2[x][z] == g1[x][z] == g[x][z];
    }
  }

  /** The square a quadrant visit assigns to one of its cells. */
  function VisitOwner(cr: nat, fl: Flatness, q: Square, x: nat, z: nat): Option<Square>
    requires IsPow2(q.h) && InSquare(x, z, q)
  {
    if q.h <= cr && IsFlat(fl, q.h, q.x, q.z) then Some(q) else Owner(cr, fl, q.h, q.x, q.z, x, z)
  }

  /** One step of the descent: the owner within a region is the owner its quadrant's visit assigns. */
  lemma OwnerStep(cr: nat, fl: Flatness, size: nat, ox: nat, oz: nat, x: nat, z: nat)
    requires IsPow2(size) && size >= 4 && InSquare(x, z, Square(ox, oz, size))
    ensures IsPow2(size / 2) && InSquare(x, z, QuadrantOf(ox, oz, size / 2, x, z))
    ensures Owner(cr, fl, size, ox, oz, x, z) == VisitOwner(cr, fl, QuadrantOf(ox, oz, size / 2, x, z), x, z)
  {
    HalfIsPow2(size);
  }

  lemma {:induction false} VisitCell(g: Grid, R: nat, cr: nat, fl: Flatness, q: Square, x: nat, z: nat)
    requires IsGrid(g, R) && IsPow2(q.h) && q.x + q.h <= R && q.z + q.h <= R
    requires InSquare(x, z, q)
    ensures VisitOwner(cr, fl, q, x, z).Some? ==> InSquare(x, z, VisitOwner(cr, fl, q, x, z).value)
    ensures Visit(g, R, cr, fl, q)[x][z] == Apply(VisitOwner(cr, fl, q, x, z), g[x][z], x, z)
    decreases q.h, 3
  {
    if !(q.h <= cr && IsFlat(fl, q.h, q.x, q.z)) {
      OptimiseCell(g, R, cr, fl, q.h, q.x, q.z, x, z);
    }
  }

  // ---------------------------------------------------------------------------
  // Tiles: the squares the optimised grid is made of
  // ---------------------------------------------------------------------------

  /** Two cells of one merged square have that same square as owner. */
  lemma {:induction false} OwnerConsistent(cr: nat, fl: Flatness, size: nat, ox: nat, oz: nat, x: nat, z: nat, x2: nat, z2: nat)
    requires IsPow2(size) && InSquare(x, z, Square(ox, oz, size)) && InSquare(x2, z2, Square(ox, oz, size))
    requires Owner(cr, fl, size, ox, oz, x, z).Some?
    requires InSquare(x2, z2, Owner(cr, fl, size, ox, oz, x, z).value)
    ensures Owner(cr, fl, size, ox, oz, x2, z2) == Owner(cr, fl, size, ox, oz, x, z)
    decreases size
  {
    HalfIsPow2(size);
    var h := size / 2;
    var q := QuadrantOf(ox, oz, h, x, z);
    assert QuadrantOf(ox, oz, h, x2, z2) == q;
    if !(h <= cr && IsFlat(fl, h, q.x, q.z)) {
      OwnerConsistent(cr, fl, h, q.x, q.z, x, z, x2, z2);
    }
  }

  /** The square of the optimised grid that cell (x, z) belongs to: its merged square, or the cell alone. */
  function Tile(cr: nat, fl: Flatness, R: nat, x: nat, z: nat): (t: Square)
    requires IsPow2(R) && x < R && z < R
    ensures InSquare(x, z, t) && t.x + t.h <= R && t.z + t.h <= R && t.h >= 1
  {
    match Owner(cr, fl, R, 0, 0, x, z)
    case Some(s) => s
    case None => Square(x, z, 1)
  }

  lemma TileConsistent(cr: nat, fl: Flatness, R: nat, x: nat, z: nat, x2: nat, z2: nat)
    requires IsPow2(R) && x < R && z < R && InSquare(x2, z2, Tile(cr, fl, R, x, z))
    ensures x2 < R && z2 < R && Tile(cr, fl, R, x2, z2) == Tile(cr, fl, R, x, z)
  {
    var o := Owner(cr, fl, R, 0, 0, x, z);
    if o.Some? {
      assert Tile(cr, fl, R, x, z) == o.value;
      assert x2 < R && z2 < R;
      OwnerConsistent(cr, fl, R, 0, 0, x, z, x2, z2);
      assert Tile(cr, fl, R, x2, z2) == o.value;
    } else {
      assert Tile(cr, fl, R, x, z) == Square(x, z, 1);
      assert x2 == x && z2 == z;
    }
  }

  /**
   * After optimising a uniform grid, a corner of a cell is a vertex exactly
   * when it is one of the four outer corners of the cell's tile.
   */
  lemma OptimisedCorner(g: Grid, R: nat, cr: nat, fl: Flatness, x: nat, z: nat, c: Corner)
    requires IsGrid(g, R) && IsPow2(R) && AllSingle(g, R) && x < R && z < R
    ensures var t := Tile(cr, fl, R, x, z);
            IsCornerVertex(Optimise(g, R, cr, fl, R, 0, 0)[x][z], c) <==> OuterCorner(x - t.x, z - t.z, t.h, c)
  {
    OptimiseCell(g, R, cr, fl, R, 0, 0, x, z);
    var o := Owner(cr, fl, R, 0, 0, x, z);
    if o.Some? {
      MarkedCorners(g[x][z], x - o.value.x, z - o.value.z, o.value.h, c);
    }
  }

  /** Corner c of cell (x, z) is a vertex exactly when it is an outer corner of the cell's tile. */
  ghost predicate TiledAt(r: Grid, R: nat, cr: nat, fl: Flatness, x: nat, z: nat, c: Corner)
    requires IsGrid(r, R) && IsPow2(R) && x < R && z < R
  {
    var t := Tile(cr, fl, R, x, z);
    IsCornerVertex(r[x][z], c) <==> OuterCorner(x - t.x, z - t.z, t.h, c)
  }

  /** The grid's vertex corners are exactly the outer corners of the tiles. */
  ghost predicate Tiled(r: Grid, R: nat, cr: nat, fl: Flatness)
    requires IsGrid(r, R) && IsPow2(R)
  {
    forall x, z, c :: 0 <= x < R && 0 <= z < R ==> TiledAt(r, R, cr, fl, x, z, c)
  }

  lemma OptimisedTiled(g: Grid, R: nat, cr: nat, fl: Flatness)
    requires IsGrid(g, R) && IsPow2(R) && AllSingle(g, R)
    ensures Tiled(Optimise(g, R, cr, fl, R, 0, 0), R, cr, fl)
  {
    forall x, z, c | 0 <= x < R && 0 <= z < R ensures TiledAt(Optimise(g, R, cr, fl, R, 0, 0), R, cr, fl, x, z, c) {
      OptimisedCorner(g, R, cr, fl, x, z, c);
    }
  }

  /** In a tiled grid, the quad starting at a tile's BottomLeft finds its BottomRight at the tile's right column. */
  lemma TileBottomRow(r: Grid, R: nat, cr: nat, fl: Flatness, x: nat, z: nat)
    requires IsGrid(r, R) && IsPow2(R) && Tiled(r, R, cr, fl) && x < R && z < R
    requires IsCornerVertex(r[x][z], BottomLeft)
    ensures var t := Tile(cr, fl, R, x, z);
            t.x == x && t.z == z && FirstBottomRight(r, R, x, z) == Some(x + t.h - 1)
  {
    var t := Tile(cr, fl, R, x, z);
    assert TiledAt(r, R, cr, fl, x, z, BottomLeft);
    var e := x + t.h - 1;
    assert forall x2 :: x <= x2 < e ==> !IsCornerVertex(r[x2][z], BottomRight) by {
      forall x2 | x <= x2 < e
        ensures !IsCornerVertex(r[x2][z], BottomRight)
      {
        TileConsistent(cr, fl, R, x, z, x2, z);
        assert TiledAt(r, R, cr, fl, x2, z, BottomRight);
      }
    }
    assert IsCornerVertex(r[e][z], BottomRight) by {
      TileConsistent(cr, fl, R, x, z, e, z);
      assert TiledAt(r, R, cr, fl, e, z, BottomRight);
    }
    var f := FirstBottomRight(r, R, x, z);
    if f.None? || f.value != e {
      assert false;
    }
  }

  /** In a tiled grid, the quad starting at a tile's BottomLeft closes with the tile's other three corners. */
  lemma TileCloses(r: Grid, R: nat, cr: nat, fl: Flatness, x: nat, z: nat)
    requires IsGrid(r, R) && IsPow2(R) && Tiled(r, R, cr, fl) && x < R && z < R
    requires IsCornerVertex(r[x][z], BottomLeft)
    ensures QuadCloses(r, R, x, z)
  {
    var t := Tile(cr, fl, R, x, z);
    TileBottomRow(r, R, cr, fl, x, z);
    var e, zt := x + t.h - 1, z + t.h - 1;
    TileConsistent(cr, fl, R, x, z, x, zt);
    assert TiledAt(r, R, cr, fl, x, zt, TopLeft);
    TileConsistent(cr, fl, R, x, z, e, zt);
    assert TiledAt(r, R, cr, fl, e, zt, TopRight);
    ClosesAt(r, R, x, z, e);
  }

  /**
   * The optimiser's output is sealed: every quad the index builder starts
   * finds its BottomRight, TopLeft and TopRight corners where it looks.
   */
  lemma OptimisedIsSealed(g: Grid, R: nat, cr: nat, fl: Flatness)
    requires IsGrid(g, R) && IsPow2(R) && AllSingle(g, R)
    ensures Sealed(Optimise(g, R, cr, fl, R, 0, 0), R)
  {
    var r := Optimise(g, R, cr, fl, R, 0, 0);
    OptimisedTiled(g, R, cr, fl);
    forall x, z | 0 <= x < R && 0 <= z < R && IsCornerVertex(r[x][z], BottomLeft)
      ensures QuadCloses(r, R, x, z)
    {
      TileCloses(r, R, cr, fl, x, z);
    }
  }

  /** A merged square never straddles a chunk boundary: all its cells share one chunk. */
  lemma MergedSquareInOneChunk(cr: nat, fl: Flatness, R: nat, x: nat, z: nat, x2: nat, z2: nat)
    requires IsPow2(R) && IsPow2(cr) && x < R && z < R
    requires Owner(cr, fl, R, 0, 0, x, z).Some?
    requires InSquare(x2, z2, Owner(cr, fl, R, 0, 0, x, z).value)
    ensures x2 / cr == x / cr && z2 / cr == z / cr
  {
    var s := Owner(cr, fl, R, 0, 0, x, z).value;
    Pow2Quotient(s.h, cr);
    AlignedBlock(s.x, s.h, cr, x - s.x);
    AlignedBlock(s.x, s.h, cr, x2 - s.x);
    AlignedBlock(s.z, s.h, cr, z - s.z);
    AlignedBlock(s.z, s.h, cr, z2 - s.z);
  }

  // ---------------------------------------------------------------------------
  // The two extremes of the threshold
  // ---------------------------------------------------------------------------

  ghost predicate NeverFlat(fl: Flatness)
  {
    forall h, x, z :: !IsFlat(fl, h, x, z)
  }

  ghost predicate AlwaysFlat(fl: Flatness)
  {
    forall h, x, z :: IsFlat(fl, h, x, z)
  }

  lemma {:induction false} NeverFlatNoOwner(cr: nat, fl: Flatness, size: nat, ox: nat, oz: nat, x: nat, z: nat)
    requires NeverFlat(fl) && IsPow2(size) && InSquare(x, z, Square(ox, oz, size))
    ensures Owner(cr, fl, size, ox, oz, x, z).None?
    decreases size
  {
    if size >= 4 {
      HalfIsPow2(size);
      var q := QuadrantOf(ox, oz, size / 2, x, z);
      assert !IsFlat(fl, size / 2, q.x, q.z);
      NeverFlatNoOwner(cr, fl, size / 2, q.x, q.z, x, z);
    }
  }

  /** With nothing flat enough, the optimiser leaves the grid exactly as it found it. */
  lemma NeverFlatKeepsGrid(g: Grid, R: nat, cr: nat, fl: Flatness)
    requires IsGrid(g, R) && IsPow2(R) && NeverFlat(fl)
    ensures Optimise(g, R, cr, fl, R, 0, 0) == g
  {
    var r := Optimise(g, R, cr, fl, R, 0, 0);
    forall x, z | 0 <= x < R && 0 <= z < R
      ensures r[x][z] == g[x][z]
    {
      OptimiseCell(g, R, cr, fl, R, 0, 0, x, z);
      NeverFlatNoOwner(cr, fl, R, 0, 0, x, z);
    }
    forall x | 0 <= x < R
      ensures r[x] == g[x]
    {
      assert forall z :: 0 <= z < R ==> r[x][z] == g[x][z];
    }
  }

  /** With chunks under 2 cells wide no quadrant may merge: the grid is left as it was. */
  lemma NarrowChunksKeepGrid(g: Grid, R: nat, cr: nat, fl: Flatness)
    requires IsGrid(g, R) && IsPow2(R) && cr < 2
    ensures Optimise(g, R, cr, fl, R, 0, 0) == g
  {
    var r := Optimise(g, R, cr, fl, R, 0, 0);
    forall x, z | 0 <= x < R && 0 <= z < R
      ensures r[x][z] == g[x][z]
    {
      OptimiseCell(g, R, cr, fl, R, 0, 0, x, z);
    }
    forall x | 0 <= x < R
      ensures r[x] == g[x]
    {
      assert forall z :: 0 <= z < R ==> r[x][z] == g[x][z];
    }
  }

  /**
   * With everything flat and chunks at least half the terrain wide, the
   * terrain collapses into its four top-level quadrants: a cell corner is a
   * vertex exactly when it is an outer corner of its quadrant.
   */
  lemma AlwaysFlatFourQuadrants(g: Grid, R: nat, cr: nat, fl: Flatness, x: nat, z: nat, c: Corner)
    requires IsGrid(g, R) && IsPow2(R) && R >= 4 && cr >= R / 2 && AlwaysFlat(fl) && AllSingle(g, R)
    requires x < R && z < R
    ensures IsCornerVertex(Optimise(g, R, cr, fl, R, 0, 0)[x][z], c) <==> OuterCorner(x % (R / 2), z % (R / 2), R / 2, c)
  {
    HalfIsPow2(R);
    var h := R / 2;
    var q := QuadrantOf(0, 0, h, x, z);
    assert Tile(cr, fl, R, x, z) == q by {
      assert IsFlat(fl, h, q.x, q.z);
    }
    OptimisedCorner(g, R, cr, fl, x, z, c);
    assert x - q.x == x % h by {
      if x < h { DivInBlock(x, h, 0); } else { DivInBlock(x, h, 1); }
    }
    assert z - q.z == z % h by {
      if z < h { DivInBlock(z, h, 0); } else { DivInBlock(z, h, 1); }
    }
  }
}
