/**
 * One unit square of the simplification grid (TerrainQuadCell): the uniform
 * and compacted vertex indices of its four corners, and a four-bit mask of
 * the sides that are external boundaries of a merged region.
 */
module QuadCells {

  /** Corners, in the order the cell's index arrays use. */
  datatype Corner = TopLeft | TopRight | BottomLeft | BottomRight

  /** Sides; each owns one bit of the edge mask. */
  datatype Edge = Up | Down | Left | Right

  /** The edge mask. The source keeps it in an int, but only ever ORs in one
      of the four single bits or assigns 0 or 0b1111, so four bits hold it. */
  type Mask = bv4

  /** Mask of a cell strictly inside a merged quad: every side absorbed. */
  const Interior: Mask := 0xF

  /** Compacted-index value of a corner that has not been emitted. */
  const Unset: int := -1

  function Bit(e: Edge): Mask
  {
    match e
    case Up => 0x1
    case Down => 0x2
    case Left => 0x4
    case Right => 0x8
  }

  /** The two sides meeting at a corner. */
  function CornerEdges(c: Corner): (Edge, Edge)
  {
    match c
    case TopLeft => (Up, Left)
    case TopRight => (Up, Right)
    case BottomLeft => (Down, Left)
    case BottomRight => (Down, Right)
  }

  /** One int per corner, standing for the source's four-element int arrays. */
  datatype Corners = Corners(topLeft: int, topRight: int, bottomLeft: int, bottomRight: int)
  {
    function At(c: Corner): int
    {
      match c
      case TopLeft => topLeft
      case TopRight => topRight
      case BottomLeft => bottomLeft
      case BottomRight => bottomRight
    }

    /** The array store `a[c] = v`. */
    function With(c: Corner, v: int): (r: Corners)
      ensures r.At(c) == v
      ensures forall d :: d != c ==> r.At(d) == At(d)
    {
      match c
      case TopLeft => this.(topLeft := v)
      case TopRight => this.(topRight := v)
      case BottomLeft => this.(bottomLeft := v)
      case BottomRight => this.(bottomRight := v)
    }
  }

  datatype QuadCell = QuadCell(uniformCornerIndex: Corners, cornerIndex: Corners, edges: Mask)

  predicate HasEdge(cell: QuadCell, e: Edge)
  {
    cell.edges & Bit(e) != 0
  }

  /** The constructor: given uniform corner indices, no compacted index, no external side. */
  function NewCell(topLeft: int, topRight: int, bottomLeft: int, bottomRight: int): (cell: QuadCell)
    ensures forall e :: !HasEdge(cell, e)
    ensures forall c :: cell.cornerIndex.At(c) == Unset
    ensures cell.uniformCornerIndex.At(TopLeft) == topLeft
    ensures cell.uniformCornerIndex.At(TopRight) == topRight
    ensures cell.uniformCornerIndex.At(BottomLeft) == bottomLeft
    ensures cell.uniformCornerIndex.At(BottomRight) == bottomRight
    ensures forall c :: IsCornerVertex(cell, c)
  {
    QuadCell(Corners(topLeft, topRight, bottomLeft, bottomRight), Corners(Unset, Unset, Unset, Unset), 0)
  }

  /** `edges |= (int)edge`. */
  function SetExternalEdge(cell: QuadCell, e: Edge): (r: QuadCell)
    ensures HasEdge(r, e)
    ensures forall d :: d != e ==> (HasEdge(r, d) <==> HasEdge(cell, d))
    ensures r.uniformCornerIndex == cell.uniformCornerIndex && r.cornerIndex == cell.cornerIndex
  {
    cell.(edges := cell.edges | Bit(e))
  }

  /** A standalone 1x1 quad: no side belongs to a merged region. */
  predicate IsCellSingleQuad(cell: QuadCell)
  {
    cell.edges == 0
  }

  /** Whether this corner of the cell is a real, emitted vertex. */
  predicate IsCornerVertex(cell: QuadCell, c: Corner)
  {
    if IsCellSingleQuad(cell) then true
    else if cell.edges == Interior then false
    else
      match c
      case TopLeft => cell.edges & 0x5 == 0x5
      case TopRight => cell.edges & 0x9 == 0x9
      case BottomLeft => cell.edges & 0x6 == 0x6
      case BottomRight => cell.edges & 0xA == 0xA
  }

  /** Number of external sides. */
  function EdgeCount(cell: QuadCell): nat
  {
    (if HasEdge(cell, Up) then 1 else 0) + (if HasEdge(cell, Down) then 1 else 0)
    + (if HasEdge(cell, Left) then 1 else 0) + (if HasEdge(cell, Right) then 1 else 0)
  }

  /** Number of corners that are vertices. */
  function VertexCount(cell: QuadCell): nat
  {
    (if IsCornerVertex(cell, TopLeft) then 1 else 0) + (if IsCornerVertex(cell, TopRight) then 1 else 0)
    + (if IsCornerVertex(cell, BottomLeft) then 1 else 0) + (if IsCornerVertex(cell, BottomRight) then 1 else 0)
  }

  // ---------------------------------------------------------------------------
  // Properties of the edge mask and the corner rule
  // ---------------------------------------------------------------------------

  /** Setting the same side twice is the same as setting it once. */
  lemma SetExternalEdgeIdempotent(cell: QuadCell, e: Edge)
    ensures SetExternalEdge(SetExternalEdge(cell, e), e) == SetExternalEdge(cell, e)
  {
  }

  /** The order in which sides are set does not matter. */
  lemma SetExternalEdgeCommutes(cell: QuadCell, e: Edge, d: Edge)
    ensures SetExternalEdge(SetExternalEdge(cell, e), d) == SetExternalEdge(SetExternalEdge(cell, d), e)
  {
  }

  /** Setting a side never clears one that was already set. */
  lemma SetExternalEdgeMonotone(cell: QuadCell, e: Edge, d: Edge)
    requires HasEdge(cell, d)
    ensures HasEdge(SetExternalEdge(cell, e), d)
  {
  }

  /**
   * The corner rule: a corner is a vertex iff the cell is standalone, or it is
   * not interior and both sides meeting at that corner are external.
   */
  lemma CornerRule(cell: QuadCell, c: Corner)
    ensures IsCornerVertex(cell, c) <==>
      (cell.edges == 0
       || (cell.edges != Interior && HasEdge(cell, CornerEdges(c).0) && HasEdge(cell, CornerEdges(c).1)))
  {
  }

  /** A cell is a standalone quad exactly when none of its four sides is external. */
  lemma SingleIffNoSide(cell: QuadCell)
    ensures IsCellSingleQuad(cell) <==> EdgeCount(cell) == 0
  {
  }

  /** A standalone cell has all four corners; an interior cell has none. */
  lemma StandaloneAndInterior(cell: QuadCell)
    ensures EdgeCount(cell) == 0 ==> VertexCount(cell) == 4
    ensures cell.edges == Interior ==> VertexCount(cell) == 0 && EdgeCount(cell) == 4
  {
  }

  /** One external side alone makes no vertex; three make exactly two. */
  lemma PartialMaskCounts(cell: QuadCell)
    ensures EdgeCount(cell) == 1 ==> VertexCount(cell) == 0
    ensures EdgeCount(cell) == 2 ==> VertexCount(cell) <= 1
    ensures EdgeCount(cell) == 3 ==> VertexCount(cell) == 2
  {
  }
}
