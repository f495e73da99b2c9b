/**
 * The node of the A* search (src/pathfind/Cell.ts): a fixed position, a
 * mutable search state and the costs of the path found to it so far.
 */
module PathCell {
  import opened BoardGeometry

  /** `CellType` without PATH, which nothing in the search assigns. */
  datatype CellType = Open | Discovered | Closed | Wall | Start | End

  class Cell {
    /** Column. */
    const x: int
    /** Row. */
    const y: int
    var cellType: CellType
    /** g + h. */
    var f: int
    /** Cost of the path found from the start. */
    var g: int
    /** Estimated cost to the end. */
    var h: int
    /** The neighbour this cell was discovered from. */
    var previousCell: Cell?

    /** A new cell has the given type, zero costs and no predecessor. */
    constructor(x: int, y: int, cellType: CellType)
      ensures this.x == x && this.y == y && this.cellType == cellType
      ensures f == 0 && g == 0 && h == 0 && previousCell == null
    {
      this.x := x;
      this.y := y;
      f, g, h := 0, 0, 0;
      previousCell := null;
      new;
      UpdateType(cellType);
    }

    /** `distanceTo`: the taxicab distance between the two positions. */
    function DistanceTo(other: Cell): (d: nat)
    {
      Manhattan(x, y, other.x, other.y)
    }

    /** `updateType`: only the type changes. */
    method UpdateType(newType: CellType)
      modifies this`cellType
      ensures cellType == newType
    {
      cellType := newType;
    }

    /**
     * `updateCosts`: g is the predecessor's g plus the step to it, h the
     * distance to the end and f their sum; type and predecessor stay.
     */
    method UpdateCosts(fromCell: Cell, endCell: Cell)
      modifies this`f, this`g, this`h
      ensures g == old(fromCell.g) + DistanceTo(fromCell)
      ensures h == DistanceTo(endCell)
      ensures f == g + h
    {
      g := fromCell.g + DistanceTo(fromCell);
      h := DistanceTo(endCell);
      f := g + h;
    }
  }

  /** The distance between two cells does not depend on the order. */
  lemma DistanceSymmetric(a: Cell, b: Cell)
    ensures a.DistanceTo(b) == b.DistanceTo(a)
  {
  }

  /** Only cells at the same position are at distance 0. */
  lemma DistanceZero(a: Cell, b: Cell)
    ensures a.DistanceTo(b) == 0 <==> a.x == b.x && a.y == b.y
  {
  }

  /** The way through a third cell is never shorter. */
  lemma DistanceTriangle(a: Cell, b: Cell, c: Cell)
    ensures a.DistanceTo(c) <= a.DistanceTo(b) + b.DistanceTo(c)
  {
  }

  /**
   * The heuristic is consistent: the h values towards an end cell of two
   * cells one step apart differ by at most one.
   */
  lemma HeuristicConsistent(a: Cell, b: Cell, endCell: Cell)
    requires a.DistanceTo(b) == 1
    ensures a.DistanceTo(endCell) <= b.DistanceTo(endCell) + 1
    ensures b.DistanceTo(endCell) <= a.DistanceTo(endCell) + 1
  {
    DistanceTriangle(a, b, endCell);
    DistanceTriangle(b, a, endCell);
    DistanceSymmetric(a, b);
  }
}
