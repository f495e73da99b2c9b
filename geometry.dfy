/**
 * Board geometry shared by the line matcher, the pathfinder and the game:
 * tiles are stored row by row, so the tile at column x and row y has the
 * linear index y * width + x.
 */
module BoardGeometry {
  import opened Tiles

  function Abs(a: int): nat
  {
    if a < 0 then -a else a
  }

  /** Taxicab distance between (x1, y1) and (x2, y2). */
  function Manhattan(x1: int, y1: int, x2: int, y2: int): nat
  {
    Abs(x1 - x2) + Abs(y1 - y2)
  }

  /** `getTile`: the linear index of the tile in column x of row y. */
  function GetTile(width: nat, x: nat, y: nat): nat
  {
    MulMonotone(0, y, width);
    y * width + x
  }

  /** Board coordinates of a tile. */
  datatype Pos = Pos(x: int, y: int)

  /** `generateBoard`: one tile per index i, at column i % width and row i / width. */
  function GenerateBoard(width: nat, height: nat): (tiles: seq<Pos>)
    requires width > 0
    ensures |tiles| == width * height
  {
    seq(width * height, i => Pos(i % width, i / width))
  }

  /** Multiplying by a non-negative factor preserves order. */
  lemma MulMonotone(a: int, b: int, c: int)
    requires a <= b && 0 <= c
    ensures a * c <= b * c
    decreases b - a
  {
    if a < b {
      MulMonotone(a + 1, b, c);
      MulSucc(a, c);
    }
  }

  lemma MulSucc(a: int, c: int)
    ensures (a + 1) * c == a * c + c
  {
  }

  /** Division by the width recovers the row and the column of a linear index. */
  lemma CoordsOfIndex(width: int, x: int, y: int)
    requires 0 <= x < width && 0 <= y
    ensures (y * width + x) / width == y
    ensures (y * width + x) % width == x
  {
    var a := y * width + x;
    var q, r := a / width, a % width;
    assert a == q * width + r && 0 <= r < width;
    if q < y {
      MulMonotone(q + 1, y, width);
      MulSucc(q, width);
    } else if q > y {
      MulMonotone(y + 1, q, width);
      MulSucc(y, width);
    }
  }

  /** Every linear index is the index of its own column and row. */
  lemma IndexOfCoords(width: int, i: int)
    requires width > 0 && 0 <= i
    ensures 0 <= i % width < width && 0 <= i / width
    ensures GetTile(width, i % width, i / width) == i
  {
  }

  /** A tile inside the board has an index inside the tile array. */
  lemma TileInBoard(width: int, height: int, x: int, y: int)
    requires 0 <= x < width && 0 <= y < height
    ensures 0 <= GetTile(width, x, y) < width * height
  {
    MulMonotone(y + 1, height, width);
    assert (y + 1) * width == y * width + width;
    assert 0 <= y * width by {
      MulMonotone(0, y, width);
    }
  }

  /** The row of an index inside the tile array is a row of the board. */
  lemma RowInBoard(width: int, height: int, i: int)
    requires width > 0 && 0 <= i < width * height
    ensures 0 <= i / width < height
  {
    var y := i / width;
    assert y * width <= i;
    if y >= height {
      MulMonotone(height, y, width);
    }
  }

  /** Two in-board coordinate pairs with the same index are equal. */
  lemma GetTileInjective(width: int, x1: int, y1: int, x2: int, y2: int)
    requires 0 <= x1 < width && 0 <= y1 && 0 <= x2 < width && 0 <= y2
    requires GetTile(width, x1, y1) == GetTile(width, x2, y2)
    ensures x1 == x2 && y1 == y2
  {
    CoordsOfIndex(width, x1, y1);
    CoordsOfIndex(width, x2, y2);
  }

  /** `getTile` and `generateBoard` agree: the tile at index y * width + x sits at (x, y). */
  lemma GetTileMatchesGenerateBoard(width: nat, height: nat, x: int, y: int)
    requires 0 <= x < width && 0 <= y < height
    ensures 0 <= GetTile(width, x, y) < |GenerateBoard(width, height)|
    ensures GenerateBoard(width, height)[GetTile(width, x, y)] == Pos(x, y)
  {
    TileInBoard(width, height, x, y);
    CoordsOfIndex(width, x, y);
  }

  /** ... and, the other way round, every generated tile lies on the board at its own index. */
  lemma GenerateBoardMatchesGetTile(width: nat, height: nat, i: int)
    requires width > 0 && 0 <= i < width * height
    ensures var p := GenerateBoard(width, height)[i];
      0 <= p.x < width && 0 <= p.y < height && GetTile(width, p.x, p.y) == i
  {
    IndexOfCoords(width, i);
    RowInBoard(width, height, i);
  }

  /** Tiles i and j are 4-neighbours: their coordinates differ by one in exactly one axis. */
  predicate Adjacent(width: int, i: int, j: int)
    requires width > 0
  {
    Manhattan(i % width, i / width, j % width, j / width) == 1
  }

  /**
   * w is a walk from tile s to tile e over 4-neighbours in which every tile
   * after the first is empty (the first holds the ball being moved).
   */
  ghost predicate IsEmptyWalk(b: seq<Color>, width: int, w: seq<int>, s: int, e: int)
    requires width > 0
  {
    && |w| >= 1 && w[0] == s && w[|w| - 1] == e
    && (forall k :: 0 <= k < |w| ==> 0 <= w[k] < |b|)
    && (forall k :: 0 <= k < |w| - 1 ==> Adjacent(width, w[k], w[k + 1]))
    && (forall k :: 0 < k < |w| ==> b[w[k]] == Empty)
  }

  /** A ball on tile s can travel to tile e through empty tiles. */
  ghost predicate Reachable(b: seq<Color>, width: int, s: int, e: int)
    requires width > 0
  {
    exists w :: IsEmptyWalk(b, width, w, s, e)
  }

  /** A ball on tile s can be moved to tile e: e is another, empty tile that it can reach. */
  ghost predicate CanMove(b: seq<Color>, width: int, s: int, e: int)
    requires width > 0
  {
    s != e && 0 <= e < |b| && b[e] == Empty && Reachable(b, width, s, e)
  }
}
