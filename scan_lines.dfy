/**
 * The scan lines `checkNInRow` (src/GameBoard.ts) walks on a square board of
 * side w, direction by direction, each line as the tile indices in the order
 * the inner loop visits them.
 */
module ScanLines {
  import opened Tiles
  import opened BoardGeometry
  import opened LineScan

  function Max0(a: int): nat
  {
    if a < 0 then 0 else a
  }

  /** The x-th tile of the down-right diagonal from the left edge at row startY. */
  function DownLeftTile(w: nat, startY: nat, x: nat): nat
  {
    GetTile(w, x, startY + x)
  }

  /** The y-th tile of the down-right diagonal from the top edge at column startX. */
  function DownTopTile(w: nat, startX: nat, y: nat): nat
  {
    GetTile(w, startX + y, y)
  }

  /** The x-th tile of the up-right diagonal from the left edge at row startY. */
  function UpLeftTile(w: nat, startY: nat, x: nat): nat
    requires x <= startY
  {
    GetTile(w, x, startY - x)
  }

  /** The t-th tile of the up-right diagonal from the bottom edge at column startX. */
  function UpBottomTile(w: nat, startX: nat, t: nat): nat
    requires t < w
  {
    GetTile(w, startX + t, w - 1 - t)
  }

  /** Row y, left to right. */
  function Row(w: nat, y: nat): seq<nat>
    requires y < w
  {
    seq(w, x requires 0 <= x < w => GetTile(w, x, y))
  }

  /** Column x, top to bottom. */
  function Column(w: nat, x: nat): seq<nat>
    requires x < w
  {
    seq(w, y requires 0 <= y < w => GetTile(w, x, y))
  }

  /** The down-right diagonal that starts on the left edge at row startY. */
  function DownFromLeft(w: nat, startY: nat): seq<nat>
    requires startY < w
  {
    seq(w - startY, x requires 0 <= x < w - startY => DownLeftTile(w, startY, x))
  }

  /** The down-right diagonal that starts on the top edge at column startX. */
  function DownFromTop(w: nat, startX: nat): seq<nat>
    requires startX < w
  {
    seq(w - startX, y requires 0 <= y < w - startX => DownTopTile(w, startX, y))
  }

  /** The up-right diagonal that starts on the left edge at row startY. */
  function UpFromLeft(w: nat, startY: nat): seq<nat>
    requires startY < w
  {
    seq(startY + 1, x requires 0 <= x < startY + 1 => UpLeftTile(w, startY, x))
  }

  /** The up-right diagonal that starts on the bottom edge at column startX. */
  function UpFromBottom(w: nat, startX: nat): seq<nat>
    requires 0 < w && startX < w
  {
    seq(w - startX, t requires 0 <= t < w - startX => UpBottomTile(w, startX, t))
  }

  /** HORIZONTAL: rows 0 to w - 1. */
  function Horizontal(w: nat): seq<seq<nat>>
  {
    seq(w, y requires 0 <= y < w => Row(w, y))
  }

  /** VERTICAL: columns 0 to w - 1. */
  function Vertical(w: nat): seq<seq<nat>>
  {
    seq(w, x requires 0 <= x < w => Column(w, x))
  }

  /**
   * DIAGONAL DOWN: left-edge starts from row w - n up to row 0, then top-edge
   * starts from column 1 to column w - n; lines shorter than n are skipped.
   */
  function DiagonalDown(w: nat, n: nat): (lines: seq<seq<nat>>)
    requires n >= 1
    ensures |lines| == Max0(w - n + 1) + Max0(w - n)
  {
    seq(Max0(w - n + 1), j requires 0 <= j < Max0(w - n + 1) => DownFromLeft(w, w - n - j)) +
    seq(Max0(w - n), j requires 0 <= j < Max0(w - n) => DownFromTop(w, 1 + j))
  }

  /**
   * DIAGONAL UP: left-edge starts from row n - 1 down to row w - 1, then
   * bottom-edge starts from column 1 to column w - n.
   */
  function DiagonalUp(w: nat, n: nat): (lines: seq<seq<nat>>)
    requires n >= 1
    ensures |lines| == Max0(w - n + 1) + Max0(w - n)
  {
    seq(Max0(w - n + 1), j requires 0 <= j < Max0(w - n + 1) => UpFromLeft(w, n - 1 + j)) +
    seq(Max0(w - n), j requires 0 <= j < Max0(w - n) => UpFromBottom(w, 1 + j))
  }

  /** The four directions in the order `checkNInRow` reports them. */
  function Directions(w: nat, n: nat): (ds: seq<seq<seq<nat>>>)
    requires n >= 1
    ensures |ds| == 4
  {
    [Horizontal(w), Vertical(w), DiagonalDown(w, n), DiagonalUp(w, n)]
  }

  /** Every scan line lies on the board, and no tile appears twice within a direction. */
  lemma DirectionsWellFormed(w: nat, n: nat, d: nat)
    requires n >= 1 && d < 4
    ensures forall j, k :: 0 <= j < |Directions(w, n)[d]| && 0 <= k < |Directions(w, n)[d][j]| ==>
      Directions(w, n)[d][j][k] < w * w
    ensures TilesUnique(Directions(w, n)[d])
  {
    var lines := Directions(w, n)[d];
    forall j, k | 0 <= j < |lines| && 0 <= k < |lines[j]|
      ensures lines[j][k] < w * w
    {
      var p := LineCoords(w, n, d, j, k);
      TileInBoard(w, w, p.x, p.y);
    }
    forall j1, k1, j2, k2 |
      0 <= j1 < |lines| && 0 <= k1 < |lines[j1]| && 0 <= j2 < |lines| && 0 <= k2 < |lines[j2]| &&
      lines[j1][k1] == lines[j2][k2]
      ensures j1 == j2 && k1 == k2
    {
      var p1 := LineCoords(w, n, d, j1, k1);
      var p2 := LineCoords(w, n, d, j2, k2);
      GetTileInjective(w, p1.x, p1.y, p2.x, p2.y);
      CoordsDetermineSlot(w, n, d, j1, k1, j2, k2);
    }
  }

  // Each kind of line, tile by tile, as the inner loops of `checkNInRow`
  // compute its tiles; on a board of side w every tile of it is on the board.

  /** line is row y, left to right. */
  predicate IsRow(line: seq<nat>, w: nat, y: nat)
  {
    |line| == w && forall x :: 0 <= x < w ==> line[x] == GetTile(w, x, y)
  }

  lemma RowTiles(w: nat, y: nat, b: seq<Color>, line: seq<nat>)
    requires y < w && |b| == w * w && line == Row(w, y)
    ensures IsRow(line, w, y) && TilesBelow(line, |b|)
  {
    forall x | 0 <= x < w ensures line[x] < |b| {
      TileInBoard(w, w, x, y);
    }
  }

  /** line is column x, top to bottom. */
  predicate IsColumn(line: seq<nat>, w: nat, x: nat)
  {
    |line| == w && forall y :: 0 <= y < w ==> line[y] == GetTile(w, x, y)
  }

  lemma ColumnTiles(w: nat, x: nat, b: seq<Color>, line: seq<nat>)
    requires x < w && |b| == w * w && line == Column(w, x)
    ensures IsColumn(line, w, x) && TilesBelow(line, |b|)
  {
    forall y | 0 <= y < w ensures line[y] < |b| {
      TileInBoard(w, w, x, y);
    }
  }

  /** line is the down-right diagonal from row startY of the left edge. */
  predicate IsDownFromLeft(line: seq<nat>, w: nat, startY: nat)
  {
    |line| == w - startY && forall x :: 0 <= x < w - startY ==> line[x] == GetTile(w, x, startY + x)
  }

  lemma DownFromLeftTiles(w: nat, startY: nat, b: seq<Color>, line: seq<nat>)
    requires startY < w && |b| == w * w && line == DownFromLeft(w, startY)
    ensures IsDownFromLeft(line, w, startY) && TilesBelow(line, |b|)
  {
    forall x | 0 <= x < w - startY ensures line[x] < |b| {
      TileInBoard(w, w, x, startY + x);
    }
  }

  /** line is the down-right diagonal from column startX of the top edge. */
  predicate IsDownFromTop(line: seq<nat>, w: nat, startX: nat)
  {
    |line| == w - startX && forall y :: 0 <= y < w - startX ==> line[y] == GetTile(w, startX + y, y)
  }

  lemma DownFromTopTiles(w: nat, startX: nat, b: seq<Color>, line: seq<nat>)
    requires startX < w && |b| == w * w && line == DownFromTop(w, startX)
    ensures IsDownFromTop(line, w, startX) && TilesBelow(line, |b|)
  {
    forall y | 0 <= y < w - startX ensures line[y] < |b| {
      TileInBoard(w, w, startX + y, y);
    }
  }

  /** line is the up-right diagonal from row startY of the left edge. */
  predicate IsUpFromLeft(line: seq<nat>, w: nat, startY: nat)
  {
    |line| == startY + 1 && forall x :: 0 <= x <= startY ==> line[x] == GetTile(w, x, startY - x)
  }

  lemma UpFromLeftTiles(w: nat, startY: nat, b: seq<Color>, line: seq<nat>)
    requires startY < w && |b| == w * w && line == UpFromLeft(w, startY)
    ensures IsUpFromLeft(line, w, startY) && TilesBelow(line, |b|)
  {
    forall x | 0 <= x <= startY ensures line[x] < |b| {
      TileInBoard(w, w, x, startY - x);
    }
  }

  /** line is the up-right diagonal from column startX of the bottom edge. */
  predicate IsUpFromBottom(line: seq<nat>, w: nat, startX: nat)
  {
    |line| == w - startX && forall t :: 0 <= t < w - startX ==> line[t] == GetTile(w, startX + t, w - 1 - t)
  }

  lemma UpFromBottomTiles(w: nat, startX: nat, b: seq<Color>, line: seq<nat>)
    requires startX < w && |b| == w * w && line == UpFromBottom(w, startX)
    ensures IsUpFromBottom(line, w, startX) && TilesBelow(line, |b|)
  {
    forall t | 0 <= t < w - startX ensures line[t] < |b| {
      TileInBoard(w, w, startX + t, w - 1 - t);
    }
  }

  /** The j-th line of DIAGONAL DOWN. */
  lemma DiagonalDownLine(w: nat, n: nat, j: nat)
    requires n >= 1 && j < |DiagonalDown(w, n)|
    ensures |DiagonalDown(w, n)| == Max0(w - n + 1) + Max0(w - n)
    ensures j < Max0(w - n + 1) ==> DiagonalDown(w, n)[j] == DownFromLeft(w, w - n - j)
    ensures j >= Max0(w - n + 1) ==> DiagonalDown(w, n)[j] == DownFromTop(w, 1 + j - Max0(w - n + 1))
  {
  }

  /** The j-th line of DIAGONAL UP. */
  lemma DiagonalUpLine(w: nat, n: nat, j: nat)
    requires n >= 1 && j < |DiagonalUp(w, n)|
    ensures |DiagonalUp(w, n)| == Max0(w - n + 1) + Max0(w - n)
    ensures j < Max0(w - n + 1) ==> DiagonalUp(w, n)[j] == UpFromLeft(w, n - 1 + j)
    ensures j >= Max0(w - n + 1) ==> DiagonalUp(w, n)[j] == UpFromBottom(w, 1 + j - Max0(w - n + 1))
  {
  }

  /** lines are the rows of the board, in order. */
  predicate RowsShape(w: nat, lines: seq<seq<nat>>)
  {
    |lines| == w && forall y :: 0 <= y < w ==> lines[y] == Row(w, y)
  }

  /** lines are the columns of the board, in order. */
  predicate ColumnsShape(w: nat, lines: seq<seq<nat>>)
  {
    |lines| == w && forall x :: 0 <= x < w ==> lines[x] == Column(w, x)
  }

  /** lines are the left-edge then top-edge down-right diagonals of DIAGONAL DOWN. */
  predicate DownShape(w: nat, n: nat, lines: seq<seq<nat>>)
    requires n >= 1
  {
    && |lines| == Max0(w - n + 1) + Max0(w - n)
    && (forall j :: 0 <= j < Max0(w - n + 1) ==> n + j <= w && lines[j] == DownFromLeft(w, w - n - j))
    && (forall j :: Max0(w - n + 1) <= j < |lines| ==> lines[j] == DownFromTop(w, j - Max0(w - n + 1) + 1))
  }

  /** lines are the left-edge then bottom-edge up-right diagonals of DIAGONAL UP. */
  predicate UpShape(w: nat, n: nat, lines: seq<seq<nat>>)
    requires n >= 1
  {
    && |lines| == Max0(w - n + 1) + Max0(w - n)
    && (forall j :: 0 <= j < Max0(w - n + 1) ==> n - 1 + j < w && lines[j] == UpFromLeft(w, n - 1 + j))
    && (forall j :: Max0(w - n + 1) <= j < |lines| ==> lines[j] == UpFromBottom(w, j - Max0(w - n + 1) + 1))
  }

  lemma HorizontalShape(w: nat)
    ensures RowsShape(w, Horizontal(w))
  {
  }

  lemma VerticalShape(w: nat)
    ensures ColumnsShape(w, Vertical(w))
  {
  }

  lemma DiagonalDownShape(w: nat, n: nat)
    requires n >= 1
    ensures DownShape(w, n, DiagonalDown(w, n))
  {
    forall j | 0 <= j < Max0(w - n + 1)
      ensures DiagonalDown(w, n)[j] == DownFromLeft(w, w - n - j)
    {
      DiagonalDownLine(w, n, j);
    }
    forall j | Max0(w - n + 1) <= j < |DiagonalDown(w, n)|
      ensures DiagonalDown(w, n)[j] == DownFromTop(w, j - Max0(w - n + 1) + 1)
    {
      DiagonalDownLine(w, n, j);
    }
  }

  lemma DiagonalUpShape(w: nat, n: nat)
    requires n >= 1
    ensures UpShape(w, n, DiagonalUp(w, n))
  {
    forall j | 0 <= j < Max0(w - n + 1)
      ensures DiagonalUp(w, n)[j] == UpFromLeft(w, n - 1 + j)
    {
      DiagonalUpLine(w, n, j);
    }
    forall j | Max0(w - n + 1) <= j < |DiagonalUp(w, n)|
      ensures DiagonalUp(w, n)[j] == UpFromBottom(w, j - Max0(w - n + 1) + 1)
    {
      DiagonalUpLine(w, n, j);
    }
  }

  /** Line j of the left-edge part of a DIAGONAL DOWN shape. */
  lemma DownLeftLine(w: nat, n: nat, lines: seq<seq<nat>>, j: nat)
    requires n >= 1 && DownShape(w, n, lines) && j < Max0(w - n + 1)
    ensures j < |lines| && n + j <= w && lines[j] == DownFromLeft(w, w - n - j)
  {
  }

  /** Line j of the left-edge part of a DIAGONAL UP shape. */
  lemma UpLeftLine(w: nat, n: nat, lines: seq<seq<nat>>, j: nat)
    requires n >= 1 && UpShape(w, n, lines) && j < Max0(w - n + 1)
    ensures j < |lines| && n - 1 + j < w && lines[j] == UpFromLeft(w, n - 1 + j)
  {
  }

  /** Line j of the top-edge part of a DIAGONAL DOWN shape. */
  lemma DownTopLine(w: nat, n: nat, lines: seq<seq<nat>>, j: nat)
    requires n >= 1 && DownShape(w, n, lines) && Max0(w - n + 1) <= j < |lines|
    ensures lines[j] == DownFromTop(w, j - Max0(w - n + 1) + 1)
  {
  }

  /** Line j of the bottom-edge part of a DIAGONAL UP shape. */
  lemma UpBottomLine(w: nat, n: nat, lines: seq<seq<nat>>, j: nat)
    requires n >= 1 && UpShape(w, n, lines) && Max0(w - n + 1) <= j < |lines|
    ensures lines[j] == UpFromBottom(w, j - Max0(w - n + 1) + 1)
  {
  }

  /** Where the k-th tile of the j-th line of direction d lies. */
  function LineCoords(w: nat, n: nat, d: nat, j: nat, k: nat): (p: Pos)
    requires n >= 1 && d < 4 && j < |Directions(w, n)[d]| && k < |Directions(w, n)[d][j]|
    ensures 0 <= p.x < w && 0 <= p.y < w
    ensures Directions(w, n)[d][j][k] == GetTile(w, p.x, p.y)
  {
    var c1 := Max0(w - n + 1);
    if d == 0 then Pos(k, j)
    else if d == 1 then Pos(j, k)
    else if d == 2 then
      DiagonalDownLine(w, n, j);
      if j < c1 then Pos(k, w - n - j + k) else Pos(1 + (j - c1) + k, k)
    else
      DiagonalUpLine(w, n, j);
      if j < c1 then Pos(k, n - 1 + j - k) else Pos(1 + (j - c1) + k, w - 1 - k)
  }

  /** Different places on a line of one direction are different squares. */
  lemma CoordsDetermineSlot(w: nat, n: nat, d: nat, j1: nat, k1: nat, j2: nat, k2: nat)
    requires n >= 1 && d < 4
    requires j1 < |Directions(w, n)[d]| && k1 < |Directions(w, n)[d][j1]|
    requires j2 < |Directions(w, n)[d]| && k2 < |Directions(w, n)[d][j2]|
    requires LineCoords(w, n, d, j1, k1) == LineCoords(w, n, d, j2, k2)
    ensures j1 == j2 && k1 == k2
  {
    if d == 2 {
      DiagonalDownLine(w, n, j1);
      DiagonalDownLine(w, n, j2);
    } else if d == 3 {
      DiagonalUpLine(w, n, j1);
      DiagonalUpLine(w, n, j2);
    }
  }
}
