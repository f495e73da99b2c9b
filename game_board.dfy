/**
 * The game logic of src/GameBoard.ts on a square board: the line matcher,
 * scoring and destruction, spawning of new balls, and the click state
 * machine that selects and moves balls. A tile is identified with its
 * linear index y * width + x; the tile colours live in one array that the
 * operations update in place. DOM work, the preview widget and the
 * timestamps of the source are not part of this model: the preview colours
 * and the values of `Math.random()` are parameters.
 */
module Board {
  import opened Wrappers
  import opened Tiles
  import opened SeqUtil
  import opened BoardGeometry
  import opened ArrayRandom
  import opened Memory
  import opened LineScan
  import opened ScanLines
  import opened Matcher
  import opened Score
  import opened BoardRules
  import opened PathCell
  import opened Pathfinding

  /**
   * Every tile a match lists is on the board and holds a ball, so a
   * destruction frees exactly the distinct listed tiles.
   */
  lemma MatchedTilesHoldBalls(b: seq<Color>, w: nat, n: nat)
    requires SquareBoard(b, w) && n >= 1 && NInRow(b, w, n).Some?
    ensures forall t :: t in Listed(NInRow(b, w, n).value) ==> t < |b| && b[t] != Empty
    ensures DirCount(NInRow(b, w, n).value) <= 4
    ensures BallsAmong(b, Listed(NInRow(b, w, n).value)) == set t | t in Listed(NInRow(b, w, n).value)
  {
    var data := NInRow(b, w, n).value;
    forall t | t in Listed(data)
      ensures t < |b| && b[t] != Empty
    {
      var d :| 0 <= d < |data| && t in data[d].tiles;
      DirectionOutcomeMeaning(b, w, n, d);
    }
    BallsAmongMatched(b, Listed(data));
  }

  class GameBoard {
    const width: nat
    const height: nat
    /** The tile colours, row by row. */
    const tiles: array<Color>
    const pathfinder: Pathfinder
    /** `@minBallsInARow(5)`. */
    const minBallsInARow: nat
    var selectedTile: Option<nat>
    var locked: bool
    var score: int
    var comboMultiplier: real
    var destroyedBalls: int
    /** `gameStartedAt !== null`. */
    var gameStarted: bool
    /** `gameEndedAt !== null`. */
    var gameEnded: bool

    /** The shape the constructor sets up and nothing later changes. */
    predicate Valid()
    {
      && width > 0 && width == height
      && tiles.Length == width * height
      && pathfinder.width == width && pathfinder.height == height
      && minBallsInARow >= 1
    }

    /**
     * The constructor: an empty square board, no selection, score 0,
     * combo 1, then the first `takeTurn`.
     */
    constructor(width: nat, height: nat, previewColors: seq<Color>, draws: seq<real>)
      requires width > 0 && width == height && |previewColors| == 3 && AllDraws(draws)
      ensures Valid() && fresh(tiles) && minBallsInARow == 5
      ensures selectedTile.None? && score == 0 && comboMultiplier == 1.0 && destroyedBalls == 0
      ensures var (outcome, board) := Turn(seq(width * height, _ => Empty), previewColors, draws);
        tiles[..] == board && (gameStarted <==> outcome.Spawned?)
      ensures !locked && !gameEnded
    {
      this.width := width;
      this.height := height;
      selectedTile := None;
      pathfinder := new Pathfinder(width, height);
      locked := false;
      minBallsInARow := 5;
      score := 0;
      comboMultiplier := 1.0;
      destroyedBalls := 0;
      gameStarted := false;
      gameEnded := false;
      tiles := new Color[width * height](_ => Empty);
      new;
      assert tiles[..] == seq(width * height, _ => Empty);
      var outcome := TakeTurn(previewColors, draws);
    }

    /** The selected tile, if any, is a tile of the board. */
    predicate SelectionOk()
      reads this
    {
      selectedTile.Some? ==> selectedTile.value < tiles.Length
    }

    /** What a click can change, as a value. */
    function ClickView(): (st: ClickState)
      reads this, tiles
      ensures SelectionOk() ==> SelectionOnBoard(st)
    {
      ClickState(tiles[..], selectedTile, locked)
    }

    // ---------------------------------------------------------------- matching

    /**
     * `CheckNInRowEvaluate`: an empty tile ends the current run; a ball of
     * the current colour extends it; a ball of another colour ends it and
     * starts a new one. The run length that counts is the memory's own n.
     */
    method CheckNInRowEvaluate(tile: nat, n: int, memory: CheckNInARowMemory)
      requires tile < tiles.Length && memory.Valid()
      modifies memory
      ensures memory.Valid()
      ensures memory.State() == EvaluateStep(old(memory.State()), tile, tiles[tile], memory.n)
    {
      if tiles[tile] == Empty {
        memory.Carry();
        memory.Reset();
      } else {
        if tiles[tile] == memory.curType {
          memory.curTiles := memory.curTiles + [tile];
        } else {
          memory.curType := tiles[tile];
          memory.Carry();
          memory.curTiles := [tile];
        }
      }
    }

    /** The final `memory.carry()` of a line: the line's accepted tiles are collected. */
    method EndLine(ghost line: seq<nat>, ghost cs: seq<Color>, ghost st0: MemoryState, n: int, memory: CheckNInARowMemory)
      requires |cs| == |line| && memory.Valid() && memory.n == n
      requires memory.State() == ScanFold(ResetState(st0), line, cs, n, |line|)
      modifies memory`toReturn, memory`runs
      ensures memory.Valid()
      ensures memory.toReturn == st0.toReturn + Filtered(line, cs, n, |line|)
    {
      ScanWholeLine(line, cs, n, st0);
      memory.Carry();
    }

    /** The horizontal inner loop: row y, left to right. */
    method ScanRow(y: nat, n: nat, ghost line: seq<nat>, ghost cs: seq<Color>, memory: CheckNInARowMemory)
      requires Valid() && n >= 1 && y < height && memory.Valid() && memory.n == n
      requires IsRow(line, width, y) && TilesBelow(line, tiles.Length) && ColorsOf(cs, tiles[..], line)
      modifies memory
      ensures memory.Valid()
      ensures memory.toReturn == old(memory.toReturn) + Filtered(line, cs, n, |line|)
    {
      ghost var st0 := memory.State();
      memory.Reset();
      var x := 0;
      while x < height
        invariant x <= width
        invariant memory.Valid() && memory.n == n
        invariant memory.State() == ScanFold(ResetState(st0), line, cs, n, x)
      {
        var tile := GetTile(width, x, y);
        assert line[x] == tile && cs[x] == tiles[tile];
        CheckNInRowEvaluate(tile, n, memory);
        x := x + 1;
      }
      EndLine(line, cs, st0, n, memory);
    }

    /** The vertical inner loop: column x, top to bottom. */
    method ScanColumn(x: nat, n: nat, ghost line: seq<nat>, ghost cs: seq<Color>, memory: CheckNInARowMemory)
      requires Valid() && n >= 1 && x < width && memory.Valid() && memory.n == n
      requires IsColumn(line, width, x) && TilesBelow(line, tiles.Length) && ColorsOf(cs, tiles[..], line)
      modifies memory
      ensures memory.Valid()
      ensures memory.toReturn == old(memory.toReturn) + Filtered(line, cs, n, |line|)
    {
      ghost var st0 := memory.State();
      memory.Reset();
      var y := 0;
      while y < height
        invariant y <= height
        invariant memory.Valid() && memory.n == n
        invariant memory.State() == ScanFold(ResetState(st0), line, cs, n, y)
      {
        var tile := GetTile(width, x, y);
        assert line[y] == tile && cs[y] == tiles[tile];
        CheckNInRowEvaluate(tile, n, memory);
        y := y + 1;
      }
      EndLine(line, cs, st0, n, memory);
    }

    /** The first diagonal-down inner loop: from row startY of the left edge, down and right. */
    method ScanDownFromLeft(startY: nat, n: nat, ghost line: seq<nat>, ghost cs: seq<Color>, memory: CheckNInARowMemory)
      requires Valid() && n >= 1 && startY < height && memory.Valid() && memory.n == n
      requires IsDownFromLeft(line, width, startY) && TilesBelow(line, tiles.Length) && ColorsOf(cs, tiles[..], line)
      modifies memory
      ensures memory.Valid()
      ensures memory.toReturn == old(memory.toReturn) + Filtered(line, cs, n, |line|)
    {
      ghost var st0 := memory.State();
      memory.Reset();
      var x := 0;
      while startY + x < height
        invariant startY + x <= height
        invariant memory.Valid() && memory.n == n
        invariant memory.State() == ScanFold(ResetState(st0), line, cs, n, x)
      {
        var y := startY + x;
        var tile := GetTile(width, x, y);
        assert line[x] == tile && cs[x] == tiles[tile];
        CheckNInRowEvaluate(tile, n, memory);
        x := x + 1;
      }
      EndLine(line, cs, st0, n, memory);
    }

    /** The second diagonal-down inner loop: from column startX of the top edge, down and right. */
    method ScanDownFromTop(startX: nat, n: nat, ghost line: seq<nat>, ghost cs: seq<Color>, memory: CheckNInARowMemory)
      requires Valid() && n >= 1 && startX < width && memory.Valid() && memory.n == n
      requires IsDownFromTop(line, width, startX) && TilesBelow(line, tiles.Length) && ColorsOf(cs, tiles[..], line)
      modifies memory
      ensures memory.Valid()
      ensures memory.toReturn == old(memory.toReturn) + Filtered(line, cs, n, |line|)
    {
      ghost var st0 := memory.State();
      memory.Reset();
      var y := 0;
      while startX + y < width
        invariant startX + y <= width
        invariant memory.Valid() && memory.n == n
        invariant memory.State() == ScanFold(ResetState(st0), line, cs, n, y)
      {
        var x := startX + y;
        var tile := GetTile(width, x, y);
        assert line[y] == tile && cs[y] == tiles[tile];
        CheckNInRowEvaluate(tile, n, memory);
        y := y + 1;
      }
      EndLine(line, cs, st0, n, memory);
    }

    /** The first diagonal-up inner loop: from row startY of the left edge, up and right. */
    method ScanUpFromLeft(startY: nat, n: nat, ghost line: seq<nat>, ghost cs: seq<Color>, memory: CheckNInARowMemory)
      requires Valid() && n >= 1 && startY < height && memory.Valid() && memory.n == n
      requires IsUpFromLeft(line, width, startY) && TilesBelow(line, tiles.Length) && ColorsOf(cs, tiles[..], line)
      modifies memory
      ensures memory.Valid()
      ensures memory.toReturn == old(memory.toReturn) + Filtered(line, cs, n, |line|)
    {
      ghost var st0 := memory.State();
      memory.Reset();
      var x := 0;
      while startY - x >= 0
        invariant x <= startY + 1
        invariant memory.Valid() && memory.n == n
        invariant memory.State() == ScanFold(ResetState(st0), line, cs, n, x)
      {
        var y := startY - x;
        var tile := GetTile(width, x, y);
        assert line[x] == tile && cs[x] == tiles[tile];
        CheckNInRowEvaluate(tile, n, memory);
        x := x + 1;
      }
      assert x == |line|;
      EndLine(line, cs, st0, n, memory);
    }

    /** The second diagonal-up inner loop: from column startX of the bottom edge, up and right. */
    method ScanUpFromBottom(startX: nat, n: nat, ghost line: seq<nat>, ghost cs: seq<Color>, memory: CheckNInARowMemory)
      requires Valid() && n >= 1 && startX < width && memory.Valid() && memory.n == n
      requires IsUpFromBottom(line, width, startX) && TilesBelow(line, tiles.Length) && ColorsOf(cs, tiles[..], line)
      modifies memory
      ensures memory.Valid()
      ensures memory.toReturn == old(memory.toReturn) + Filtered(line, cs, n, |line|)
    {
      ghost var st0 := memory.State();
      memory.Reset();
      var y: int := height - 1;
      ghost var t: nat := 0;
      while startX + (height - 1 - y) < width
        invariant y == height - 1 - t && startX + t <= width
        invariant memory.Valid() && memory.n == n
        invariant memory.State() == ScanFold(ResetState(st0), line, cs, n, t)
        decreases y
      {
        var x := startX + (height - 1 - y);
        var tile := GetTile(width, x, y);
        assert line[t] == tile && cs[t] == tiles[tile];
        CheckNInRowEvaluate(tile, n, memory);
        y := y - 1;
        t := t + 1;
      }
      EndLine(line, cs, st0, n, memory);
    }
  
    /**
     * The state of the memory while a direction's outer loop runs: lines
     * before j of the board b are collected, and b is the current board.
     */
    ghost predicate Collecting(n: nat, b: seq<Color>, lines: seq<seq<nat>>, j: nat, memory: CheckNInARowMemory)
      reads tiles, memory
    {
      && Valid() && n >= 1 && memory.Valid() && memory.n == n
      && b == tiles[..] && j <= |lines| && memory.toReturn == Collected(b, lines, n, j)
    }

    /** Scan line j of a direction, which is Row(width, y): its accepted tiles are collected. */
    method CollectRow(y: nat, n: nat, ghost b: seq<Color>, ghost lines: seq<seq<nat>>, ghost j: nat, memory: CheckNInARowMemory)
      requires Collecting(n, b, lines, j, memory)
      requires y < height && j < |lines| && lines[j] == Row(width, y)
      modifies memory
      ensures Collecting(n, b, lines, j + 1, memory)
    {
      RowTiles(width, y, b, lines[j]);
      LineColorsOf(b, lines[j]);
      ScanRow(y, n, lines[j], LineColors(b, lines[j]), memory);
    }

    /** Scan line j of a direction, which is Column(width, x): its accepted tiles are collected. */
    method CollectColumn(x: nat, n: nat, ghost b: seq<Color>, ghost lines: seq<seq<nat>>, ghost j: nat, memory: CheckNInARowMemory)
      requires Collecting(n, b, lines, j, memory)
      requires x < width && j < |lines| && lines[j] == Column(width, x)
      modifies memory
      ensures Collecting(n, b, lines, j + 1, memory)
    {
      ColumnTiles(width, x, b, lines[j]);
      LineColorsOf(b, lines[j]);
      ScanColumn(x, n, lines[j], LineColors(b, lines[j]), memory);
    }

    /** Scan line j of a direction, which is DownFromLeft(width, startY): its accepted tiles are collected. */
    method CollectDownFromLeft(startY: nat, n: nat, ghost b: seq<Color>, ghost lines: seq<seq<nat>>, ghost j: nat, memory: CheckNInARowMemory)
      requires Collecting(n, b, lines, j, memory)
      requires startY < height && j < |lines| && lines[j] == DownFromLeft(width, startY)
      modifies memory
      ensures Collecting(n, b, lines, j + 1, memory)
    {
      DownFromLeftTiles(width, startY, b, lines[j]);
      LineColorsOf(b, lines[j]);
      ScanDownFromLeft(startY, n, lines[j], LineColors(b, lines[j]), memory);
    }

    /** Scan line j of a direction, which is DownFromTop(width, startX): its accepted tiles are collected. */
    method CollectDownFromTop(startX: nat, n: nat, ghost b: seq<Color>, ghost lines: seq<seq<nat>>, ghost j: nat, memory: CheckNInARowMemory)
      requires Collecting(n, b, lines, j, memory)
      requires startX < width && j < |lines| && lines[j] == DownFromTop(width, startX)
      modifies memory
      ensures Collecting(n, b, lines, j + 1, memory)
    {
      DownFromTopTiles(width, startX, b, lines[j]);
      LineColorsOf(b, lines[j]);
      ScanDownFromTop(startX, n, lines[j], LineColors(b, lines[j]), memory);
    }

    /** Scan line j of a direction, which is UpFromLeft(width, startY): its accepted tiles are collected. */
    method CollectUpFromLeft(startY: nat, n: nat, ghost b: seq<Color>, ghost lines: seq<seq<nat>>, ghost j: nat, memory: CheckNInARowMemory)
      requires Collecting(n, b, lines, j, memory)
      requires startY < height && j < |lines| && lines[j] == UpFromLeft(width, startY)
      modifies memory
      ensures Collecting(n, b, lines, j + 1, memory)
    {
      UpFromLeftTiles(width, startY, b, lines[j]);
      LineColorsOf(b, lines[j]);
      ScanUpFromLeft(startY, n, lines[j], LineColors(b, lines[j]), memory);
    }

    /** Scan line j of a direction, which is UpFromBottom(width, startX): its accepted tiles are collected. */
    method CollectUpFromBottom(startX: nat, n: nat, ghost b: seq<Color>, ghost lines: seq<seq<nat>>, ghost j: nat, memory: CheckNInARowMemory)
      requires Collecting(n, b, lines, j, memory)
      requires startX < width && j < |lines| && lines[j] == UpFromBottom(width, startX)
      modifies memory
      ensures Collecting(n, b, lines, j + 1, memory)
    {
      UpFromBottomTiles(width, startX, b, lines[j]);
      LineColorsOf(b, lines[j]);
      ScanUpFromBottom(startX, n, lines[j], LineColors(b, lines[j]), memory);
    }

    // The outer loops of `checkNInRow`, one direction at a time, up to `next()`.
    // Each works on the direction's lines as given by their shape.

    /** HORIZONTAL: every row, top to bottom. */
    method ScanHorizontal(n: nat, ghost lines: seq<seq<nat>>, memory: CheckNInARowMemory)
      requires Valid() && n >= 1 && memory.Valid() && memory.n == n && memory.toReturn == []
      requires RowsShape(width, lines)
      modifies memory
      ensures memory.Valid() && memory.toReturn == DirectionAccepted(tiles[..], lines, n)
    {
      ghost var b := tiles[..];
      ghost var j: nat := 0;
      var y := 0;
      while y < height
        invariant y <= height && j == y
        invariant Collecting(n, b, lines, j, memory)
      {
        CollectRow(y, n, b, lines, j, memory);
        y := y + 1;
        j := j + 1;
      }
      assert j == |lines|;
      CollectedWhole(b, lines, n);
    }

    /** VERTICAL: every column, left to right. */
    method ScanVertical(n: nat, ghost lines: seq<seq<nat>>, memory: CheckNInARowMemory)
      requires Valid() && n >= 1 && memory.Valid() && memory.n == n && memory.toReturn == []
      requires ColumnsShape(width, lines)
      modifies memory
      ensures memory.Valid() && memory.toReturn == DirectionAccepted(tiles[..], lines, n)
    {
      ghost var b := tiles[..];
      ghost var j: nat := 0;
      var x := 0;
      while x < height
        invariant x <= width && j == x
        invariant Collecting(n, b, lines, j, memory)
      {
        CollectColumn(x, n, b, lines, j, memory);
        x := x + 1;
        j := j + 1;
      }
      assert j == |lines|;
      CollectedWhole(b, lines, n);
    }

    /** The first outer loop of DIAGONAL DOWN: lines from the left edge, bottom to top. */
    method ScanDownLeftEdge(n: nat, ghost lines: seq<seq<nat>>, memory: CheckNInARowMemory)
      requires Valid() && n >= 1 && memory.Valid() && memory.n == n && memory.toReturn == []
      requires DownShape(width, n, lines)
      modifies memory
      ensures memory.Valid()
      ensures memory.toReturn == Collected(tiles[..], lines, n, Max0(width - n + 1))
    {
      ghost var b := tiles[..];
      ghost var j: nat := 0;
      ghost var count := Max0(width - n + 1);
      var startY: int := height - n;
      while startY >= 0
        invariant startY + j == width - n && j <= count
        invariant Collecting(n, b, lines, j, memory)
      {
        DownLeftLine(width, n, lines, j);
        CollectDownFromLeft(startY, n, b, lines, j, memory);
        startY := startY - 1;
        j := j + 1;
      }
      assert j == count;
    }

    /** The second outer loop of DIAGONAL DOWN: lines from the top edge, left to right. */
    method ScanDownTopEdge(n: nat, ghost lines: seq<seq<nat>>, memory: CheckNInARowMemory)
      requires Valid() && n >= 1 && memory.Valid() && memory.n == n
      requires DownShape(width, n, lines)
      requires memory.toReturn == Collected(tiles[..], lines, n, Max0(width - n + 1))
      modifies memory
      ensures memory.Valid()
      ensures memory.toReturn == DirectionAccepted(tiles[..], lines, n)
    {
      ghost var b := tiles[..];
      ghost var first := Max0(width - n + 1);
      ghost var j: nat := first;
      var startX := 1;
      while startX <= width - n
        invariant 1 <= startX <= Max0(width - n) + 1 && j == first + startX - 1
        invariant Collecting(n, b, lines, j, memory)
      {
        DownTopLine(width, n, lines, j);
        CollectDownFromTop(startX, n, b, lines, j, memory);
        startX := startX + 1;
        j := j + 1;
      }
      assert j == |lines|;
      CollectedWhole(b, lines, n);
    }

    /** The first outer loop of DIAGONAL UP: lines from the left edge, top to bottom. */
    method ScanUpLeftEdge(n: nat, ghost lines: seq<seq<nat>>, memory: CheckNInARowMemory)
      requires Valid() && n >= 1 && memory.Valid() && memory.n == n && memory.toReturn == []
      requires UpShape(width, n, lines)
      modifies memory
      ensures memory.Valid()
      ensures memory.toReturn == Collected(tiles[..], lines, n, Max0(width - n + 1))
    {
      ghost var b := tiles[..];
      ghost var j: nat := 0;
      var startY: int := n - 1;
      while startY < height
        invariant startY == n - 1 + j && j <= Max0(width - n + 1)
        invariant Collecting(n, b, lines, j, memory)
      {
        UpLeftLine(width, n, lines, j);
        CollectUpFromLeft(startY, n, b, lines, j, memory);
        startY := startY + 1;
        j := j + 1;
      }
      assert j == Max0(width - n + 1);
    }

    /** The second outer loop of DIAGONAL UP: lines from the bottom edge, left to right. */
    method ScanUpBottomEdge(n: nat, ghost lines: seq<seq<nat>>, memory: CheckNInARowMemory)
      requires Valid() && n >= 1 && memory.Valid() && memory.n == n
      requires UpShape(width, n, lines)
      requires memory.toReturn == Collected(tiles[..], lines, n, Max0(width - n + 1))
      modifies memory
      ensures memory.Valid()
      ensures memory.toReturn == DirectionAccepted(tiles[..], lines, n)
    {
      ghost var b := tiles[..];
      ghost var first := Max0(width - n + 1);
      ghost var j: nat := first;
      var startX := 1;
      while startX <= width - n
        invariant 1 <= startX <= Max0(width - n) + 1 && j == first + startX - 1
        invariant Collecting(n, b, lines, j, memory)
      {
        UpBottomLine(width, n, lines, j);
        CollectUpFromBottom(startX, n, b, lines, j, memory);
        startX := startX + 1;
        j := j + 1;
      }
      assert j == |lines|;
      CollectedWhole(b, lines, n);
    }

    /** `next()`: the memory's result is taken, then the memory is hard-reset. */
    method Next(memory: CheckNInARowMemory) returns (res: DirectionResult)
      modifies memory
      ensures res.status <==> |old(memory.toReturn)| > 0
      ensures res.tiles == old(memory.toReturn)
      ensures memory.Valid() && memory.toReturn == []
    {
      res := memory.Result();
      memory.HardReset();
    }

    /** The HORIZONTAL part of `checkNInRow` and its `next()`. */
    method HorizontalResult(n: nat, ghost b: seq<Color>, memory: CheckNInARowMemory) returns (res: DirectionResult)
      requires Valid() && n >= 1 && memory.Valid() && memory.n == n && memory.toReturn == [] && b == tiles[..]
      modifies memory
      ensures memory.Valid() && memory.toReturn == []
      ensures res == DirectionOutcome(b, width, n, 0)
    {
      HorizontalShape(width);
      ScanHorizontal(n, Horizontal(width), memory);
      res := Next(memory);
    }

    /** The VERTICAL part of `checkNInRow` and its `next()`. */
    method VerticalResult(n: nat, ghost b: seq<Color>, memory: CheckNInARowMemory) returns (res: DirectionResult)
      requires Valid() && n >= 1 && memory.Valid() && memory.n == n && memory.toReturn == [] && b == tiles[..]
      modifies memory
      ensures memory.Valid() && memory.toReturn == []
      ensures res == DirectionOutcome(b, width, n, 1)
    {
      VerticalShape(width);
      ScanVertical(n, Vertical(width), memory);
      res := Next(memory);
    }

    /** The DIAGONAL DOWN part of `checkNInRow`, both edges, and its `next()`. */
    method DiagonalDownResult(n: nat, ghost b: seq<Color>, memory: CheckNInARowMemory) returns (res: DirectionResult)
      requires Valid() && n >= 1 && memory.Valid() && memory.n == n && memory.toReturn == [] && b == tiles[..]
      modifies memory
      ensures memory.Valid() && memory.toReturn == []
      ensures res == DirectionOutcome(b, width, n, 2)
    {
      DiagonalDownShape(width, n);
      ScanDownLeftEdge(n, DiagonalDown(width, n), memory);
      ScanDownTopEdge(n, DiagonalDown(width, n), memory);
      res := Next(memory);
    }

    /** The DIAGONAL UP part of `checkNInRow`, both edges, and its `next()`. */
    method DiagonalUpResult(n: nat, ghost b: seq<Color>, memory: CheckNInARowMemory) returns (res: DirectionResult)
      requires Valid() && n >= 1 && memory.Valid() && memory.n == n && memory.toReturn == [] && b == tiles[..]
      modifies memory
      ensures memory.Valid() && memory.toReturn == []
      ensures res == DirectionOutcome(b, width, n, 3)
    {
      DiagonalUpShape(width, n);
      ScanUpLeftEdge(n, DiagonalUp(width, n), memory);
      ScanUpBottomEdge(n, DiagonalUp(width, n), memory);
      res := Next(memory);
    }

    /**
     * `checkNInRow(n)`: the four direction results in the order horizontal,
     * vertical, diagonal down, diagonal up, or None when none matched. No
     * tile changes.
     */
    method CheckNInRow(n: nat) returns (r: Option<seq<DirectionResult>>)
      requires Valid() && n >= 1
      ensures r == NInRow(tiles[..], width, n)
    {
      ghost var b := tiles[..];
      var memory := new CheckNInARowMemory(n);
      var results: seq<DirectionResult> := [];
      var res := HorizontalResult(n, b, memory);
      results := results + [res];
      res := VerticalResult(n, b, memory);
      results := results + [res];
      res := DiagonalDownResult(n, b, memory);
      results := results + [res];
      res := DiagonalUpResult(n, b, memory);
      results := results + [res];
      assert tiles[..] == b;
      assert results == [DirectionOutcome(b, width, n, 0), DirectionOutcome(b, width, n, 1),
                         DirectionOutcome(b, width, n, 2), DirectionOutcome(b, width, n, 3)];
      if results[0].status || results[1].status || results[2].status || results[3].status {
        r := Some(results);
      } else {
        r := None;
      }
    }

    // ---------------------------------------------------------------- scoring

    /**
     * `CalculateScore`: the components are summed, scaled by the
     * direction-count table and the combo, and floored.
     */
    method CalculateScore(data: seq<DirectionResult>, n: int, combo: real) returns (fullScore: int)
      requires DirCount(data) <= 4
      ensures fullScore == ScoreFormula(data, n, combo)
    {
      var scoreComponents, dirCount := ScoreComponents(data, n);
      var dirCountMultiplier := DirCountMultiplier(dirCount);
      var partialScore := Sum(scoreComponents);
      fullScore := (partialScore * dirCountMultiplier * combo).Floor;
    }

    /**
     * The forEach of `CalculateScore`: a component for every matched
     * direction, in order, and the number of matched directions.
     */
    method ScoreComponents(data: seq<DirectionResult>, n: int) returns (scoreComponents: seq<real>, dirCount: nat)
      ensures scoreComponents == Components(data, n) && dirCount == DirCount(data)
    {
      scoreComponents := [];
      dirCount := 0;
      var i := 0;
      while i < |data|
        invariant i <= |data|
        invariant scoreComponents == Components(data[..i], n)
        invariant dirCount == DirCount(data[..i])
      {
        var dir := data[i];
        ComponentsStep(data, n, i);
        if dir.status {
          dirCount := dirCount + 1;
          var length := |dir.tiles|;
          var lengthScoreMultiplier := LengthBonus(length, n);
          scoreComponents := scoreComponents + [length as real * lengthScoreMultiplier];
          assert Share(dir, n) == [Component(length, n)];
          assert Component(length, n) == length as real * lengthScoreMultiplier;
        } else {
          assert Share(dir, n) == [];
        }
        i := i + 1;
      }
      assert data[..i] == data;
    }

    /** `DestroyTile`: the tile becomes free. */
    method DestroyTile(t: nat)
      requires t < tiles.Length
      modifies tiles
      ensures tiles[..] == old(tiles[..])[t := Empty]
    {
      tiles[t] := Empty;
    }

    /**
     * The inner forEach of `destroyBallsIncreaseScore` over one direction's
     * tiles: each that still holds a ball is destroyed and counted. Relative
     * to the board b0 before the destruction, the tiles listed so far grow
     * by ts.
     */
    method DestroyListed(ts: seq<nat>, ghost b0: seq<Color>, ghost before: seq<nat>, ghost base: int)
      requires forall k :: 0 <= k < |ts| ==> ts[k] < tiles.Length
      requires |b0| == tiles.Length && tiles[..] == Cleared(b0, before)
      requires destroyedBalls == base + |BallsAmong(b0, before)|
      modifies tiles, this`destroyedBalls
      ensures tiles[..] == Cleared(b0, before + ts)
      ensures destroyedBalls == base + |BallsAmong(b0, before + ts)|
    {
      var k := 0;
      assert before + ts[..0] == before;
      while k < |ts|
        invariant k <= |ts|
        invariant tiles[..] == Cleared(b0, before + ts[..k])
        invariant destroyedBalls == base + |BallsAmong(b0, before + ts[..k])|
      {
        var tile := ts[k];
        ghost var listed := before + ts[..k];
        ClearedSnoc(b0, listed, tile);
        BallsAmongSnoc(b0, listed, tile);
        assert before + ts[..k + 1] == listed + [tile];
        if tiles[tile] != Empty {
          DestroyTile(tile);
          destroyedBalls := destroyedBalls + 1;
        }
        k := k + 1;
      }
      assert ts[..k] == ts;
    }

    /**
     * `destroyBallsIncreaseScore`: the score of the results, computed on the
     * board before the destruction, is added; every listed tile becomes
     * free and no other tile changes; each listed tile that held a ball is
     * counted once, however many directions list it.
     */
    method DestroyBallsIncreaseScore(data: seq<DirectionResult>, n: int, combo: real)
      requires DirCount(data) <= 4
      requires forall t :: t in Listed(data) ==> t < tiles.Length
      modifies tiles, this`destroyedBalls, this`score
      ensures tiles[..] == Cleared(old(tiles[..]), Listed(data))
      ensures destroyedBalls == old(destroyedBalls) + |BallsAmong(old(tiles[..]), Listed(data))|
      ensures score == old(score) + ScoreFormula(data, n, combo)
    {
      var earned := CalculateScore(data, n, combo);
      ghost var b0 := tiles[..];
      ghost var base := destroyedBalls;
      assert Cleared(b0, []) == b0;
      assert BallsAmong(b0, []) == {};
      var d := 0;
      while d < |data|
        invariant d <= |data|
        invariant tiles[..] == Cleared(b0, Listed(data[..d]))
        invariant destroyedBalls == base + |BallsAmong(b0, Listed(data[..d]))|
        invariant score == old(score)
      {
        ListedSnoc(data, d);
        DestroyListed(data[d].tiles, b0, Listed(data[..d]), base);
        d := d + 1;
      }
      assert data[..d] == data;
      score := score + earned;
    }

    /** `increaseCombo`: the multiplier grows by half, rounded to hundredths. */
    method IncreaseCombo()
      modifies this`comboMultiplier
      ensures comboMultiplier == NextCombo(old(comboMultiplier))
    {
      comboMultiplier := RoundHundredths(comboMultiplier * 1.5);
    }

    /** `resetCombo`. */
    method ResetCombo()
      modifies this`comboMultiplier
      ensures comboMultiplier == 1.0
    {
      comboMultiplier := 1.0;
    }

    // ---------------------------------------------------------------- turns

    /** `onGameOver`: a game that started and has not ended ends, and the board locks. */
    method OnGameOver()
      modifies this`locked, this`gameEnded
      ensures old(gameStarted && !gameEnded) ==> locked && gameEnded
      ensures !old(gameStarted && !gameEnded) ==> locked == old(locked) && gameEnded == old(gameEnded)
    {
      if gameStarted && !gameEnded {
        locked := true;
        gameEnded := true;
      }
    }

    /** The forEach of `takeTurn`: the i-th drawn tile gets the i-th preview colour. */
    method PlaceBalls(randomTiles: seq<nat>, previewColors: seq<Color>)
      requires |randomTiles| == 3 && |previewColors| == 3
      requires forall k :: 0 <= k < 3 ==> randomTiles[k] < tiles.Length
      modifies tiles
      ensures tiles[..] == Fill(old(tiles[..]), randomTiles, previewColors)
    {
      var i := 0;
      while i < 3
        invariant i <= 3
        invariant tiles[..] == Fill(old(tiles[..]), randomTiles[..i], previewColors)
      {
        assert randomTiles[..i + 1][..i] == randomTiles[..i];
        tiles[randomTiles[i]] := previewColors[i];
        i := i + 1;
      }
      assert randomTiles[..3] == randomTiles;
    }

    /**
     * `takeTurn` with the preview colours and the values `Math.random()`
     * returns: with three free tiles or fewer the game is over; otherwise
     * three distinct free tiles drawn by `randomN` get the preview colours
     * and the game counts as started.
     */
    method TakeTurn(previewColors: seq<Color>, draws: seq<real>) returns (outcome: TurnOutcome)
      requires Valid() && |previewColors| == 3 && AllDraws(draws)
      modifies tiles, this`locked, this`gameEnded, this`gameStarted
      ensures (outcome, tiles[..]) == Turn(old(tiles[..]), previewColors, draws)
      ensures outcome.GameOver? ==> gameStarted == old(gameStarted)
      ensures outcome.GameOver? && old(gameStarted && !gameEnded) ==> locked && gameEnded
      ensures !(outcome.GameOver? && old(gameStarted && !gameEnded)) ==>
        locked == old(locked) && gameEnded == old(gameEnded)
      ensures outcome.Spawned? ==> gameStarted
      ensures outcome.DrawsExhausted? ==> gameStarted == old(gameStarted)
    {
      var candidates := EmptyTiles(tiles[..]);
      if |candidates| <= 3 {
        OnGameOver();
        return GameOver;
      }
      var picked := RandomN(candidates, 3, draws);
      if picked.Failure? {
        return DrawsExhausted;
      }
      var randomTiles := picked.value;
      assert forall k :: 0 <= k < 3 ==> randomTiles[k] in candidates;
      PlaceBalls(randomTiles, previewColors);
      if !gameStarted {
        gameStarted := true;
      }
      return Spawned(randomTiles);
    }

    // ---------------------------------------------------------------- clicks

    /** `cellsToTiles`: the tile under each cell of a path, in order. */
    method CellsToTiles(cells: seq<Cell>) returns (out: seq<int>)
      requires Valid()
      ensures out == pathfinder.PathIndices(cells)
    {
      out := [];
      var k := 0;
      while k < |cells|
        invariant k <= |cells| && |out| == k
        invariant forall j :: 0 <= j < k ==> out[j] == cells[j].y * width + cells[j].x
      {
        var cell := cells[k];
        out := out + [cell.y * width + cell.x];
        k := k + 1;
      }
    }

    /**
     * The board logic of `handleBoardClick` on the clicked tile (None: the
     * click hit no tile). The path search runs from the selected tile to
     * the clicked free tile, and the ball moves when a path is found.
     */
    method HandleBoardClick(target: Option<nat>)
      requires Valid() && SelectionOk() && (target.Some? ==> target.value < tiles.Length)
      modifies tiles, this`selectedTile, this`locked, pathfinder
      ensures SelectionOk()
      ensures ClickView() == Click(old(ClickView()), width, target)
    {
      if locked || target.None? {
        return;
      }
      var targetTile := target.value;
      if tiles[targetTile] == Empty {
        if selectedTile.Some? {
          var sel := selectedTile.value;
          IndexOfCoords(width, sel);
          RowInBoard(width, height, sel);
          IndexOfCoords(width, targetTile);
          RowInBoard(width, height, targetTile);
          var result := pathfinder.BeginPathfind(tiles[..], sel % width, sel / width, targetTile % width, targetTile / width);
          if result.Some? {
            var ballType := tiles[sel];
            tiles[sel] := Empty;
            tiles[targetTile] := ballType;
            selectedTile := None;
            locked := true;
          }
        }
      } else if !IsSurrounded(tiles[..], width, targetTile) {
        if selectedTile.None? {
          selectedTile := Some(targetTile);
        } else if selectedTile.value == targetTile {
          selectedTile := None;
        } else {
          selectedTile := Some(targetTile);
        }
      }
    }

    /** The match branch of the `setTimeout` callback: destruction with the current combo, then `increaseCombo`. */
    method DestroyMatch(data: seq<DirectionResult>)
      requires Valid() && NInRow(tiles[..], width, minBallsInARow) == Some(data)
      modifies tiles, this`score, this`destroyedBalls, this`comboMultiplier
      ensures tiles[..] == Cleared(old(tiles[..]), Listed(data))
      ensures destroyedBalls == old(destroyedBalls) + |set t | t in Listed(data)|
      ensures score == old(score) + ScoreFormula(data, minBallsInARow, old(comboMultiplier))
      ensures comboMultiplier == NextCombo(old(comboMultiplier))
    {
      MatchedTilesHoldBalls(tiles[..], width, minBallsInARow);
      DestroyBallsIncreaseScore(data, minBallsInARow, comboMultiplier);
      IncreaseCombo();
    }

    /**
     * The body of the `setTimeout` callback after a move: the lock is
     * released; a match is destroyed and scored with the current combo,
     * which then grows; without a match a turn is taken and the combo is
     * reset. The outcome is the turn's, or None after a destruction.
     */
    method ResolveTurn(previewColors: seq<Color>, draws: seq<real>) returns (outcome: Option<TurnOutcome>)
      requires Valid() && |previewColors| == 3 && AllDraws(draws)
      modifies tiles, this`locked, this`gameEnded, this`gameStarted
      modifies this`score, this`destroyedBalls, this`comboMultiplier
      ensures var r := NInRow(old(tiles[..]), width, minBallsInARow);
        r.Some? ==>
          && outcome.None?
          && tiles[..] == Cleared(old(tiles[..]), Listed(r.value))
          && destroyedBalls == old(destroyedBalls) + |set t | t in Listed(r.value)|
          && score == old(score) + ScoreFormula(r.value, minBallsInARow, old(comboMultiplier))
          && comboMultiplier == NextCombo(old(comboMultiplier))
          && !locked && gameStarted == old(gameStarted) && gameEnded == old(gameEnded)
      ensures var r := NInRow(old(tiles[..]), width, minBallsInARow);
        r.None? ==>
          && outcome.Some?
          && (outcome.value, tiles[..]) == Turn(old(tiles[..]), previewColors, draws)
          && comboMultiplier == 1.0 && score == old(score) && destroyedBalls == old(destroyedBalls)
          && (locked <==> outcome.value.GameOver? && old(gameStarted && !gameEnded))
      ensures NInRow(old(tiles[..]), width, minBallsInARow).None? && outcome.Some? ==>
        && (outcome.value.Spawned? ==> gameStarted)
        && (!outcome.value.Spawned? ==> gameStarted == old(gameStarted))
        && (gameEnded <==> old(gameEnded) || (outcome.value.GameOver? && old(gameStarted)))
    {
      locked := false;
      var result := CheckNInRow(minBallsInARow);
      if result.Some? {
        DestroyMatch(result.value);
        outcome := None;
      } else {
        var turn := TakeTurn(previewColors, draws);
        ResetCombo();
        outcome := Some(turn);
      }
    }
  }
}
