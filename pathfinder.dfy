/**
 * The A* pathfinder of src/pathfind/Pathfinder.ts. The grid of cells is kept
 * row by row in one sequence (the source keeps an array of rows), so the cell
 * at column x and row y is `grid[y * width + x]`.
 */
module Pathfinding {
  import opened Wrappers
  import opened Tiles
  import opened BoardGeometry
  import opened SeqUtil
  import opened PathCell
  import opened SearchModel

  /** The cells at distance one from cell, in grid order (`getNeighbours` through `filterCells`). */
  function Neighbours(cells: seq<Cell>, cell: Cell): (ns: seq<Cell>)
    ensures forall k :: 0 <= k < |ns| ==> ns[k] in cells && cell.DistanceTo(ns[k]) == 1
    ensures forall k :: 0 <= k < |cells| && cell.DistanceTo(cells[k]) == 1 ==> cells[k] in ns
    ensures Distinct(cells) ==> Distinct(ns)
  {
    if |cells| == 0 then []
    else
      var last := cells[|cells| - 1];
      var front := Neighbours(cells[..|cells| - 1], cell);
      assert Distinct(cells) ==> last !in cells[..|cells| - 1];
      if cell.DistanceTo(last) == 1 then
        front + [last]
      else front
  }

  /** The open and end cells among ns, in order (`getValidNeighbours`). */
  function ValidNeighbours(ns: seq<Cell>): (vs: seq<Cell>)
    reads ns
    ensures forall k :: 0 <= k < |vs| ==> vs[k] in ns && (vs[k].cellType == Open || vs[k].cellType == End)
    ensures forall k :: 0 <= k < |ns| && (ns[k].cellType == Open || ns[k].cellType == End) ==> ns[k] in vs
    ensures Distinct(ns) ==> Distinct(vs)
  {
    if |ns| == 0 then []
    else
      var last := ns[|ns| - 1];
      var front := ValidNeighbours(ns[..|ns| - 1]);
      assert Distinct(ns) ==> last !in ns[..|ns| - 1];
      if last.cellType == Open || last.cellType == End then
        front + [last]
      else front
  }

  /** `cellsToEvaluate.filter(cell => cell !== x)`. */
  function Without(cs: seq<Cell>, x: Cell): (r: seq<Cell>)
    ensures forall k :: 0 <= k < |r| ==> r[k] in cs && r[k] != x
    ensures forall k :: 0 <= k < |cs| && cs[k] != x ==> cs[k] in r
  {
    if |cs| == 0 then []
    else Without(cs[..|cs| - 1], x) + (if cs[|cs| - 1] == x then [] else [cs[|cs| - 1]])
  }

  /**
   * `getCellMinScore`: a cell of the list with the least f and, among
   * those, the least h. Between cells equal in f, h and x the source tosses
   * a coin; here the choice is left open.
   */
  method GetCellMinScore(cells: seq<Cell>) returns (best: Cell)
    requires |cells| > 0
    ensures best in cells
    ensures forall c :: c in cells ==> best.f < c.f || (best.f == c.f && best.h <= c.h)
  {
    best := cells[0];
    var k := 1;
    while k < |cells|
      invariant 1 <= k <= |cells|
      invariant best in cells[..k]
      invariant forall j :: 0 <= j < k ==> best.f < cells[j].f || (best.f == cells[j].f && best.h <= cells[j].h)
    {
      var cell := cells[k];
      if cell.f < best.f {
        best := cell;
      } else if cell.f == best.f {
        if cell.h < best.h {
          best := cell;
        } else if cell.h == best.h {
          if cell.x < best.x || cell.x > best.x {
            best := cell;
          } else {
            var takeCell: bool :| true;
            if takeCell {
              best := cell;
            }
          }
        }
      }
      k := k + 1;
    }
    assert cells[..k] == cells;
  }

  /** The first forEach of `step`: open cells become discovered, and all point back to current. */
  method MarkDiscovered(nv: seq<Cell>, current: Cell)
    requires Distinct(nv)
    modifies nv
    ensures forall c :: c in nv ==>
      && c.cellType == (if old(c.cellType) == Open then Discovered else old(c.cellType))
      && c.previousCell == current
      && c.g == old(c.g) && c.f == old(c.f) && c.h == old(c.h)
  {
    var k := 0;
    while k < |nv|
      invariant 0 <= k <= |nv|
      invariant forall j :: 0 <= j < k ==>
        && nv[j].cellType == (if old(nv[j].cellType) == Open then Discovered else old(nv[j].cellType))
        && nv[j].previousCell == current
        && nv[j].g == old(nv[j].g) && nv[j].f == old(nv[j].f) && nv[j].h == old(nv[j].h)
      invariant forall j :: k <= j < |nv| ==>
        && nv[j].cellType == old(nv[j].cellType) && nv[j].previousCell == old(nv[j].previousCell)
        && nv[j].g == old(nv[j].g) && nv[j].f == old(nv[j].f) && nv[j].h == old(nv[j].h)
    {
      var cell := nv[k];
      if cell.cellType == Open {
        cell.UpdateType(Discovered);
      }
      cell.previousCell := current;
      k := k + 1;
    }
  }

  /** The second forEach of `step`: every valid neighbour gets its costs from its previous cell. */
  method UpdateAllCosts(nv: seq<Cell>, endCell: Cell, ghost current: Cell)
    requires Distinct(nv) && current !in nv
    requires forall c :: c in nv ==> c.previousCell == current
    modifies nv
    ensures forall c :: c in nv ==>
      && c.g == current.g + c.DistanceTo(current)
      && c.h == c.DistanceTo(endCell)
      && c.f == c.g + c.h
      && c.cellType == old(c.cellType) && c.previousCell == current
  {
    var k := 0;
    while k < |nv|
      invariant 0 <= k <= |nv|
      invariant current.g == old(current.g)
      invariant forall j :: 0 <= j < k ==>
        && nv[j].g == current.g + nv[j].DistanceTo(current)
        && nv[j].h == nv[j].DistanceTo(endCell)
        && nv[j].f == nv[j].g + nv[j].h
        && nv[j].cellType == old(nv[j].cellType) && nv[j].previousCell == current
      invariant forall j :: k <= j < |nv| ==>
        nv[j].cellType == old(nv[j].cellType) && nv[j].previousCell == current
    {
      var cell := nv[k];
      cell.UpdateCosts(cell.previousCell, endCell);
      k := k + 1;
    }
  }

  /** The first pass of `generateGridFromTiles`: open on an empty tile, a wall on any other. */
  function BaseKinds(tiles: seq<Color>): (ks: seq<CellType>)
    ensures |ks| == |tiles|
    ensures forall i :: 0 <= i < |tiles| ==> (ks[i] == Open <==> tiles[i] == Empty) && (ks[i] == Wall <==> tiles[i] != Empty)
  {
    if |tiles| == 0 then []
    else BaseKinds(tiles[..|tiles| - 1]) + [if tiles[|tiles| - 1] == Empty then Open else Wall]
  }

  class Pathfinder {
    const width: nat
    const height: nat
    var grid: seq<Cell>

    /** The linear index of a cell's position; `getTile`'s index for an on-board cell. */
    function Idx(c: Cell): (i: int)
      ensures 0 <= c.x && 0 <= c.y ==> i == GetTile(width, c.x, c.y)
    {
      c.y * width + c.x
    }

    /** The cells are laid out row by row over a width by height board. */
    predicate Shaped(cells: seq<Cell>)
    {
      && width > 0
      && |cells| == width * height
      && forall i :: 0 <= i < |cells| ==> cells[i].x == i % width && cells[i].y == i / width
    }

    lemma ShapedIdx(cells: seq<Cell>, i: int)
      requires Shaped(cells) && 0 <= i < |cells|
      ensures Idx(cells[i]) == i
    {
      IndexOfCoords(width, i);
    }

    lemma ShapedDistinct(cells: seq<Cell>)
      requires Shaped(cells)
      ensures Distinct(cells)
    {
      forall i, j | 0 <= i < j < |cells|
        ensures cells[i] != cells[j]
      {
        ShapedIdx(cells, i);
        ShapedIdx(cells, j);
      }
    }

    /** The index a back link stands for: -1 for none, -2 for a cell outside the grid. */
    function PrevIndex(p: Cell?): int
      reads this
    {
      if p == null then -1 else if p in grid then Idx(p) else -2
    }

    function NodeOf(c: Cell): Node
      reads this, c
    {
      Node(c.cellType, c.g, PrevIndex(c.previousCell))
    }

    /** The search state of every cell, as values. */
    function Snapshot(): (nodes: seq<Node>)
      reads this, grid
      ensures |nodes| == |grid|
      ensures forall i :: 0 <= i < |grid| ==> nodes[i] == NodeOf(grid[i])
    {
      seq(|grid|, i requires 0 <= i < |grid| reads this, grid => NodeOf(grid[i]))
    }

    /** `cellsToEvaluate` holds exactly the discovered cells. */
    predicate EvalOk(toEval: seq<Cell>)
      reads this, grid
    {
      && (forall k :: 0 <= k < |toEval| ==> toEval[k] in grid && toEval[k].cellType == Discovered)
      && (forall i :: 0 <= i < |grid| && grid[i].cellType == Discovered ==> grid[i] in toEval)
    }

    /** A pathfinder for a width by height board; every cell starts open (`generateGrid`). */
    constructor(width: nat, height: nat)
      requires width > 0
      ensures this.width == width && this.height == height
      ensures Shaped(grid) && forall c :: c in grid ==> c.cellType == Open
    {
      this.width := width;
      this.height := height;
      new;
      grid := MakeCells(seq(width * height, _ => Open));
    }

    /** One fresh cell per index, at the position of that index, with the given type. */
    method MakeCells(kinds: seq<CellType>) returns (cells: seq<Cell>)
      requires width > 0 && |kinds| == width * height
      ensures Shaped(cells)
      ensures forall i :: 0 <= i < |cells| ==> fresh(cells[i])
      ensures forall i :: 0 <= i < |cells| ==>
        && cells[i].cellType == kinds[i]
        && cells[i].f == 0 && cells[i].g == 0 && cells[i].h == 0 && cells[i].previousCell == null
    {
      cells := [];
      var i := 0;
      while i < |kinds|
        invariant 0 <= i <= |kinds| && |cells| == i
        invariant forall j :: 0 <= j < i ==> fresh(cells[j])
        invariant forall j :: 0 <= j < i ==> cells[j].x == j % width && cells[j].y == j / width
        invariant forall j :: 0 <= j < i ==>
          && cells[j].cellType == kinds[j]
          && cells[j].f == 0 && cells[j].g == 0 && cells[j].h == 0 && cells[j].previousCell == null
      {
        var cell := new Cell(i % width, i / width, kinds[i]);
        cells := cells + [cell];
        i := i + 1;
      }
    }

    /**
     * `generateGridFromTiles`: a cell is open on an empty tile and a wall
     * otherwise; then the start and, after it, the end are relabelled
     * unless they are walls.
     */
    method GenerateGridFromTiles(tiles: seq<Color>, sx: nat, sy: nat, ex: nat, ey: nat) returns (arr: seq<Cell>)
      requires width > 0 && |tiles| == width * height
      requires sx < width && sy < height && ex < width && ey < height
      ensures Shaped(arr)
      ensures forall i :: 0 <= i < |arr| ==> fresh(arr[i])
      ensures forall i :: 0 <= i < |arr| ==>
        && arr[i].cellType == InitialKind(tiles, GetTile(width, sx, sy), GetTile(width, ex, ey), i)
        && arr[i].g == 0 && arr[i].previousCell == null
    {
      var s, e := GetTile(width, sx, sy), GetTile(width, ex, ey);
      TileInBoard(width, height, sx, sy);
      TileInBoard(width, height, ex, ey);
      arr := MakeCells(BaseKinds(tiles));
      ShapedDistinct(arr);
      Relabel(arr, s, Start);
      Relabel(arr, e, End);
    }

    /** `updateType` on cell i unless it is a wall; nothing else changes. */
    method Relabel(cells: seq<Cell>, i: int, t: CellType)
      requires Distinct(cells) && 0 <= i < |cells|
      modifies cells[i]
      ensures forall j :: 0 <= j < |cells| ==>
        && cells[j].cellType == (if j == i && old(cells[j].cellType) != Wall then t else old(cells[j].cellType))
        && cells[j].g == old(cells[j].g) && cells[j].previousCell == old(cells[j].previousCell)
    {
      if cells[i].cellType != Wall {
        cells[i].UpdateType(t);
      }
    }

    /** Cell j is a neighbour of cell i exactly when their tiles are 4-adjacent. */
    lemma DistanceIsAdjacency(i: int, j: int)
      requires Shaped(grid) && 0 <= i < |grid| && 0 <= j < |grid|
      ensures grid[i].DistanceTo(grid[j]) == 1 <==> Adjacent(width, i, j)
    {
    }

    /** A cell of the grid sits at its own index. */
    lemma InGridIdx(c: Cell)
      requires Shaped(grid) && c in grid
      ensures 0 <= Idx(c) < |grid| && grid[Idx(c)] == c
    {
      var i :| 0 <= i < |grid| && grid[i] == c;
      ShapedIdx(grid, i);
    }

    /**
     * The neighbour part of `step`: the valid neighbours of the current
     * cell are discovered, pointed back to it and given their costs.
     */
    method ExpandFrom(current: Cell, endCell: Cell, ghost ci: int) returns (nv: seq<Cell>)
      requires Shaped(grid) && 0 <= ci < |grid| && current == grid[ci]
      modifies grid
      ensures forall k :: 0 <= k < |nv| ==> nv[k] in grid
      ensures forall i :: 0 <= i < |grid| ==> (grid[i] in nv <==> NewlyFound(old(Snapshot()), width, ci, i))
      ensures Snapshot() == Expand(old(Snapshot()), width, ci)
    {
      ghost var before := Snapshot();
      ShapedDistinct(grid);
      var ns := Neighbours(grid, current);
      nv := ValidNeighbours(ns);
      forall i | 0 <= i < |grid|
        ensures grid[i] in nv <==> NewlyFound(before, width, ci, i)
      {
        DistanceIsAdjacency(ci, i);
      }
      assert current !in nv by {
        AdjacentIrreflexive(width, ci);
      }
      MarkDiscovered(nv, current);
      UpdateAllCosts(nv, endCell, current);
      ghost var expanded := Expand(before, width, ci);
      forall i | 0 <= i < |grid|
        ensures NodeOf(grid[i]) == expanded[i]
      {
        if grid[i] in nv {
          ShapedIdx(grid, ci);
          DistanceIsAdjacency(i, ci);
        }
      }
    }

    /** After a step that missed the end, the filtered list holds exactly the discovered cells. */
    lemma EvalAfterStep(before: seq<Node>, toEval: seq<Cell>, nv: seq<Cell>, current: Cell,
                        tiles: seq<Color>, s: int, e: int, ci: int, begun: bool)
      requires Shaped(grid) && |before| == |grid| && 0 <= ci < |grid| && current == grid[ci] && 0 <= e < |grid|
      requires Search(before, tiles, width, s, e, begun) && Expandable(before, s, ci, begun)
      requires !NewlyFound(before, width, ci, e)
      requires forall k :: 0 <= k < |nv| ==> nv[k] in grid
      requires forall i :: 0 <= i < |grid| ==> (grid[i] in nv <==> NewlyFound(before, width, ci, i))
      requires forall k :: 0 <= k < |toEval| ==>
        0 <= Idx(toEval[k]) < |grid| && grid[Idx(toEval[k])] == toEval[k] && before[Idx(toEval[k])].kind == Discovered
      requires forall i :: 0 <= i < |grid| && before[i].kind == Discovered ==> grid[i] in toEval
      requires Snapshot() == Close(Expand(before, width, ci), ci)
      ensures EvalOk(Without(toEval + nv, current))
    {
      var newEval := Without(toEval + nv, current);
      var after := Snapshot();
      ShapedIdx(grid, ci);
      forall k | 0 <= k < |newEval|
        ensures newEval[k] in grid && newEval[k].cellType == Discovered
      {
        var c := newEval[k];
        InGridIdx(c);
        var i := Idx(c);
        assert i != ci;
        assert KindOk(before, tiles, s, e, begun, i);
        assert NodeOf(grid[i]) == after[i];
      }
      var joined := toEval + nv;
      forall i | 0 <= i < |grid| && grid[i].cellType == Discovered
        ensures grid[i] in newEval
      {
        assert NodeOf(grid[i]) == after[i];
        assert i != ci;
        ShapedIdx(grid, i);
        assert grid[i] != current;
        if NewlyFound(before, width, ci, i) {
          assert grid[i] in nv;
        } else {
          assert grid[i] in toEval;
        }
        assert grid[i] in joined;
        var k :| 0 <= k < |joined| && joined[k] == grid[i];
      }
    }

    /**
     * One `step` from the cell with index ci. It reports whether the end
     * cell was among the valid neighbours; the new search state is the one
     * Expand (and, when the end was not found, Close) gives.
     */
    method Step(current: Cell, endCell: Cell, toEval: seq<Cell>,
                ghost tiles: seq<Color>, ghost s: int, ghost e: int, ghost ci: int, ghost begun: bool)
      returns (found: bool, newEval: seq<Cell>)
      requires Shaped(grid) && 0 <= ci < |grid| && 0 <= e < |grid|
      requires current == grid[ci] && endCell == grid[e]
      requires Search(Snapshot(), tiles, width, s, e, begun) && Expandable(Snapshot(), s, ci, begun)
      requires EvalOk(toEval)
      modifies grid
      ensures found <==> NewlyFound(old(Snapshot()), width, ci, e)
      ensures found ==> Snapshot() == Expand(old(Snapshot()), width, ci)
      ensures !found ==> Snapshot() == Close(Expand(old(Snapshot()), width, ci), ci) && EvalOk(newEval)
    {
      ghost var before := Snapshot();
      forall k | 0 <= k < |toEval|
        ensures 0 <= Idx(toEval[k]) < |grid| && grid[Idx(toEval[k])] == toEval[k]
        ensures before[Idx(toEval[k])].kind == Discovered
      {
        InGridIdx(toEval[k]);
      }
      var nv := ExpandFrom(current, endCell, ci);
      if endCell in nv {
        found := true;
        newEval := toEval;
        return;
      }
      found := false;
      newEval := toEval + nv;
      if current.cellType != Start {
        current.UpdateType(Closed);
      }
      newEval := Without(newEval, current);
      ghost var closed := Close(Expand(before, width, ci), ci);
      forall i | 0 <= i < |grid|
        ensures NodeOf(grid[i]) == closed[i]
      {
        ShapedIdx(grid, i);
        ShapedIdx(grid, ci);
      }
      EvalAfterStep(before, toEval, nv, current, tiles, s, e, ci, begun);
    }

    /**
     * One pass of the do-while loop of `pathfind` after the first: the
     * discovered cell with the least f (and h) is stepped from. When the
     * end is found the back links lead from it to the start; otherwise
     * the search invariant still holds and the search has progressed.
     */
    method NextStep(endCell: Cell, toEval: seq<Cell>, ghost tiles: seq<Color>, ghost s: int, ghost e: int)
      returns (found: bool, newEval: seq<Cell>)
      requires Shaped(grid) && 0 <= e < |grid| && endCell == grid[e]
      requires Search(Snapshot(), tiles, width, s, e, true) && EvalOk(toEval) && |toEval| > 0
      modifies grid
      ensures found ==> FoundOk(Snapshot(), tiles, width, s, e)
      ensures !found ==> Search(Snapshot(), tiles, width, s, e, true) && EvalOk(newEval)
      ensures !found ==> Progress(old(Snapshot()), Snapshot())
    {
      var currentCell := GetCellMinScore(toEval);
      InGridIdx(currentCell);
      ghost var ci := Idx(currentCell);
      ghost var before := Snapshot();
      found, newEval := Step(currentCell, endCell, toEval, tiles, s, e, ci, true);
      if found {
        StepFindsEnd(before, tiles, width, s, e, true, ci);
      } else {
        StepKeepsSearch(before, tiles, width, s, e, true, ci);
        StepProgresses(before, tiles, width, s, e, ci);
      }
    }

    /**
     * `pathfind`: the do-while loop of steps. The first step expands the
     * start, every later one a discovered cell of least score. It answers
     * the end cell as soon as a step discovers it, and null once no
     * discovered cell is left, which happens only when the end cannot be
     * reached.
     */
    method Pathfind(startCell: Cell, endCell: Cell, ghost tiles: seq<Color>, ghost s: int, ghost e: int)
      returns (result: Cell?)
      requires Shaped(grid) && 0 <= s < |grid| && 0 <= e < |grid|
      requires startCell == grid[s] && endCell == grid[e]
      requires Search(Snapshot(), tiles, width, s, e, false)
      modifies grid
      ensures result == null || result == endCell
      ensures result != null ==> FoundOk(Snapshot(), tiles, width, s, e)
      ensures result == null ==> !CanMove(tiles, width, s, e)
    {
      var cellsToEvaluate: seq<Cell> := [];
      ghost var before := Snapshot();
      forall i | 0 <= i < |grid|
        ensures grid[i].cellType != Discovered
      {
        assert KindOk(before, tiles, s, e, false, i);
      }
      var found;
      found, cellsToEvaluate := Step(startCell, endCell, cellsToEvaluate, tiles, s, e, s, false);
      if found {
        StepFindsEnd(before, tiles, width, s, e, false, s);
        return endCell;
      }
      StepKeepsSearch(before, tiles, width, s, e, false, s);
      while |cellsToEvaluate| > 0
        invariant Search(Snapshot(), tiles, width, s, e, true)
        invariant EvalOk(cellsToEvaluate)
        decreases OfKind(Snapshot(), Open), OfKind(Snapshot(), Discovered)
      {
        found, cellsToEvaluate := NextStep(endCell, cellsToEvaluate, tiles, s, e);
        if found {
          return endCell;
        }
      }
      if s != e && tiles[e] == Empty {
        ExhaustedMeansUnreachable(Snapshot(), tiles, width, s, e);
      }
      return null;
    }

    /** The linear indices of the cells of a path. */
    function PathIndices(path: seq<Cell>): (idx: seq<int>)
      ensures |idx| == |path|
      ensures forall k :: 0 <= k < |path| ==> idx[k] == Idx(path[k])
    {
      seq(|path|, k requires 0 <= k < |path| => Idx(path[k]))
    }

    /**
     * The path part of `beginPathfind`: back links are followed from the
     * end until they reach the start, and the cells met, with the end in
     * front and the start behind, are reversed. The path runs from the
     * start to the end over 4-neighbours, every cell after the start is an
     * empty tile, and it has g(end) + 1 cells.
     */
    method TracePath(startCell: Cell, endCell: Cell, ghost tiles: seq<Color>, ghost s: int, ghost e: int)
      returns (path: seq<Cell>)
      requires Shaped(grid) && 0 <= s < |grid| && 0 <= e < |grid|
      requires startCell == grid[s] && endCell == grid[e]
      requires FoundOk(Snapshot(), tiles, width, s, e)
      ensures forall k :: 0 <= k < |path| ==> path[k] in grid
      ensures IsEmptyWalk(tiles, width, PathIndices(path), s, e)
      ensures |path| == endCell.g + 1
    {
      ghost var snap := Snapshot();
      var cellsPath: seq<Cell>;
      ghost var chain: seq<int>;
      cellsPath, chain := FollowBack(startCell, endCell, tiles, s, e);
      BackChainIsWalk(snap, tiles, width, s, e, chain);
      ShapedIdx(grid, s);
      cellsPath := [endCell] + cellsPath;
      cellsPath := cellsPath + [startCell];
      path := Reverse(cellsPath);
      ReversedIndices(cellsPath, chain + [s]);
    }

    /**
     * The while loop of `beginPathfind`: from the end, back links are
     * followed until one leads to the start. The cells met after the end
     * are collected; their indices, behind the end's, form a back chain
     * whose last entry points at the start.
     */
    method FollowBack(startCell: Cell, endCell: Cell, ghost tiles: seq<Color>, ghost s: int, ghost e: int)
      returns (cellsPath: seq<Cell>, ghost chain: seq<int>)
      requires Shaped(grid) && 0 <= s < |grid| && 0 <= e < |grid|
      requires startCell == grid[s] && endCell == grid[e]
      requires FoundOk(Snapshot(), tiles, width, s, e)
      ensures BackChain(Snapshot(), width, s, e, chain)
      ensures Snapshot()[chain[|chain| - 1]].prev == s
      ensures |cellsPath| == |chain| - 1
      ensures forall k :: 0 <= k < |cellsPath| ==> cellsPath[k] == grid[chain[k + 1]]
    {
      ghost var snap := Snapshot();
      ShapedIdx(grid, s);
      cellsPath := [];
      var currentCell: Cell := endCell;
      chain := [e];
      while true
        invariant BackChain(snap, width, s, e, chain)
        invariant currentCell == grid[chain[|chain| - 1]]
        invariant |cellsPath| == |chain| - 1
        invariant forall k :: 0 <= k < |cellsPath| ==> cellsPath[k] == grid[chain[k + 1]]
        invariant snap[chain[|chain| - 1]].g >= 1
        decreases snap[chain[|chain| - 1]].g
      {
        ghost var last := chain[|chain| - 1];
        ghost var p := snap[last].prev;
        PreviousOfLinked(snap, s, last);
        var previousCell := currentCell.previousCell;
        if previousCell == startCell || previousCell == null {
          ShapedIdx(grid, p);
          break;
        }
        BackChainExtend(snap, tiles, width, s, e, chain);
        cellsPath := cellsPath + [previousCell];
        currentCell := previousCell;
        chain := chain + [p];
      }
    }

    /** The back link of a linked cell is the cell its node's prev names. */
    lemma PreviousOfLinked(snap: seq<Node>, s: int, i: int)
      requires Shaped(grid) && snap == Snapshot() && 0 <= i < |grid|
      requires LinkOk(snap, width, s, i)
      ensures 0 <= snap[i].prev < |grid| && grid[i].previousCell == grid[snap[i].prev]
    {
      assert snap[i] == NodeOf(grid[i]);
      InGridIdx(grid[i].previousCell);
    }

    /** Reversing a list of grid cells reverses the list of their indices. */
    lemma ReversedIndices(cells: seq<Cell>, idx: seq<int>)
      requires Shaped(grid) && |cells| == |idx|
      requires forall k :: 0 <= k < |idx| ==> 0 <= idx[k] < |grid| && cells[k] == grid[idx[k]]
      ensures forall k :: 0 <= k < |cells| ==> Reverse(cells)[k] in grid
      ensures PathIndices(Reverse(cells)) == Reverse(idx)
    {
      forall k | 0 <= k < |cells|
        ensures Reverse(cells)[k] in grid && Idx(Reverse(cells)[k]) == Reverse(idx)[k]
      {
        ReverseAt(cells, k);
        ReverseAt(idx, k);
        ShapedIdx(grid, idx[|idx| - 1 - k]);
      }
    }

    /** The first line of `beginPathfind`: a fresh grid for the tiles, in which no search has begun. */
    method ResetGrid(tiles: seq<Color>, sx: nat, sy: nat, ex: nat, ey: nat)
      requires width > 0 && |tiles| == width * height
      requires sx < width && sy < height && ex < width && ey < height
      modifies this
      ensures Shaped(grid) && forall i :: 0 <= i < |grid| ==> fresh(grid[i])
      ensures Snapshot() == InitialNodes(tiles, GetTile(width, sx, sy), GetTile(width, ex, ey))
      ensures Search(Snapshot(), tiles, width, GetTile(width, sx, sy), GetTile(width, ex, ey), false)
    {
      var s, e := GetTile(width, sx, sy), GetTile(width, ex, ey);
      TileInBoard(width, height, sx, sy);
      TileInBoard(width, height, ex, ey);
      grid := GenerateGridFromTiles(tiles, sx, sy, ex, ey);
      assert Snapshot() == InitialNodes(tiles, s, e);
      InitialSearch(tiles, width, s, e);
    }

    /**
     * `beginPathfind`: rebuilds the grid from the tiles and searches from
     * (sx, sy) to (ex, ey). A path is answered exactly when the two tiles
     * differ, the end tile is empty and it can be reached over empty
     * tiles; it then runs from the start to the end over 4-neighbours.
     */
    method BeginPathfind(tiles: seq<Color>, sx: nat, sy: nat, ex: nat, ey: nat) returns (result: Option<seq<Cell>>)
      requires width > 0 && |tiles| == width * height
      requires sx < width && sy < height && ex < width && ey < height
      modifies this
      ensures Shaped(grid) && forall i :: 0 <= i < |grid| ==> fresh(grid[i])
      ensures result.Some? <==> CanMove(tiles, width, GetTile(width, sx, sy), GetTile(width, ex, ey))
      ensures var s, e := GetTile(width, sx, sy), GetTile(width, ex, ey);
        result.Some? ==>
          && (forall k :: 0 <= k < |result.value| ==> result.value[k] in grid)
          && IsEmptyWalk(tiles, width, PathIndices(result.value), s, e)
          && |result.value| == grid[e].g + 1
    {
      var s, e := GetTile(width, sx, sy), GetTile(width, ex, ey);
      TileInBoard(width, height, sx, sy);
      TileInBoard(width, height, ex, ey);
      ResetGrid(tiles, sx, sy, ex, ey);
      var startCell := grid[s];
      var endCell := grid[e];
      var found := Pathfind(startCell, endCell, tiles, s, e);
      if found == null {
        assert !CanMove(tiles, width, s, e);
        return None;
      }
      assert s != e && tiles[e] == Empty;
      var path := TracePath(startCell, endCell, tiles, s, e);
      assert CanMove(tiles, width, s, e) by {
        assert IsEmptyWalk(tiles, width, PathIndices(path), s, e);
      }
      return Some(path);
    }
  }
}
