# Balls: a verified model of the game core

This project models the core of a 9×9 "five in a row" ball game. Players move a coloured ball along a path of empty tiles. Runs of five or more balls of one colour, in a row, a column or a diagonal, are destroyed for score. Three new balls appear after every move that destroys nothing. The model covers six parts:

- **Board geometry** (`geometry.dfy`, `tiles.dfy`): the tile colours, the row-major indexing `y * width + x` and the board `generateBoard` builds.
- **Line matcher** (`memory.dfy`, `line_scan.dfy`, `scan_lines.dfy`, `matcher.dfy`, the scanning methods of `game_board.dfy`). This is `checkNInRow` together with its run memory (`reset`, `hardReset`, `result`, `carry`) and `CheckNInRowEvaluate`. The imperative scan loops are proved to compute `NInRow`. `NInRow` is a specification function, and lemmas describe what it returns: a tile is listed for a direction exactly when it lies in a maximal run of at least n balls of one colour on a scan line of that direction.
- **Score and destruction** (`score.dfy`, `board_rules.dfy`, `game_board.dfy`): `CalculateScore` with exact reals, `destroyBallsIncreaseScore` clearing tiles in place, and `increaseCombo`/`resetCombo`.
- **A\* pathfinder** (`cell.dfy`, `search_model.dfy`, `pathfinder.dfy`). It covers `Cell`, `generateGridFromTiles`, `pathfind`/`step`, `getCellMinScore` and the back link walk of `beginPathfind`. The pathfinder is a class, and each cell is an object that the search updates in place. A ghost `Snapshot` of the cells ties every step to a value-level search state. That state carries the search invariant, the termination measure and the completeness argument.
- **Turns and clicks** (`board_rules.dfy`, `game_board.dfy`): `takeTurn`, `isSurrounded`, `cellsToTiles`, the board logic of `handleBoardClick`, and the body of the post-move `setTimeout` callback as `ResolveTurn`.
- **Random selection** (`random_pick.dfy`): `Array.prototype.random` and `randomN`.

Values of `Math.random()` are inputs. They are a real in [0, 1), or a finite sequence of such reals where a loop draws repeatedly. The tie-break coin of `getCellMinScore` is a nondeterministic choice (`:|`). The three preview colours are an input to `takeTurn`. A click is the index of the clicked tile, or `None` when the click hit no tile.

Boards are square (`width == height`), and the minimum run length is at least 1. The horizontal and vertical scans of `checkNInRow` bound their loops by the height only (src/GameBoard.ts:458, src/GameBoard.ts:468). On a square board that is the same bound as the width.

## Model

| member | source | states |
|---|---|---|
| Tiles.PaletteIsTheBallColours | src/GameBoard.ts:271-273 | the colours a random ball colour is drawn from are exactly the non-EMPTY values of `ETile` |
| BoardGeometry.GenerateBoard | src/GameBoard.ts:287-289 | `generateBoard` makes one tile per index of a width × height board |
| BoardGeometry.GetTileMatchesGenerateBoard | src/GameBoard.ts:617-619 | for every in-bounds (x, y), `getTile`'s index y·width+x is inside the board and the generated tile there has coordinates (x, y) |
| BoardGeometry.GenerateBoardMatchesGetTile | src/GameBoard.ts:287-289 | every generated tile lies on the board, and `getTile` of its coordinates is its own index |
| BoardGeometry.GetTileInjective | src/GameBoard.ts:617-619 | two in-board coordinate pairs with the same linear index are equal |
| BoardGeometry.CoordsOfIndex | src/GameBoard.ts:288 | `i % width` and `floor(i / width)` recover the column and row of index y·width+x |
| Memory.CarryState | src/GameBoard.ts:440-444 | `carry` appends the current run to the collected tiles iff the run has at least n tiles; otherwise nothing changes; the current run is never cleared |
| Memory.ResetState | src/GameBoard.ts:426-429 | `reset` clears the current colour and run and keeps the collected tiles |
| Memory.CheckNInARowMemory.constructor | src/GameBoard.ts:421-425 | the memory starts with no collected tiles, current colour EMPTY and an empty current run |
| Memory.CheckNInARowMemory.Reset | src/Memory.ts:24-26 | `reset` changes the state as `ResetState` says and keeps the invariant that the collected tiles are the concatenation of the carried runs |
| Memory.CheckNInARowMemory.HardReset | src/Memory.ts:28-30 | `hardReset` also empties the collected tiles and the record of carried runs |
| Memory.CheckNInARowMemory.Result | src/GameBoard.ts:434-439 | `result().status` is true iff the collected list is non-empty, and `tiles` is that list (possibly empty) |
| Memory.CheckNInARowMemory.Carry | src/GameBoard.ts:440-444 | `carry` changes the state as `CarryState` says; the collected tiles stay the concatenation, in scan order, of carried runs that each have at least n tiles, so they only grow between hard resets |
| LineScan.InLongRunIsMaximalRun | src/GameBoard.ts:595-608 | position k is "in a long run" iff its colour is a ball and some maximal one-colour block of length ≥ n covers it |
| LineScan.RunStart | src/GameBoard.ts:600-606 | the block of equal colours around k starts at the returned position and is not extended to its left |
| LineScan.RunEnd | src/GameBoard.ts:600-606 | the block of equal colours around k ends just before the returned position and is not extended to its right |
| LineScan.RunBounds | src/GameBoard.ts:600-606 | inside a maximal run, the block around any position is exactly that run |
| LineScan.FilteredMembers | src/GameBoard.ts:595-608 | a tile is accepted on a line iff it sits at a position that is in a long run |
| LineScan.FilteredBlock | src/GameBoard.ts:600-606 | the tiles of one maximal run are accepted all together, in line order, or not at all |
| LineScan.FilteredDistinct | src/GameBoard.ts:455-464 | a line without repeated tiles yields an accepted list without repeats |
| LineScan.DirectionMembers | src/GameBoard.ts:454-528 | a tile is listed for a direction iff it lies in a long run on one of the direction's lines; every listed tile holds a ball |
| LineScan.DirectionDistinct | src/GameBoard.ts:454-528 | when a direction's lines share no tile, the direction lists no tile twice |
| LineScan.CollectedWhole | src/GameBoard.ts:454-465 | collecting line after line yields exactly the direction's accepted tiles |
| LineScan.ScanInit | src/GameBoard.ts:456 | after `reset` at the start of a line, the scan invariant holds |
| LineScan.ScanStep | src/GameBoard.ts:595-608 | `CheckNInRowEvaluate` on the next tile keeps the scan invariant: outside a run, every accepted tile before it is collected; inside a run, the memory holds exactly the run so far |
| LineScan.ScanStepOutsideRun | src/GameBoard.ts:596-598 | when the previous tile is empty or absent (no run in progress), evaluating the next tile keeps the scan invariant |
| LineScan.ScanStepExtend | src/GameBoard.ts:600-601 | a ball of the same colour as the previous ball keeps the scan invariant (the run grows) |
| LineScan.ScanStepBreak | src/GameBoard.ts:602-606 | a tile whose colour differs from the previous ball keeps the scan invariant: the finished run is carried if long enough, and a new run starts or none |
| LineScan.RunCarried | src/GameBoard.ts:440-444 | carrying a finished maximal run collects exactly the accepted tiles up to its end |
| LineScan.ScanEnd | src/GameBoard.ts:463 | the trailing `carry()` keeps a run that touches the end of the line |
| LineScan.ScanFoldInv | src/GameBoard.ts:458-461 | after `reset` and i evaluations, the memory satisfies the scan invariant at i |
| LineScan.ScanWholeLine | src/GameBoard.ts:455-464 | one whole line (`reset`, evaluations, `carry`) appends exactly the line's accepted tiles |
| LineScan.SingleBallRuns | src/GameBoard.ts:595-608 | with n = 1 every ball on a line is reported, and nothing else |
| LineScan.FiveRedsExample | src/GameBoard.ts:455-464 | the row RED×5, EMPTY, BLUE×2 reports the five reds at n = 5 and nothing at n = 6 |
| ScanLines.DiagonalDown | src/GameBoard.ts:481-502 | DIAGONAL DOWN scans max(0, w−n+1) left-edge lines and max(0, w−n) top-edge lines |
| ScanLines.DiagonalUp | src/GameBoard.ts:506-527 | DIAGONAL UP scans max(0, w−n+1) left-edge lines and max(0, w−n) bottom-edge lines |
| ScanLines.Directions | src/GameBoard.ts:454-528 | there are exactly four directions |
| ScanLines.DirectionsWellFormed | src/GameBoard.ts:454-528 | on a square board every scanned index is in range, and no tile appears twice within one direction |
| ScanLines.LineCoords | src/GameBoard.ts:455-527 | the k-th tile of the j-th line of each direction is `getTile` of an in-board (x, y) |
| ScanLines.CoordsDetermineSlot | src/GameBoard.ts:480-527 | different slots of one direction's lines are different squares |
| ScanLines.RowTiles | src/GameBoard.ts:455-461 | the horizontal inner loop visits row y left to right, inside the board |
| ScanLines.ColumnTiles | src/GameBoard.ts:468-474 | the vertical inner loop visits column x top to bottom, inside the board |
| ScanLines.DownFromLeftTiles | src/GameBoard.ts:481-488 | the first diagonal-down loop visits (x, startY+x), inside the board |
| ScanLines.DownFromTopTiles | src/GameBoard.ts:492-499 | the second diagonal-down loop visits (startX+y, y), inside the board |
| ScanLines.UpFromLeftTiles | src/GameBoard.ts:506-513 | the first diagonal-up loop visits (x, startY−x), inside the board |
| ScanLines.UpFromBottomTiles | src/GameBoard.ts:517-524 | the second diagonal-up loop visits (startX+t, h−1−t), inside the board |
| ScanLines.HorizontalShape | src/GameBoard.ts:455 | the horizontal lines are the rows in order |
| ScanLines.VerticalShape | src/GameBoard.ts:468 | the vertical lines are the columns in order |
| ScanLines.DiagonalDownShape | src/GameBoard.ts:481-492 | the diagonal-down lines start at rows w−n down to 0 on the left edge, then at columns 1 to w−n on the top edge |
| ScanLines.DiagonalUpShape | src/GameBoard.ts:506-517 | the diagonal-up lines start at rows n−1 to w−1 on the left edge, then at columns 1 to w−n on the bottom edge |
| Matcher.NInRow | src/GameBoard.ts:447-530 | `checkNInRow` is None iff every direction's status is false; otherwise it is exactly four results, in the order horizontal, vertical, diagonal down, diagonal up |
| Matcher.DirectionOutcomeMeaning | src/GameBoard.ts:454-528 | in each direction: status iff the list is non-empty; a tile is listed iff it lies in a maximal run of ≥ n same-coloured balls on a line of that direction; listed tiles hold balls; no tile is listed twice |
| Matcher.EmptyBoardMatchesNothing | src/GameBoard.ts:530 | a board without balls yields None |
| Score.Components | src/GameBoard.ts:641-650 | there is one score component per matched direction |
| Score.DirCount | src/GameBoard.ts:639-650 | `dirCount` never exceeds the number of results |
| Score.ComponentsSnoc | src/GameBoard.ts:641-650 | each further result adds its component and its count, in order |
| Score.FourDirections | src/GameBoard.ts:641-650 | for the four results of one check, the components and the count are the per-direction shares, in direction order |
| Score.ScoreExamples | src/GameBoard.ts:629-658 | one direction of 5 at n = 5, combo 1 scores 5; two such directions score 15 |
| Score.ComponentAtLeastLength | src/GameBoard.ts:645-648 | a run of at least n tiles earns at least one point per tile |
| Score.SumAtLeastTiles | src/GameBoard.ts:641-654 | the components of long-enough matches sum to at least their total tile count |
| Score.SumAppend | src/GameBoard.ts:654 | the `reduce` sum of a concatenation is the sum of the sums |
| Score.ScoreAtLeastTiles | src/GameBoard.ts:629-658 | with combo ≥ 1 and at least one match, the score is at least the number of matched tiles |
| Score.ScaledAtLeast | src/GameBoard.ts:655 | flooring a product with factors ≥ 1 keeps at least the integer lower bound |
| Score.ScaledMonotone | src/GameBoard.ts:655 | the floored score does not decrease as the combo grows |
| Score.PartialScoreNonNegative | src/GameBoard.ts:652-654 | for matches of at least n tiles, the summed components times the direction-count multiplier are never negative |
| Score.ScoreMonotoneInCombo | src/GameBoard.ts:629-658 | a larger combo never gives a smaller score |
| Score.RoundHundredthsClose | src/GameBoard.ts:550 | rounding to hundredths moves a value by at most half a hundredth |
| Score.NextComboGrows | src/GameBoard.ts:549-552 | from 1 upward, `increaseCombo` strictly increases the multiplier |
| Score.ComboSequence | src/GameBoard.ts:550 | successive combos are 1, 1.5, 2.25, 3.38, 5.07 |
| BoardRules.EmptyTiles | src/GameBoard.ts:393 | the candidates are exactly the empty tiles, in range and without repeats |
| BoardRules.EmptyTilesCount | src/GameBoard.ts:393-395 | there are as many candidates as empty tiles |
| BoardRules.AllFree | src/GameBoard.ts:393 | on a board without balls every tile is a candidate |
| BoardRules.Fill | src/GameBoard.ts:400-402 | the spawn keeps the board size |
| BoardRules.FillAt | src/GameBoard.ts:400-402 | with distinct chosen tiles, the i-th chosen tile gets the i-th preview colour and no other tile changes |
| BoardRules.FillFreeCount | src/GameBoard.ts:400-402 | filling k distinct empty tiles with balls removes exactly k empty tiles |
| BoardRules.SpawnUsesThreeFreeTiles | src/GameBoard.ts:398-402 | the spawn leaves three fewer candidates |
| BoardRules.Moved | src/GameBoard.ts:345-349 | a move keeps the board size |
| BoardRules.MoveKeepsBalls | src/GameBoard.ts:345-349 | moving a ball onto an empty tile keeps every colour's count, so the number of balls is unchanged |
| BoardRules.Listed | src/GameBoard.ts:536-537 | the nested forEach visits every tile of every direction, and only those tiles |
| BoardRules.ListedSnoc | src/GameBoard.ts:536-537 | the directions are visited in order |
| BoardRules.Cleared | src/GameBoard.ts:536-543 | the board after a destruction has the same size |
| BoardRules.BallsAmongMatched | src/GameBoard.ts:538-541 | when every listed tile holds a ball, the destroyed balls are exactly the distinct listed tiles |
| BoardRules.ClearedFreeCount | src/GameBoard.ts:536-543 | destruction frees exactly the listed tiles that held a ball, each counted once |
| BoardRules.ClearedSnoc | src/GameBoard.ts:665-667 | clearing one more listed tile empties just that tile |
| BoardRules.BallsAmongSnoc | src/GameBoard.ts:538-541 | a listed tile adds to `destroyedBalls` iff it still holds a ball, so a tile listed in two directions counts once |
| BoardRules.TurnMeaning | src/GameBoard.ts:392-404 | `takeTurn` is game over iff at most 3 tiles are empty, and then no tile changes; otherwise 3 distinct, previously empty tiles get the 3 preview colours in order, nothing else changes, and 3 fewer tiles are empty |
| BoardRules.Surrounding | src/GameBoard.ts:266 | the filter keeps exactly the 4-neighbours of the tile |
| BoardRules.WalkLeavesThroughNeighbour | src/GameBoard.ts:265-269 | any empty walk out of a tile starts through an empty 4-neighbour |
| BoardRules.SurroundedIffStuck | src/GameBoard.ts:265-269 | a ball is surrounded iff there is no tile it can be moved to |
| BoardRules.RandomColor | src/GameBoard.ts:271-273 | a random colour is never EMPTY |
| BoardRules.EveryColourDrawable | src/GameBoard.ts:271-273 | every ball colour can be drawn |
| BoardRules.ClickIgnored | src/GameBoard.ts:330-387 | while locked a click changes nothing; clicking a surrounded ball changes nothing; clicking the selected (unsurrounded) ball deselects it |
| BoardRules.ClickMoves | src/GameBoard.ts:340-353 | the board changes only when the selected ball can reach the clicked empty tile; the move empties the source, colours the target with the source colour, keeps the number of balls, clears the selection and locks; conversely, an unlocked click on an empty tile the selected ball can reach always makes that move |
| BoardRules.ClickKeepsSelection | src/GameBoard.ts:371-386 | after a click the selection is on the board and, if it held a ball before, still holds one |
| PathCell.Cell.constructor | src/pathfind/Cell.ts:29-51 | a new cell has the given type and position, f = g = h = 0 and no previous cell |
| PathCell.Cell.UpdateType | src/pathfind/Cell.ts:67-69 | only `type` changes |
| PathCell.Cell.UpdateCosts | src/pathfind/Cell.ts:77-81 | g = from.g + distance to from, h = distance to end, f = g + h; nothing else changes |
| PathCell.DistanceSymmetric | src/pathfind/Cell.ts:58-60 | `distanceTo` is symmetric |
| PathCell.DistanceZero | src/pathfind/Cell.ts:58-60 | `distanceTo` is zero exactly between cells at the same position |
| PathCell.DistanceTriangle | src/pathfind/Cell.ts:58-60 | `distanceTo` satisfies the triangle inequality |
| PathCell.HeuristicConsistent | src/pathfind/Cell.ts:77-81 | the h values of two cells one step apart differ by at most one |
| SearchModel.InitialKind | src/pathfind/Pathfinder.ts:36-48 | a cell is WALL iff its tile is not empty; the start becomes START and the end becomes END only when they are not WALL; the other empty tiles are OPEN |
| SearchModel.InitialNodes | src/pathfind/Pathfinder.ts:36-48 | the fresh grid has one node per tile |
| SearchModel.InitialSearch | src/pathfind/Pathfinder.ts:36-48 | the fresh grid satisfies the search invariant |
| SearchModel.Expand | src/pathfind/Pathfinder.ts:131-133 | expansion keeps the grid size |
| SearchModel.Close | src/pathfind/Pathfinder.ts:141-143 | closing keeps the grid size |
| SearchModel.AdjacentIrreflexive | src/pathfind/Pathfinder.ts:168 | no cell is its own neighbour |
| SearchModel.AdjacentSymmetric | src/pathfind/Pathfinder.ts:168 | neighbourhood is symmetric |
| SearchModel.StepKeepsSearch | src/pathfind/Pathfinder.ts:129-147 | a step that misses the end keeps the invariant: walls are non-empty and never expanded; every discovered or closed cell points back to a 4-neighbour with g one less; no OPEN/END cell borders an expanded one |
| SearchModel.StepKeepsStartCost | src/pathfind/Pathfinder.ts:131-143 | the start keeps g = 0 |
| SearchModel.StepKeepsKinds | src/pathfind/Pathfinder.ts:131-143 | cell types still match their tiles after a step |
| SearchModel.StepKeepsLinks | src/pathfind/Pathfinder.ts:132-133 | back links set once stay valid, because an already-discovered cell is not re-admitted |
| SearchModel.StepKeepsClosure | src/pathfind/Pathfinder.ts:129-145 | after a step no OPEN or END cell borders an expanded cell |
| SearchModel.StepProgresses | src/pathfind/Pathfinder.ts:139-145 | each later step has fewer OPEN cells, or as many and fewer DISCOVERED ones, so the loop terminates |
| SearchModel.StepFindsEnd | src/pathfind/Pathfinder.ts:131-136 | when a step discovers the end, back links lead from it to the start through empty tiles |
| SearchModel.StartIsNotFound | src/pathfind/Pathfinder.ts:167-168 | the first step never "finds" its own cell |
| SearchModel.LaterStepsMissStart | src/pathfind/Pathfinder.ts:176-177 | after the first step the start is never a valid neighbour |
| SearchModel.WalkStaysExpanded | src/pathfind/Pathfinder.ts:150-156 | once nothing is left to evaluate, every cell of an empty walk from the start has been expanded |
| SearchModel.WalkEndsExpanded | src/pathfind/Pathfinder.ts:150-158 | once nothing is left to evaluate, the end of any empty walk from the start has been expanded |
| SearchModel.ExhaustedMeansUnreachable | src/pathfind/Pathfinder.ts:150-158 | if the search runs out of cells to evaluate, an empty end tile other than the start is unreachable through empty tiles |
| SearchModel.BackChainExtend | src/pathfind/Pathfinder.ts:100-108 | following one more back link keeps the chain valid, with g falling by exactly 1 and staying ≥ 1 |
| SearchModel.BackChainIsWalk | src/pathfind/Pathfinder.ts:100-114 | the reversed chain plus the start is a walk from start to end over 4-neighbours through empty tiles, with g(end) + 1 cells |
| Pathfinding.Neighbours | src/pathfind/Pathfinder.ts:167-169 | exactly the grid cells at distance 1, without repeats |
| Pathfinding.ValidNeighbours | src/pathfind/Pathfinder.ts:176-178 | exactly the OPEN or END cells among the neighbours, without repeats |
| Pathfinding.Without | src/pathfind/Pathfinder.ts:144 | the filter drops exactly the current cell |
| Pathfinding.GetCellMinScore | src/pathfind/Pathfinder.ts:185-203 | a non-empty list yields a member with minimal f and, among those, minimal h |
| Pathfinding.MarkDiscovered | src/pathfind/Pathfinder.ts:132 | OPEN neighbours become DISCOVERED, every valid neighbour points back to the current cell, and costs are untouched |
| Pathfinding.UpdateAllCosts | src/pathfind/Pathfinder.ts:133 | each valid neighbour gets g = current.g + 1 (distance 1), h = distance to end and f = g + h |
| Pathfinding.BaseKinds | src/pathfind/Pathfinder.ts:37 | a cell is OPEN iff its tile is EMPTY and WALL otherwise |
| Pathfinding.Pathfinder.constructor | src/pathfind/Pathfinder.ts:21-25 | the initial grid is width × height cells, row by row, all OPEN |
| Pathfinding.Pathfinder.MakeCells | src/pathfind/Pathfinder.ts:37 | one fresh cell per index, at that index's position, with the given type and zero costs |
| Pathfinding.Pathfinder.GenerateGridFromTiles | src/pathfind/Pathfinder.ts:36-48 | the fresh grid has the types `InitialKind` gives, zero g and no back links |
| Pathfinding.Pathfinder.Relabel | src/pathfind/Pathfinder.ts:39-45 | the start or end is relabelled only when it is not WALL; nothing else changes |
| Pathfinding.Pathfinder.DistanceIsAdjacency | src/pathfind/Pathfinder.ts:168 | grid cells at distance 1 are exactly 4-adjacent tiles |
| Pathfinding.Pathfinder.ExpandFrom | src/pathfind/Pathfinder.ts:131-133 | the valid neighbours are exactly the OPEN/END 4-neighbours; the new state is `Expand` of the old |
| Pathfinding.Pathfinder.EvalAfterStep | src/pathfind/Pathfinder.ts:139-145 | after a step, `cellsToEvaluate` holds exactly the DISCOVERED cells |
| Pathfinding.Pathfinder.Step | src/pathfind/Pathfinder.ts:129-148 | `step` returns the end iff it is a valid neighbour of the current cell; otherwise the current cell is closed and the list is updated |
| Pathfinding.Pathfinder.NextStep | src/pathfind/Pathfinder.ts:145-156 | a later step either finds the end with valid back links, or keeps the invariant and makes progress |
| Pathfinding.Pathfinder.Pathfind | src/pathfind/Pathfinder.ts:126-159 | `pathfind` terminates; it returns the end cell with valid back links, or null only when the end cannot be reached |
| Pathfinding.Pathfinder.FollowBack | src/pathfind/Pathfinder.ts:100-109 | the while loop terminates (g falls by 1 per step) and collects a back chain ending next to the start |
| Pathfinding.Pathfinder.TracePath | src/pathfind/Pathfinder.ts:96-114 | the rebuilt path runs from start to end over 4-neighbours, every cell after the start is empty, and it has end.g + 1 cells |
| Pathfinding.Pathfinder.ReversedIndices | src/pathfind/Pathfinder.ts:114 | reversing the cells reverses their indices |
| Pathfinding.Pathfinder.ResetGrid | src/pathfind/Pathfinder.ts:89 | the grid is rebuilt fresh, and the search invariant holds before the first step |
| Pathfinding.Pathfinder.BeginPathfind | src/pathfind/Pathfinder.ts:88-118 | a path is returned iff the end differs from the start, is empty and is reachable through empty tiles; the path starts at (sx, sy), ends at (ex, ey), steps between 4-neighbours through empty tiles and has end.g + 1 cells; a non-empty end tile gives null |
| ArrayRandom.DrawIndex | src/ArrayPrototype.ts:25 | `floor(random · length)` is an index in [0, length) |
| ArrayRandom.Random | src/ArrayPrototype.ts:20-26 | `random` fails iff the array is empty; otherwise it returns the element at the drawn index, which is a member |
| ArrayRandom.Drawn | src/ArrayPrototype.ts:35-36 | there is one drawn element per draw when the array is non-empty |
| ArrayRandom.DrawnMembers | src/ArrayPrototype.ts:36 | every drawn element is in the array |
| ArrayRandom.DedupMembers | src/ArrayPrototype.ts:38-40 | keeping first occurrences keeps the same members, without repeats |
| ArrayRandom.DedupPrefix | src/ArrayPrototype.ts:35-41 | the elements kept from a prefix of the draws are a prefix of those kept from all of them |
| ArrayRandom.RandomN | src/ArrayPrototype.ts:28-44 | `randomN(n)` fails with the "more items" error iff n > length; n = 0 gives [] without drawing; a success has exactly n distinct members of the array: the first n distinct elements drawn |
| Board.MatchedTilesHoldBalls | src/GameBoard.ts:536-543 | every tile a match lists is on the board and holds a ball, so the destroyed balls are the distinct listed tiles |
| Board.GameBoard.constructor | src/GameBoard.ts:184-220 | the board starts empty, with no selection, score 0 and combo 1, unlocked, and minBallsInARow = 5; then the first `takeTurn` runs |
| Board.GameBoard.CheckNInRowEvaluate | src/GameBoard.ts:595-608 | the memory changes as `EvaluateStep` on the tile's colour says |
| Board.GameBoard.EndLine | src/GameBoard.ts:463 | the trailing `carry` of a line collects exactly the line's accepted tiles |
| Board.GameBoard.ScanRow | src/GameBoard.ts:455-464 | scanning row y appends exactly that row's accepted tiles |
| Board.GameBoard.ScanColumn | src/GameBoard.ts:468-477 | scanning column x appends exactly that column's accepted tiles |
| Board.GameBoard.ScanDownFromLeft | src/GameBoard.ts:481-491 | scanning one left-edge down diagonal appends exactly its accepted tiles |
| Board.GameBoard.ScanDownFromTop | src/GameBoard.ts:492-502 | scanning one top-edge down diagonal appends exactly its accepted tiles |
| Board.GameBoard.ScanUpFromLeft | src/GameBoard.ts:506-516 | scanning one left-edge up diagonal appends exactly its accepted tiles |
| Board.GameBoard.ScanUpFromBottom | src/GameBoard.ts:517-527 | scanning one bottom-edge up diagonal appends exactly its accepted tiles |
| Board.GameBoard.CollectRow | src/GameBoard.ts:455-464 | after row line j, the collected tiles are those of the first j + 1 lines |
| Board.GameBoard.CollectColumn | src/GameBoard.ts:468-477 | after column line j, the collected tiles are those of the first j + 1 lines |
| Board.GameBoard.CollectDownFromLeft | src/GameBoard.ts:481-491 | after diagonal line j, the collected tiles are those of the first j + 1 lines |
| Board.GameBoard.CollectDownFromTop | src/GameBoard.ts:492-502 | after diagonal line j, the collected tiles are those of the first j + 1 lines |
| Board.GameBoard.CollectUpFromLeft | src/GameBoard.ts:506-516 | after diagonal line j, the collected tiles are those of the first j + 1 lines |
| Board.GameBoard.CollectUpFromBottom | src/GameBoard.ts:517-527 | after diagonal line j, the collected tiles are those of the first j + 1 lines |
| Board.GameBoard.ScanHorizontal | src/GameBoard.ts:455-464 | the horizontal loops collect exactly the horizontal direction's accepted tiles |
| Board.GameBoard.ScanVertical | src/GameBoard.ts:468-477 | the vertical loops collect exactly the vertical direction's accepted tiles |
| Board.GameBoard.ScanDownLeftEdge | src/GameBoard.ts:481-491 | the left-edge loop collects the first max(0, w−n+1) diagonal-down lines |
| Board.GameBoard.ScanDownTopEdge | src/GameBoard.ts:492-502 | the top-edge loop completes the diagonal-down direction |
| Board.GameBoard.ScanUpLeftEdge | src/GameBoard.ts:506-516 | the left-edge loop collects the first max(0, w−n+1) diagonal-up lines |
| Board.GameBoard.ScanUpBottomEdge | src/GameBoard.ts:517-527 | the bottom-edge loop completes the diagonal-up direction |
| Board.GameBoard.Next | src/GameBoard.ts:447-450 | `next()` records the direction's result (status iff non-empty) and leaves the memory hard-reset |
| Board.GameBoard.HorizontalResult | src/GameBoard.ts:454-465 | the horizontal result is the horizontal `DirectionOutcome` |
| Board.GameBoard.VerticalResult | src/GameBoard.ts:467-478 | the vertical result is the vertical `DirectionOutcome` |
| Board.GameBoard.DiagonalDownResult | src/GameBoard.ts:480-503 | the diagonal-down result is that `DirectionOutcome` |
| Board.GameBoard.DiagonalUpResult | src/GameBoard.ts:505-528 | the diagonal-up result is that `DirectionOutcome` |
| Board.GameBoard.CheckNInRow | src/GameBoard.ts:420-531 | `checkNInRow` returns `NInRow` of the board, whose meaning the Matcher lemmas give; it modifies no tile, so two calls on the same board give the same answer |
| Board.GameBoard.CalculateScore | src/GameBoard.ts:629-658 | the forEach and the reduce compute floor(Σ len·(1 + floor((len−n)/2)·0.5) × {0, 1, 1.5, 2.5, 69}[dirCount] × combo) |
| Board.GameBoard.ScoreComponents | src/GameBoard.ts:638-650 | the forEach yields one component per matched direction, in order, and counts the matched directions |
| Board.GameBoard.DestroyTile | src/GameBoard.ts:665-667 | only that tile becomes EMPTY |
| Board.GameBoard.DestroyListed | src/GameBoard.ts:537-542 | one direction's tiles are cleared; each that still held a ball is counted once |
| Board.GameBoard.DestroyBallsIncreaseScore | src/GameBoard.ts:533-547 | every listed tile becomes EMPTY and no other tile changes; `destroyedBalls` grows by the listed tiles that held a ball, each counted once; `score` grows by the score of the board before destruction |
| Board.GameBoard.IncreaseCombo | src/GameBoard.ts:549-552 | the combo becomes 1.5× the old one, rounded to hundredths |
| Board.GameBoard.ResetCombo | src/GameBoard.ts:554-557 | the combo becomes 1 |
| Board.GameBoard.OnGameOver | src/GameBoard.ts:559-563 | a started, unfinished game ends and locks; otherwise nothing changes |
| Board.GameBoard.PlaceBalls | src/GameBoard.ts:400-402 | the i-th drawn tile gets the i-th preview colour |
| Board.GameBoard.TakeTurn | src/GameBoard.ts:392-410 | the tiles and the outcome are those of `Turn` (see TurnMeaning); game over calls `onGameOver`; a spawn marks the game started |
| Board.GameBoard.CellsToTiles | src/GameBoard.ts:255-263 | each cell maps to the tile index y·width + x, in order |
| Board.GameBoard.HandleBoardClick | src/GameBoard.ts:329-389 | the tiles, selection and lock change as the `Click` state machine says (see ClickIgnored, ClickMoves), using the pathfinder's answer for moves |
| Board.GameBoard.DestroyMatch | src/GameBoard.ts:360-363 | a match clears the listed tiles, adds the distinct listed tiles to `destroyedBalls` and the score at the old combo, then grows the combo |
| Board.GameBoard.ResolveTurn | src/GameBoard.ts:355-367 | after the lock is released: with a match, the match is destroyed and scored and the combo grows; without one, a turn is taken, the combo resets to 1 and the score is unchanged; a spawning turn marks the game started, and the game has ended afterwards iff it had ended before or the turn was a game over of a started game |

## Left out

- DOM and rendering are not modelled: tile elements, highlights, selection visuals, `attachElements`, `attachEvents`, `handleBoardMouseover`, `clearHighlight`/`applyHighlight` and the game-over overlay. `getTileFromElement` is replaced by passing the clicked tile's index.
- `Preview` is not modelled beyond its three colours, which are an input to `takeTurn`. `updateScore`/`updateCombo` calls are display only.
- The `setTimeout` delay is asynchronous scheduling. Its body is the synchronous `ResolveTurn`.
- The timestamps `gameStartedAt`/`gameEndedAt` (`Date.now`) are booleans saying whether they are set.
- `Math.random` is an input (see above). The `sfx` decorator only changes a CSS variable and is left out.
- The `minBallsInARow` decorator (src/decorators.ts) is the constant 5 set in the constructor. src/app.ts (bootstrapping, resizing) and the webpack configurations are not part of this model.
- Non-square boards are not modelled. The horizontal and vertical scans use the height as the bound for both coordinates.
- `Pathfinder.forEachCell`, `filterCells` as a general predicate filter, and `CellType.PATH` are not modelled. They are unused by the search; `filterCells` appears only through `Neighbours`.
- Numbers are unbounded integers and exact reals, not IEEE doubles.
- IncreaseCombo (Board.GameBoard.IncreaseCombo): `parseFloat((c * 1.5).toFixed(2))` is modelled as exact rounding half-up to hundredths. Binary floating-point representation effects of `toFixed` are not captured.
- RandomN (ArrayRandom.RandomN): the source retries `random()` until it has n distinct elements, and this can loop forever. The model consumes a finite sequence of draws and reports `OutOfDraws` when they run out. `takeTurn` reports this as `DrawsExhausted`.
- GetCellMinScore (Pathfinding.GetCellMinScore): the contract states minimal f, then minimal h. The body also follows the source's "different x wins" preference and its coin toss, but the contract does not state that preference.
- BeginPathfind (Pathfinding.Pathfinder.BeginPathfind): validity, completeness and termination are proved; shortest-path optimality is not. Cells already discovered never get a lower g, and the search stops as soon as the end is discovered, so the path length g(end) + 1 is not claimed minimal. For the same reason, the length-17 corner-to-corner example on an empty 9×9 board is not stated.
