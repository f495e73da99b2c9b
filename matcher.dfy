/**
 * The answer `checkNInRow` (src/GameBoard.ts) gives for a square board:
 * one result per direction, in the order horizontal, vertical, diagonal
 * down, diagonal up, or no answer at all when no direction matched.
 */
module Matcher {
  import opened Wrappers
  import opened Tiles
  import opened SeqUtil
  import opened Memory
  import opened LineScan
  import opened ScanLines

  /** The board is a square of side w with its tiles in row order. */
  predicate SquareBoard(b: seq<Color>, w: nat)
  {
    |b| == w * w
  }

  /** The tiles direction d reports. */
  function DirectionTiles(b: seq<Color>, w: nat, n: nat, d: nat): seq<nat>
    requires SquareBoard(b, w) && n >= 1 && d < 4
  {
    DirectionAccepted(b, Directions(w, n)[d], n)
  }

  /** The `result()` of the memory after direction d was scanned. */
  function DirectionOutcome(b: seq<Color>, w: nat, n: nat, d: nat): DirectionResult
    requires SquareBoard(b, w) && n >= 1 && d < 4
  {
    var t := DirectionTiles(b, w, n, d);
    DirectionResult(|t| != 0, t)
  }

  /**
   * `checkNInRow(n)`: all four direction results when some direction
   * matched, and None (the source's `null`) when none did.
   */
  function NInRow(b: seq<Color>, w: nat, n: nat): (r: Option<seq<DirectionResult>>)
    requires SquareBoard(b, w) && n >= 1
    ensures r.None? <==> forall d :: 0 <= d < 4 ==> !DirectionOutcome(b, w, n, d).status
    ensures r.Some? ==>
      |r.value| == 4 && forall d :: 0 <= d < 4 ==> r.value[d] == DirectionOutcome(b, w, n, d)
  {
    var results := [DirectionOutcome(b, w, n, 0), DirectionOutcome(b, w, n, 1),
                    DirectionOutcome(b, w, n, 2), DirectionOutcome(b, w, n, 3)];
    if results[0].status || results[1].status || results[2].status || results[3].status
    then Some(results)
    else None
  }

  /** Tile t lies in a maximal run of at least n balls of one colour on a scan line of direction d. */
  ghost predicate OnLongRun(b: seq<Color>, w: nat, n: nat, d: nat, t: nat)
    requires SquareBoard(b, w) && n >= 1 && d < 4
  {
    var lines := Directions(w, n)[d];
    exists j, k :: 0 <= j < |lines| && 0 <= k < |lines[j]| && lines[j][k] == t &&
      InLongRun(LineColors(b, lines[j]), n, k)
  }

  /**
   * What a direction result means: its status says whether it lists any
   * tile; a tile is listed exactly when it lies in a maximal run of at least
   * n balls of one colour on a scan line of that direction; every listed
   * tile holds a ball; and no tile is listed twice.
   */
  lemma DirectionOutcomeMeaning(b: seq<Color>, w: nat, n: nat, d: nat)
    requires SquareBoard(b, w) && n >= 1 && d < 4
    ensures var r := DirectionOutcome(b, w, n, d);
      && (r.status <==> |r.tiles| > 0)
      && (forall t: nat :: t in r.tiles <==> OnLongRun(b, w, n, d, t))
      && (forall t :: t in r.tiles ==> t < |b| && b[t] != Empty)
      && Distinct(r.tiles)
  {
    DirectionsWellFormed(w, n, d);
    DirectionMembers(b, Directions(w, n)[d], n);
    DirectionDistinct(b, Directions(w, n)[d], n);
  }

  /** An empty board matches nothing. */
  lemma EmptyBoardMatchesNothing(b: seq<Color>, w: nat, n: nat)
    requires SquareBoard(b, w) && n >= 1
    requires forall i :: 0 <= i < |b| ==> b[i] == Empty
    ensures NInRow(b, w, n).None?
  {
    forall d | 0 <= d < 4
      ensures !DirectionOutcome(b, w, n, d).status
    {
      var r := DirectionOutcome(b, w, n, d);
      DirectionOutcomeMeaning(b, w, n, d);
      if |r.tiles| > 0 {
        FirstIsMember(r.tiles);
      }
    }
  }
}
