/**
 * Board-level facts behind the turn logic of src/GameBoard.ts, stated on the
 * tile colours as a sequence in row order: which tiles are free, what a move,
 * a spawn and a destruction do to the board, and how they change the number
 * of balls on it.
 */
module BoardRules {
  import opened Wrappers
  import opened Tiles
  import opened SeqUtil
  import opened Memory
  import opened BoardGeometry
  import opened ArrayRandom

  /** The number of free tiles on the board. */
  function FreeCount(b: seq<Color>): nat
  {
    multiset(b)[Empty]
  }

  /** `tiles.filter(tile => tile.type === EMPTY)`: the free tiles, in board order. */
  function EmptyTiles(b: seq<Color>): (e: seq<nat>)
    ensures forall t :: t in e <==> 0 <= t < |b| && b[t] == Empty
    ensures forall k :: 0 <= k < |e| ==> e[k] < |b|
    ensures Distinct(e)
  {
    if |b| == 0 then []
    else
      var front := EmptyTiles(b[..|b| - 1]);
      front + (if b[|b| - 1] == Empty then [|b| - 1] else [])
  }

  /** There are as many free-tile candidates as free tiles. */
  lemma {:induction false} EmptyTilesCount(b: seq<Color>)
    ensures |EmptyTiles(b)| == FreeCount(b)
  {
    if |b| > 0 {
      var front := b[..|b| - 1];
      EmptyTilesCount(front);
      assert b == front + [b[|b| - 1]];
      assert multiset(b) == multiset(front) + multiset{b[|b| - 1]};
    }
  }

  /** The spawn: tile chosen[k] gets colour colors[k], one after the other. */
  function Fill(b: seq<Color>, chosen: seq<nat>, colors: seq<Color>): (r: seq<Color>)
    requires |chosen| <= |colors|
    requires forall k :: 0 <= k < |chosen| ==> chosen[k] < |b|
    ensures |r| == |b|
  {
    if |chosen| == 0 then b
    else
      var m := |chosen| - 1;
      Fill(b, chosen[..m], colors)[chosen[m] := colors[m]]
  }

  /** With distinct chosen tiles, the k-th chosen tile ends with the k-th colour and no other tile changes. */
  lemma {:induction false} FillAt(b: seq<Color>, chosen: seq<nat>, colors: seq<Color>)
    requires |chosen| <= |colors| && Distinct(chosen)
    requires forall k :: 0 <= k < |chosen| ==> chosen[k] < |b|
    ensures forall k :: 0 <= k < |chosen| ==> Fill(b, chosen, colors)[chosen[k]] == colors[k]
    ensures forall i :: 0 <= i < |b| && i !in chosen ==> Fill(b, chosen, colors)[i] == b[i]
  {
    if |chosen| > 0 {
      var m := |chosen| - 1;
      assert Distinct(chosen[..m]) by {
        forall i, j | 0 <= i < j < m ensures chosen[..m][i] != chosen[..m][j] {
          assert chosen[..m][i] == chosen[i] && chosen[..m][j] == chosen[j];
        }
      }
      FillAt(b, chosen[..m], colors);
      forall i | 0 <= i < |b| && i !in chosen
        ensures Fill(b, chosen, colors)[i] == b[i]
      {
        assert i !in chosen[..m];
      }
      forall k | 0 <= k < m
        ensures Fill(b, chosen, colors)[chosen[k]] == colors[k]
      {
        assert chosen[k] != chosen[m];
        assert chosen[..m][k] == chosen[k];
      }
    }
  }

  /** Filling distinct free tiles with balls removes exactly that many free tiles. */
  lemma {:induction false} FillFreeCount(b: seq<Color>, chosen: seq<nat>, colors: seq<Color>)
    requires |chosen| <= |colors| && Distinct(chosen)
    requires forall k :: 0 <= k < |chosen| ==> chosen[k] < |b| && b[chosen[k]] == Empty
    requires forall k :: 0 <= k < |chosen| ==> colors[k] != Empty
    ensures FreeCount(Fill(b, chosen, colors)) == FreeCount(b) - |chosen|
  {
    if |chosen| > 0 {
      var m := |chosen| - 1;
      var front := chosen[..m];
      assert Distinct(front) by {
        forall i, j | 0 <= i < j < m ensures front[i] != front[j] {
          assert front[i] == chosen[i] && front[j] == chosen[j];
        }
      }
      FillFreeCount(b, front, colors);
      FillAt(b, front, colors);
      assert chosen[m] !in front;
      var before := Fill(b, front, colors);
      assert before[chosen[m]] == Empty;
    }
  }

  /** `takeTurn`'s spawn of balls onto three free tiles leaves three fewer free tiles. */
  lemma SpawnUsesThreeFreeTiles(b: seq<Color>, chosen: seq<nat>, colors: seq<Color>)
    requires |chosen| == 3 && |colors| == 3 && Distinct(chosen)
    requires forall k :: 0 <= k < 3 ==> chosen[k] < |b| && b[chosen[k]] == Empty
    requires forall k :: 0 <= k < 3 ==> colors[k] != Empty
    ensures |EmptyTiles(Fill(b, chosen, colors))| == |EmptyTiles(b)| - 3
  {
    FillFreeCount(b, chosen, colors);
    EmptyTilesCount(b);
    EmptyTilesCount(Fill(b, chosen, colors));
  }

  /** A move: the source tile is emptied and the target gets the source's colour. */
  function Moved(b: seq<Color>, from: nat, to: nat): (r: seq<Color>)
    requires from < |b| && to < |b|
    ensures |r| == |b|
  {
    b[from := Empty][to := b[from]]
  }

  /** Moving a ball onto a free tile keeps every colour's count, so the number of balls too. */
  lemma MoveKeepsBalls(b: seq<Color>, from: nat, to: nat)
    requires from < |b| && to < |b| && from != to && b[to] == Empty
    ensures multiset(Moved(b, from, to)) == multiset(b)
  {
    var mid := b[from := Empty];
    assert mid[to] == Empty;
    assert multiset(mid) == multiset(b) - multiset{b[from]} + multiset{Empty};
    assert multiset(mid[to := b[from]]) == multiset(mid) - multiset{Empty} + multiset{b[from]};
  }

  /** All tiles the direction results list, direction after direction (the nested forEach). */
  function Listed(data: seq<DirectionResult>): (ts: seq<nat>)
    ensures forall d, k :: 0 <= d < |data| && 0 <= k < |data[d].tiles| ==> data[d].tiles[k] in ts
    ensures forall t :: t in ts ==> exists d :: 0 <= d < |data| && t in data[d].tiles
  {
    if |data| == 0 then []
    else
      var front := data[..|data| - 1];
      assert forall d :: 0 <= d < |front| ==> front[d] == data[d];
      Listed(front) + data[|data| - 1].tiles
  }

  lemma ListedSnoc(data: seq<DirectionResult>, d: nat)
    requires d < |data|
    ensures Listed(data[..d + 1]) == Listed(data[..d]) + data[d].tiles
  {
    assert data[..d + 1][..d] == data[..d];
  }

  /** The board after a destruction: every listed tile is free, every other tile as before. */
  function Cleared(b: seq<Color>, listed: seq<nat>): (r: seq<Color>)
    ensures |r| == |b|
  {
    seq(|b|, i requires 0 <= i < |b| => if i in listed then Empty else b[i])
  }

  /** The listed tiles that held a ball, each counted once. */
  function BallsAmong(b: seq<Color>, listed: seq<nat>): set<nat>
  {
    set t | t in listed && t < |b| && b[t] != Empty
  }

  /**
   * When every listed tile holds a ball, as the matcher guarantees, the
   * destroyed balls are the distinct listed tiles.
   */
  lemma BallsAmongMatched(b: seq<Color>, listed: seq<nat>)
    requires forall t :: t in listed ==> t < |b| && b[t] != Empty
    ensures BallsAmong(b, listed) == set t | t in listed
  {
  }

  /** Destruction keeps the tiles that were free and frees exactly the listed balls. */
  lemma {:induction false} ClearedFreeCount(b: seq<Color>, listed: seq<nat>)
    ensures FreeCount(Cleared(b, listed)) == FreeCount(b) + |BallsAmong(b, listed)|
    decreases |b|
  {
    if |b| > 0 {
      var m := |b| - 1;
      var front := b[..m];
      ClearedFreeCount(front, listed);
      var c := Cleared(b, listed);
      assert Cleared(front, listed) == c[..m];
      assert c == c[..m] + [c[m]];
      assert b == front + [b[m]];
      assert multiset(c) == multiset(c[..m]) + multiset{c[m]};
      assert multiset(b) == multiset(front) + multiset{b[m]};
      if m in listed && b[m] != Empty {
        assert BallsAmong(b, listed) == BallsAmong(front, listed) + {m};
        assert m !in BallsAmong(front, listed);
      } else {
        assert BallsAmong(b, listed) == BallsAmong(front, listed);
      }
    }
  }

  /** Clearing one more listed tile frees that tile. */
  lemma ClearedSnoc(b: seq<Color>, listed: seq<nat>, t: nat)
    requires t < |b|
    ensures Cleared(b, listed + [t]) == Cleared(b, listed)[t := Empty]
  {
  }

  /** One more listed tile adds a destroyed ball exactly when it still holds one. */
  lemma BallsAmongSnoc(b: seq<Color>, listed: seq<nat>, t: nat)
    requires t < |b|
    ensures Cleared(b, listed)[t] != Empty ==>
      t !in BallsAmong(b, listed) && BallsAmong(b, listed + [t]) == BallsAmong(b, listed) + {t}
    ensures Cleared(b, listed)[t] == Empty ==> BallsAmong(b, listed + [t]) == BallsAmong(b, listed)
  {
  }

  /** On a board without balls every tile is a candidate. */
  lemma {:induction false} AllFree(b: seq<Color>)
    requires forall i :: 0 <= i < |b| ==> b[i] == Empty
    ensures |EmptyTiles(b)| == |b|
  {
    if |b| > 0 {
      AllFree(b[..|b| - 1]);
    }
  }

  /** What `takeTurn` did. */
  datatype TurnOutcome =
    | GameOver                  // three free tiles or fewer: `onGameOver` is called
    | Spawned(placed: seq<nat>) // these tiles received the preview colours
    | DrawsExhausted            // the supplied random values are used up inside `randomN`

  /**
   * The outcome and the new board of `takeTurn` on board b: game over with
   * three free tiles or fewer; otherwise the first three distinct free
   * tiles the draws pick receive the preview colours.
   */
  function Turn(b: seq<Color>, colors: seq<Color>, draws: seq<real>): (TurnOutcome, seq<Color>)
    requires |colors| == 3 && AllDraws(draws)
  {
    var free := EmptyTiles(b);
    if |free| <= 3 then (GameOver, b)
    else
      var picks := Dedup(Drawn(free, draws));
      if |picks| < 3 then (DrawsExhausted, b)
      else
        DedupMembers(Drawn(free, draws));
        DrawnMembers(free, draws);
        assert forall k :: 0 <= k < 3 ==> picks[k] in free;
        (Spawned(picks[..3]), Fill(b, picks[..3], colors))
  }

  /**
   * The meaning of a turn: it is over exactly when at most three tiles are
   * free, and then no tile changes; otherwise, unless the draws run out,
   * three distinct, previously free tiles receive the three preview colours
   * in order, no other tile changes, and (the preview holding balls) three
   * fewer tiles are free.
   */
  lemma TurnMeaning(b: seq<Color>, colors: seq<Color>, draws: seq<real>)
    requires |colors| == 3 && AllDraws(draws)
    ensures var (o, b') := Turn(b, colors, draws);
      && (o.GameOver? <==> |EmptyTiles(b)| <= 3)
      && (!o.Spawned? ==> b' == b)
      && (o.Spawned? ==>
        && |o.placed| == 3 && Distinct(o.placed) && |b'| == |b|
        && (forall k :: 0 <= k < 3 ==> o.placed[k] < |b| && b[o.placed[k]] == Empty && b'[o.placed[k]] == colors[k])
        && (forall i :: 0 <= i < |b| && i !in o.placed ==> b'[i] == b[i])
        && ((forall k :: 0 <= k < 3 ==> colors[k] != Empty) ==> |EmptyTiles(b')| == |EmptyTiles(b)| - 3))
  {
    var free := EmptyTiles(b);
    if |free| > 3 {
      var picks := Dedup(Drawn(free, draws));
      if |picks| >= 3 {
        DedupMembers(Drawn(free, draws));
        DrawnMembers(free, draws);
        var placed := picks[..3];
        assert Distinct(placed) by {
          forall i, j | 0 <= i < j < 3 ensures placed[i] != placed[j] {
            assert placed[i] == picks[i] && placed[j] == picks[j];
          }
        }
        assert forall k :: 0 <= k < 3 ==> placed[k] in free;
        FillAt(b, placed, colors);
        if forall k :: 0 <= k < 3 ==> colors[k] != Empty {
          SpawnUsesThreeFreeTiles(b, placed, colors);
        }
      }
    }
  }

  /** `tiles.filter(...)` in `isSurrounded`: the 4-neighbours of tile t, in board order. */
  function Surrounding(b: seq<Color>, w: nat, t: nat): (ns: seq<nat>)
    requires w > 0
    ensures forall j :: j in ns <==> 0 <= j < |b| && Adjacent(w, t, j)
  {
    if |b| == 0 then []
    else Surrounding(b[..|b| - 1], w, t) + (if Adjacent(w, t, |b| - 1) then [|b| - 1] else [])
  }

  /** `isSurrounded`: every 4-neighbour of tile t holds a ball. */
  predicate IsSurrounded(b: seq<Color>, w: nat, t: nat)
    requires w > 0
  {
    forall j :: j in Surrounding(b, w, t) ==> b[j] != Empty
  }

  /** The second tile of a walk that leaves tile t is a free 4-neighbour of t. */
  lemma WalkLeavesThroughNeighbour(b: seq<Color>, w: nat, walk: seq<int>, t: nat, e: int)
    requires w > 0 && IsEmptyWalk(b, w, walk, t, e) && t != e
    ensures walk[1] in Surrounding(b, w, t) && b[walk[1]] == Empty
  {
  }

  /** A ball is surrounded exactly when there is no tile it can be moved to. */
  lemma SurroundedIffStuck(b: seq<Color>, w: nat, t: nat)
    requires w > 0 && t < |b|
    ensures IsSurrounded(b, w, t) <==> forall e :: 0 <= e < |b| ==> !CanMove(b, w, t, e)
  {
    if IsSurrounded(b, w, t) {
      forall e | 0 <= e < |b|
        ensures !CanMove(b, w, t, e)
      {
        if CanMove(b, w, t, e) {
          var walk :| IsEmptyWalk(b, w, walk, t, e);
          WalkLeavesThroughNeighbour(b, w, walk, t, e);
        }
      }
    } else {
      var j :| j in Surrounding(b, w, t) && b[j] == Empty;
      assert IsEmptyWalk(b, w, [t, j], t, j);
      assert CanMove(b, w, t, j);
    }
  }

  /** `getRandomColor`: `random` over the colours other than EMPTY. */
  function RandomColor(r: real): (c: Color)
    requires IsDraw(r)
    ensures c != Empty
  {
    Random(Palette, r).value
  }

  /** Every ball colour is drawn for some value of `Math.random()`. */
  lemma EveryColourDrawable(c: Color)
    requires c != Empty
    ensures exists r :: IsDraw(r) && RandomColor(r) == c
  {
    var k := match c
      case Red => 0 case Orange => 1 case Yellow => 2 case Green => 3
      case Blue => 4 case Purple => 5 case White => 6 case Empty => 0;
    assert Palette[k] == c;
    var r := k as real / 7.0;
    assert (r * 7.0).Floor == k;
    assert RandomColor(r) == c;
  }

  /** The part of the game a click can change: the tiles, the selected tile and the lock. */
  datatype ClickState = ClickState(board: seq<Color>, selected: Option<nat>, locked: bool)

  /** The selected tile, if any, is a tile of the board. */
  predicate SelectionOnBoard(st: ClickState)
  {
    st.selected.Some? ==> st.selected.value < |st.board|
  }

  /**
   * `handleBoardClick` on tile target (None: the click hit no tile). While
   * locked nothing changes. A click on a free tile moves the selected ball
   * there when it can reach it, clears the selection and locks the board.
   * A click on a ball that is not surrounded selects it, or deselects it
   * when it was the selected one.
   */
  ghost function Click(st: ClickState, w: nat, target: Option<nat>): ClickState
    requires w > 0 && SelectionOnBoard(st)
    requires target.Some? ==> target.value < |st.board|
  {
    if st.locked || target.None? then st
    else
      var t := target.value;
      if st.board[t] == Empty then
        if st.selected.Some? && CanMove(st.board, w, st.selected.value, t)
        then ClickState(Moved(st.board, st.selected.value, t), None, true)
        else st
      else if IsSurrounded(st.board, w, t) then st
      else if st.selected == Some(t) then st.(selected := None)
      else st.(selected := Some(t))
  }

  /** A selected tile holds a ball. */
  predicate SelectionHoldsBall(st: ClickState)
  {
    st.selected.Some? ==> st.selected.value < |st.board| && st.board[st.selected.value] != Empty
  }

  /**
   * Clicks that change nothing: any click while locked, and a click on a
   * surrounded ball; clicking the selected ball again, while it is not
   * surrounded, only deselects it.
   */
  lemma ClickIgnored(st: ClickState, w: nat, target: Option<nat>)
    requires w > 0 && SelectionOnBoard(st)
    requires target.Some? ==> target.value < |st.board|
    ensures st.locked ==> Click(st, w, target) == st
    ensures target.Some? && st.board[target.value] != Empty && IsSurrounded(st.board, w, target.value) ==>
      Click(st, w, target) == st
    ensures !st.locked && target.Some? && st.board[target.value] != Empty && st.selected == target
      && !IsSurrounded(st.board, w, target.value)
      ==> Click(st, w, target) == st.(selected := None)
  {
  }

  /**
   * The board changes only by a move of the selected ball to the clicked
   * tile it can reach; the move keeps every colour's count, so the number
   * of balls too, locks the board and clears the selection.
   */
  lemma ClickMoves(st: ClickState, w: nat, target: Option<nat>)
    requires w > 0 && SelectionOnBoard(st)
    requires target.Some? ==> target.value < |st.board|
    ensures var st' := Click(st, w, target);
      st'.board != st.board ==>
        && st.selected.Some? && target.Some?
        && CanMove(st.board, w, st.selected.value, target.value)
        && st'.board == Moved(st.board, st.selected.value, target.value)
        && multiset(st'.board) == multiset(st.board)
        && st'.selected.None? && st'.locked
    ensures !st.locked && target.Some? && st.board[target.value] == Empty
      && st.selected.Some? && CanMove(st.board, w, st.selected.value, target.value)
      ==> Click(st, w, target) == ClickState(Moved(st.board, st.selected.value, target.value), None, true)
  {
    var st' := Click(st, w, target);
    if st'.board != st.board {
      MoveKeepsBalls(st.board, st.selected.value, target.value);
    }
  }

  /** After a click the selection is still on the board, and a selected tile still holds a ball. */
  lemma ClickKeepsSelection(st: ClickState, w: nat, target: Option<nat>)
    requires w > 0 && SelectionOnBoard(st)
    requires target.Some? ==> target.value < |st.board|
    ensures SelectionOnBoard(Click(st, w, target)) && |Click(st, w, target).board| == |st.board|
    ensures SelectionHoldsBall(st) ==> SelectionHoldsBall(Click(st, w, target))
  {
  }
}
