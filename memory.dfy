/**
 * The run accumulator of src/Memory.ts, as built by the object literal in
 * `checkNInRow` (src/GameBoard.ts): while one direction of the board is
 * scanned it remembers the colour and tiles of the current run and collects
 * the tiles of every run that was long enough.
 */
module Memory {
  import opened Tiles

  /** `CheckNInARowMemoryResponse`: whether a direction matched, and its tiles. */
  datatype DirectionResult = DirectionResult(status: bool, tiles: seq<nat>)

  /** The three mutable parts of the memory, as one value. */
  datatype MemoryState = MemoryState(curType: Color, curTiles: seq<nat>, toReturn: seq<nat>)

  /** The state `carry()` leaves: the current run is appended when it has at least n tiles. */
  function CarryState(st: MemoryState, n: int): (r: MemoryState)
    ensures r.curType == st.curType && r.curTiles == st.curTiles
    ensures |st.curTiles| >= n ==> r.toReturn == st.toReturn + st.curTiles
    ensures |st.curTiles| < n ==> r.toReturn == st.toReturn
  {
    if |st.curTiles| >= n then st.(toReturn := st.toReturn + st.curTiles) else st
  }

  /** The state `reset()` leaves: no current colour, no current run. */
  function ResetState(st: MemoryState): (r: MemoryState)
    ensures r.curType == Empty && r.curTiles == [] && r.toReturn == st.toReturn
  {
    st.(curType := Empty, curTiles := [])
  }

  /**
   * `CheckNInRowEvaluate` on a tile of colour c: an empty tile ends the run
   * (carry, then reset); a ball of the current colour extends it; a ball of
   * another colour ends it and starts a new run with this tile.
   */
  function EvaluateStep(st: MemoryState, tile: nat, c: Color, n: int): MemoryState
  {
    if c == Empty then ResetState(CarryState(st, n))
    else if c == st.curType then st.(curTiles := st.curTiles + [tile])
    else CarryState(st.(curType := c), n).(curTiles := [tile])
  }

  /** The runs carried so far, one after the other. */
  function Flatten(runs: seq<seq<nat>>): (r: seq<nat>)
    ensures |runs| == 0 ==> r == []
  {
    if |runs| == 0 then [] else Flatten(runs[..|runs| - 1]) + runs[|runs| - 1]
  }

  lemma FlattenSnoc(runs: seq<seq<nat>>, run: seq<nat>)
    ensures Flatten(runs + [run]) == Flatten(runs) + run
  {
    assert (runs + [run])[..|runs|] == runs;
  }

  /** `ICheckNInARowMemory`. */
  class CheckNInARowMemory {
    /** Minimum run length that counts. */
    const n: int
    var toReturn: seq<nat>
    var curType: Color
    var curTiles: seq<nat>
    /** The runs appended to `toReturn` since the last hard reset, in scan order. */
    ghost var runs: seq<seq<nat>>

    /** `toReturn` is exactly the carried runs, each of at least n tiles. */
    ghost predicate Valid()
      reads this
    {
      && toReturn == Flatten(runs)
      && forall k :: 0 <= k < |runs| ==> |runs[k]| >= n
    }

    function State(): (st: MemoryState)
      reads this
      ensures st.curType == curType && st.curTiles == curTiles && st.toReturn == toReturn
    {
      MemoryState(curType, curTiles, toReturn)
    }

    constructor(n: int)
      ensures this.n == n && Valid()
      ensures toReturn == [] && curType == Empty && curTiles == [] && runs == []
    {
      this.n := n;
      toReturn := [];
      curType := Empty;
      curTiles := [];
      runs := [];
    }

    /** `reset`: forget the current run; the collected tiles stay. */
    method Reset()
      modifies this`curType, this`curTiles
      ensures State() == ResetState(old(State()))
      ensures old(Valid()) ==> Valid()
    {
      curType := Empty;
      curTiles := [];
    }

    /** `hardReset`: forget the current run and the collected tiles. */
    method HardReset()
      modifies this
      ensures Valid() && runs == []
      ensures State() == MemoryState(Empty, [], [])
    {
      toReturn := [];
      runs := [];
      Reset();
    }

    /** `result`: the collected tiles, with status true exactly when there are some. */
    function Result(): (r: DirectionResult)
      reads this
      ensures r.status <==> |toReturn| > 0
      ensures r.tiles == toReturn
    {
      DirectionResult(|toReturn| != 0, toReturn)
    }

    /**
     * `carry`: a current run of at least n tiles is appended to the
     * collected tiles; the current run itself is kept.
     */
    method Carry()
      requires Valid()
      modifies this`toReturn, this`runs
      ensures Valid()
      ensures State() == CarryState(old(State()), n)
      ensures runs == if |curTiles| >= n then old(runs) + [curTiles] else old(runs)
    {
      if |curTiles| >= n {
        FlattenSnoc(runs, curTiles);
        toReturn := toReturn + curTiles;
        runs := runs + [curTiles];
      }
    }
  }
}
