/**
 * What the line matcher of `checkNInRow` (src/GameBoard.ts) finds on one
 * scan line and on one direction of the board, stated without the
 * automaton: a tile is reported exactly when it lies in a maximal run of at
 * least n equal, non-empty colours. The lemmas `ScanStep` and `ScanEnd`
 * show that the run memory driven by `CheckNInRowEvaluate` computes it.
 */
module LineScan {
  import opened Tiles
  import opened Memory
  import opened SeqUtil

  /** The colour of tile t; a position off the board counts as empty. */
  function ColorAt(b: seq<Color>, t: nat): Color
  {
    if t < |b| then b[t] else Empty
  }

  /** The colours along a scan line. */
  function LineColors(b: seq<Color>, line: seq<nat>): (cs: seq<Color>)
    ensures |cs| == |line|
    ensures forall k :: 0 <= k < |line| ==> cs[k] == ColorAt(b, line[k])
  {
    seq(|line|, k requires 0 <= k < |line| => ColorAt(b, line[k]))
  }

  /** Every tile of the line is below size. */
  predicate TilesBelow(line: seq<nat>, size: nat)
  {
    forall k :: 0 <= k < |line| ==> line[k] < size
  }

  /** cs are the colours of the tiles of the line on board b. */
  predicate ColorsOf(cs: seq<Color>, b: seq<Color>, line: seq<nat>)
    requires TilesBelow(line, |b|)
  {
    |cs| == |line| && forall k :: 0 <= k < |line| ==> cs[k] == b[line[k]]
  }

  lemma LineColorsOf(b: seq<Color>, line: seq<nat>)
    requires TilesBelow(line, |b|)
    ensures ColorsOf(LineColors(b, line), b, line)
  {
  }

  /** [lo, hi) is a maximal block of one colour in cs. */
  predicate MaximalRun(cs: seq<Color>, lo: nat, hi: nat)
  {
    && lo < hi <= |cs|
    && (forall j :: lo <= j < hi ==> cs[j] == cs[lo])
    && (lo == 0 || cs[lo - 1] != cs[lo])
    && (hi == |cs| || cs[hi] != cs[lo])
  }

  /** First position of the block of equal colours that contains position k. */
  function RunStart(cs: seq<Color>, k: nat): (r: nat)
    requires k < |cs|
    ensures r <= k
    ensures forall j :: r <= j <= k ==> cs[j] == cs[k]
    ensures r == 0 || cs[r - 1] != cs[k]
  {
    if k > 0 && cs[k - 1] == cs[k] then RunStart(cs, k - 1) else k
  }

  /** One past the last position of the block of equal colours that contains position k. */
  function RunEnd(cs: seq<Color>, k: nat): (e: nat)
    requires k < |cs|
    ensures k < e <= |cs|
    ensures forall j :: k <= j < e ==> cs[j] == cs[k]
    ensures e == |cs| || cs[e] != cs[k]
    decreases |cs| - k
  {
    if k + 1 < |cs| && cs[k + 1] == cs[k] then RunEnd(cs, k + 1) else k + 1
  }

  /** The block around position k is exactly the maximal run that contains it. */
  lemma RunBounds(cs: seq<Color>, lo: nat, hi: nat, k: nat)
    requires MaximalRun(cs, lo, hi) && lo <= k < hi
    ensures RunStart(cs, k) == lo && RunEnd(cs, k) == hi
  {
  }

  /** Position k lies in a run of at least n balls of one colour. */
  predicate InLongRun(cs: seq<Color>, n: int, k: nat)
    requires k < |cs|
  {
    cs[k] != Empty && RunEnd(cs, k) - RunStart(cs, k) >= n
  }

  /** `InLongRun` says what it should: some maximal run of a ball colour, n long or more, covers k. */
  lemma InLongRunIsMaximalRun(cs: seq<Color>, n: int, k: nat)
    requires k < |cs|
    ensures InLongRun(cs, n, k) <==>
      cs[k] != Empty && exists lo: nat, hi: nat :: lo <= k < hi && MaximalRun(cs, lo, hi) && hi - lo >= n
  {
    var lo, hi := RunStart(cs, k), RunEnd(cs, k);
    assert MaximalRun(cs, lo, hi);
    if cs[k] != Empty && exists lo': nat, hi': nat :: lo' <= k < hi' && MaximalRun(cs, lo', hi') && hi' - lo' >= n {
      var lo': nat, hi': nat :| lo' <= k < hi' && MaximalRun(cs, lo', hi') && hi' - lo' >= n;
      RunBounds(cs, lo', hi', k);
    }
  }

  /** The tiles at positions below hi that lie in long runs, in line order. */
  function Filtered(line: seq<nat>, cs: seq<Color>, n: int, hi: nat): seq<nat>
    requires |cs| == |line| && hi <= |line|
  {
    if hi == 0 then []
    else Filtered(line, cs, n, hi - 1) + (if InLongRun(cs, n, hi - 1) then [line[hi - 1]] else [])
  }

  /** A tile is kept exactly when it sits at a position below hi that lies in a long run. */
  lemma {:induction false} FilteredMembers(line: seq<nat>, cs: seq<Color>, n: int, hi: nat)
    requires |cs| == |line| && hi <= |line|
    ensures forall t :: t in Filtered(line, cs, n, hi) <==>
      exists k :: 0 <= k < hi && line[k] == t && InLongRun(cs, n, k)
  {
    if hi > 0 {
      FilteredMembers(line, cs, n, hi - 1);
    }
  }

  /** Positions of a whole maximal run are accepted together, or not at all. */
  lemma FilteredBlock(line: seq<nat>, cs: seq<Color>, n: int, lo: nat, hi: nat, m: nat)
    requires |cs| == |line| && MaximalRun(cs, lo, hi) && lo <= m <= hi
    ensures Filtered(line, cs, n, m) ==
      Filtered(line, cs, n, lo) + (if cs[lo] != Empty && hi - lo >= n then line[lo..m] else [])
  {
    if cs[lo] != Empty && hi - lo >= n {
      FilteredLongBlock(line, cs, n, lo, hi, m);
    } else {
      FilteredShortBlock(line, cs, n, lo, hi, m);
      assert Filtered(line, cs, n, lo) + [] == Filtered(line, cs, n, lo);
    }
  }

  lemma {:induction false} FilteredLongBlock(line: seq<nat>, cs: seq<Color>, n: int, lo: nat, hi: nat, m: nat)
    requires |cs| == |line| && MaximalRun(cs, lo, hi) && lo <= m <= hi
    requires cs[lo] != Empty && hi - lo >= n
    ensures Filtered(line, cs, n, m) == Filtered(line, cs, n, lo) + line[lo..m]
    decreases m - lo
  {
    if m > lo {
      FilteredLongBlock(line, cs, n, lo, hi, m - 1);
      LongRunMember(cs, n, lo, hi, m - 1);
      FilteredKeeps(line, cs, n, m);
      SnocSlice(line, lo, m);
      AppendAssoc(Filtered(line, cs, n, lo), line[lo..m - 1], [line[m - 1]]);
    }
  }

  /** A position in a long run adds its tile to the filtered list. */
  lemma FilteredKeeps(line: seq<nat>, cs: seq<Color>, n: int, hi: nat)
    requires |cs| == |line| && 0 < hi <= |line| && InLongRun(cs, n, hi - 1)
    ensures Filtered(line, cs, n, hi) == Filtered(line, cs, n, hi - 1) + [line[hi - 1]]
  {
  }

  /** Every position of a maximal run of a ball colour, n long or more, is in a long run. */
  lemma LongRunMember(cs: seq<Color>, n: int, lo: nat, hi: nat, k: nat)
    requires MaximalRun(cs, lo, hi) && cs[lo] != Empty && hi - lo >= n && lo <= k < hi
    ensures InLongRun(cs, n, k)
  {
    RunBounds(cs, lo, hi, k);
  }

  lemma {:induction false} FilteredShortBlock(line: seq<nat>, cs: seq<Color>, n: int, lo: nat, hi: nat, m: nat)
    requires |cs| == |line| && MaximalRun(cs, lo, hi) && lo <= m <= hi
    requires !(cs[lo] != Empty && hi - lo >= n)
    ensures Filtered(line, cs, n, m) == Filtered(line, cs, n, lo)
    decreases m - lo
  {
    if m > lo {
      FilteredShortBlock(line, cs, n, lo, hi, m - 1);
      RunBounds(cs, lo, hi, m - 1);
      assert !InLongRun(cs, n, m - 1);
      assert Filtered(line, cs, n, m) == Filtered(line, cs, n, m - 1) + [];
    }
  }

  /** Filtering a duplicate-free line gives a duplicate-free list. */
  lemma {:induction false} FilteredDistinct(line: seq<nat>, cs: seq<Color>, n: int, hi: nat)
    requires |cs| == |line| && hi <= |line| && Distinct(line)
    ensures Distinct(Filtered(line, cs, n, hi))
  {
    if hi > 0 {
      FilteredDistinct(line, cs, n, hi - 1);
      FilteredMembers(line, cs, n, hi - 1);
      if InLongRun(cs, n, hi - 1) {
        DistinctAppend(Filtered(line, cs, n, hi - 1), [line[hi - 1]]);
      }
    }
  }

  /** The tiles of one scan line that a scan reports. */
  function LineAccepted(b: seq<Color>, line: seq<nat>, n: int): seq<nat>
  {
    Filtered(line, LineColors(b, line), n, |line|)
  }

  /**
   * The tiles one direction reports: the accepted tiles of its scan lines,
   * line after line. A tile is listed exactly when it lies in a long run of
   * one of the lines, and such a tile always holds a ball.
   */
  function DirectionAccepted(b: seq<Color>, lines: seq<seq<nat>>, n: int): seq<nat>
  {
    if |lines| == 0 then []
    else
      var front := lines[..|lines| - 1];
      assert forall j :: 0 <= j < |front| ==> front[j] == lines[j];
      DirectionAccepted(b, front, n) + LineAccepted(b, lines[|lines| - 1], n)
  }

  /**
   * A tile is listed for a direction exactly when it lies in a long run of
   * one of the direction's lines; such a tile always holds a ball.
   */
  lemma {:induction false} DirectionMembers(b: seq<Color>, lines: seq<seq<nat>>, n: int)
    ensures forall t :: t in DirectionAccepted(b, lines, n) <==>
      exists j, k :: 0 <= j < |lines| && 0 <= k < |lines[j]| && lines[j][k] == t &&
        InLongRun(LineColors(b, lines[j]), n, k)
    ensures forall t :: t in DirectionAccepted(b, lines, n) ==> t < |b| && b[t] != Empty
  {
    if |lines| > 0 {
      var m := |lines| - 1;
      var front := lines[..m];
      assert forall j :: 0 <= j < |front| ==> front[j] == lines[j];
      DirectionMembers(b, front, n);
      FilteredMembers(lines[m], LineColors(b, lines[m]), n, |lines[m]|);
      forall t | t in DirectionAccepted(b, lines, n)
        ensures t < |b| && b[t] != Empty
      {
        if t !in DirectionAccepted(b, front, n) {
          var k :| 0 <= k < |lines[m]| && lines[m][k] == t && InLongRun(LineColors(b, lines[m]), n, k);
        }
      }
    }
  }

  lemma DirectionAcceptedSnoc(b: seq<Color>, lines: seq<seq<nat>>, n: int, j: nat)
    requires j < |lines|
    ensures DirectionAccepted(b, lines[..j + 1], n) ==
      DirectionAccepted(b, lines[..j], n) + LineAccepted(b, lines[j], n)
  {
    assert lines[..j + 1][..j] == lines[..j];
  }

  /** The tiles collected after the first j lines of a direction. */
  function Collected(b: seq<Color>, lines: seq<seq<nat>>, n: int, j: nat): seq<nat>
    requires j <= |lines|
  {
    if j == 0 then [] else Collected(b, lines, n, j - 1) + LineAccepted(b, lines[j - 1], n)
  }

  /** After all its lines, a direction has collected exactly what it reports. */
  lemma {:induction false} CollectedAll(b: seq<Color>, lines: seq<seq<nat>>, n: int, j: nat)
    requires j <= |lines|
    ensures Collected(b, lines, n, j) == DirectionAccepted(b, lines[..j], n)
  {
    if j > 0 {
      CollectedAll(b, lines, n, j - 1);
      DirectionAcceptedSnoc(b, lines, n, j - 1);
    }
  }

  /** Collecting every line of a direction gives the direction's tiles. */
  lemma CollectedWhole(b: seq<Color>, lines: seq<seq<nat>>, n: int)
    ensures Collected(b, lines, n, |lines|) == DirectionAccepted(b, lines, n)
  {
    CollectedAll(b, lines, n, |lines|);
    assert lines[..|lines|] == lines;
  }

  /** No tile occurs twice among all the lines of a direction. */
  ghost predicate TilesUnique(lines: seq<seq<nat>>)
  {
    forall j1, k1, j2, k2 ::
      (0 <= j1 < |lines| && 0 <= k1 < |lines[j1]| && 0 <= j2 < |lines| && 0 <= k2 < |lines[j2]| &&
       lines[j1][k1] == lines[j2][k2]) ==> j1 == j2 && k1 == k2
  }

  /** When the lines of a direction share no tile, the direction lists no tile twice. */
  lemma {:induction false} DirectionDistinct(b: seq<Color>, lines: seq<seq<nat>>, n: int)
    requires TilesUnique(lines)
    ensures Distinct(DirectionAccepted(b, lines, n))
  {
    if |lines| > 0 {
      var m := |lines| - 1;
      var front := lines[..m];
      var last := lines[m];
      assert forall j :: 0 <= j < |front| ==> front[j] == lines[j];
      DirectionDistinct(b, front, n);
      assert Distinct(last) by {
        forall i, j | 0 <= i < j < |last|
          ensures last[i] != last[j]
        {
          assert lines[m][i] == last[i] && lines[m][j] == last[j];
        }
      }
      FilteredDistinct(last, LineColors(b, last), n, |last|);
      DirectionMembers(b, front, n);
      FilteredMembers(last, LineColors(b, last), n, |last|);
      forall t | t in DirectionAccepted(b, front, n)
        ensures t !in LineAccepted(b, last, n)
      {
        var j, k :| 0 <= j < |front| && 0 <= k < |front[j]| && front[j][k] == t &&
          InLongRun(LineColors(b, front[j]), n, k);
        forall k' | 0 <= k' < |last|
          ensures last[k'] != t
        {
          assert lines[j][k] == t && lines[m][k'] == last[k'];
        }
      }
      DistinctAppend(DirectionAccepted(b, front, n), LineAccepted(b, last, n));
    }
  }

  /**
   * The scan invariant after the first i tiles of a line, starting from
   * collected tiles `base`: outside a run the memory holds no run and has
   * collected every accepted tile before i; inside a run it holds the run so
   * far and has collected every accepted tile before the run.
   */
  ghost predicate ScanInv(line: seq<nat>, cs: seq<Color>, n: int, base: seq<nat>, i: nat, st: MemoryState)
    requires |cs| == |line| && i <= |line|
  {
    if i == 0 || cs[i - 1] == Empty then
      st.curType == Empty && st.curTiles == [] && st.toReturn == base + Filtered(line, cs, n, i)
    else
      var s := RunStart(cs, i - 1);
      st.curType == cs[i - 1] && st.curTiles == line[s..i] &&
      st.toReturn == base + Filtered(line, cs, n, s)
  }

  /** After `reset()` the invariant holds at the start of the line. */
  lemma ScanInit(line: seq<nat>, cs: seq<Color>, n: int, st: MemoryState)
    requires |cs| == |line|
    ensures ScanInv(line, cs, n, st.toReturn, 0, ResetState(st))
  {
    assert st.toReturn + [] == st.toReturn;
  }

  /** `CheckNInRowEvaluate` on the next tile of the line keeps the invariant. */
  lemma ScanStep(line: seq<nat>, cs: seq<Color>, n: int, base: seq<nat>, i: nat, st: MemoryState)
    requires |cs| == |line| && i < |line| && ScanInv(line, cs, n, base, i, st)
    ensures ScanInv(line, cs, n, base, i + 1, EvaluateStep(st, line[i], cs[i], n))
  {
    if i == 0 || cs[i - 1] == Empty {
      ScanStepOutsideRun(line, cs, n, base, i, st);
    } else if cs[i] == cs[i - 1] {
      ScanStepExtend(line, cs, n, base, i, st);
    } else {
      ScanStepBreak(line, cs, n, base, i, st);
    }
  }

  /** Outside a run, an empty tile changes nothing and a ball starts a run of one. */
  lemma ScanStepOutsideRun(line: seq<nat>, cs: seq<Color>, n: int, base: seq<nat>, i: nat, st: MemoryState)
    requires |cs| == |line| && i < |line| && ScanInv(line, cs, n, base, i, st)
    requires i == 0 || cs[i - 1] == Empty
    ensures ScanInv(line, cs, n, base, i + 1, EvaluateStep(st, line[i], cs[i], n))
  {
    assert st.toReturn + [] == st.toReturn;
    if cs[i] == Empty {
      assert !InLongRun(cs, n, i);
      assert Filtered(line, cs, n, i + 1) == Filtered(line, cs, n, i) + [];
    } else {
      assert RunStart(cs, i) == i;
      assert line[i..i + 1] == [line[i]];
    }
  }

  /** A ball of the current colour extends the run. */
  lemma ScanStepExtend(line: seq<nat>, cs: seq<Color>, n: int, base: seq<nat>, i: nat, st: MemoryState)
    requires |cs| == |line| && 0 < i < |line| && ScanInv(line, cs, n, base, i, st)
    requires cs[i - 1] != Empty && cs[i] == cs[i - 1]
    ensures ScanInv(line, cs, n, base, i + 1, EvaluateStep(st, line[i], cs[i], n))
  {
    var s := RunStart(cs, i - 1);
    assert RunStart(cs, i) == s;
    SnocSlice(line, s, i + 1);
  }

  /** A tile of another colour ends the run: it is carried if long enough, and a new run may start. */
  lemma ScanStepBreak(line: seq<nat>, cs: seq<Color>, n: int, base: seq<nat>, i: nat, st: MemoryState)
    requires |cs| == |line| && 0 < i < |line| && ScanInv(line, cs, n, base, i, st)
    requires cs[i - 1] != Empty && cs[i] != cs[i - 1]
    ensures ScanInv(line, cs, n, base, i + 1, EvaluateStep(st, line[i], cs[i], n))
  {
    var s := RunStart(cs, i - 1);
    assert MaximalRun(cs, s, i);
    RunCarried(line, cs, n, base, s, i, st);
    if cs[i] == Empty {
      assert !InLongRun(cs, n, i);
      assert Filtered(line, cs, n, i + 1) == Filtered(line, cs, n, i) + [];
    } else {
      assert RunStart(cs, i) == i;
      assert line[i..i + 1] == [line[i]];
    }
  }

  /** Carrying a finished maximal run [s, i) collects exactly the accepted tiles before i. */
  lemma RunCarried(line: seq<nat>, cs: seq<Color>, n: int, base: seq<nat>, s: nat, i: nat, st: MemoryState)
    requires |cs| == |line| && MaximalRun(cs, s, i) && cs[s] != Empty
    requires st.curTiles == line[s..i] && st.toReturn == base + Filtered(line, cs, n, s)
    ensures CarryState(st, n).toReturn == base + Filtered(line, cs, n, i)
  {
    FilteredBlock(line, cs, n, s, i, i);
    AppendAssoc(base, Filtered(line, cs, n, s), line[s..i]);
    assert Filtered(line, cs, n, s) + [] == Filtered(line, cs, n, s);
  }

  /** The final `carry()` of the line completes it: everything accepted on the line is collected. */
  lemma ScanEnd(line: seq<nat>, cs: seq<Color>, n: int, base: seq<nat>, st: MemoryState)
    requires |cs| == |line| && ScanInv(line, cs, n, base, |line|, st)
    ensures CarryState(st, n).toReturn == base + Filtered(line, cs, n, |line|)
  {
    var i := |line|;
    if i == 0 || cs[i - 1] == Empty {
      assert st.toReturn + [] == st.toReturn;
    } else {
      var s := RunStart(cs, i - 1);
      assert MaximalRun(cs, s, i);
      RunCarried(line, cs, n, base, s, i, st);
    }
  }

  /**
   * The memory after `CheckNInRowEvaluate` has visited the first i tiles of
   * the line, whose colours are cs, starting from st.
   */
  function ScanFold(st: MemoryState, line: seq<nat>, cs: seq<Color>, n: int, i: nat): MemoryState
    requires |cs| == |line| && i <= |line|
  {
    if i == 0 then st else EvaluateStep(ScanFold(st, line, cs, n, i - 1), line[i - 1], cs[i - 1], n)
  }

  /** After `reset()` and i visits the memory satisfies the scan invariant. */
  lemma {:induction false} ScanFoldInv(line: seq<nat>, cs: seq<Color>, n: int, st: MemoryState, i: nat)
    requires |cs| == |line| && i <= |line|
    ensures ScanInv(line, cs, n, st.toReturn, i, ScanFold(ResetState(st), line, cs, n, i))
  {
    if i == 0 {
      ScanInit(line, cs, n, st);
    } else {
      ScanFoldInv(line, cs, n, st, i - 1);
      ScanStep(line, cs, n, st.toReturn, i - 1, ScanFold(ResetState(st), line, cs, n, i - 1));
    }
  }

  /**
   * One scan line from start to end, `reset()`, the visits, `carry()`:
   * it appends exactly the line's accepted tiles to the collected ones.
   */
  lemma ScanWholeLine(line: seq<nat>, cs: seq<Color>, n: int, st: MemoryState)
    requires |cs| == |line|
    ensures CarryState(ScanFold(ResetState(st), line, cs, n, |line|), n).toReturn == st.toReturn + Filtered(line, cs, n, |line|)
  {
    ScanFoldInv(line, cs, n, st, |line|);
    ScanEnd(line, cs, n, st.toReturn, ScanFold(ResetState(st), line, cs, n, |line|));
  }

  /** With n = 1 every ball on the line is reported. */
  lemma SingleBallRuns(b: seq<Color>, line: seq<nat>)
    ensures forall t :: t in LineAccepted(b, line, 1) <==> t in line && t < |b| && b[t] != Empty
  {
    var cs := LineColors(b, line);
    FilteredMembers(line, cs, 1, |line|);
    forall t | t in line && t < |b| && b[t] != Empty
      ensures t in LineAccepted(b, line, 1)
    {
      var k :| 0 <= k < |line| && line[k] == t;
      assert InLongRun(cs, 1, k);
    }
  }

  /** A row holding five reds, a gap and two blues reports the five reds at n = 5 and nothing at n = 6. */
  lemma FiveRedsExample()
    ensures LineAccepted([Red, Red, Red, Red, Red, Empty, Blue, Blue], [0, 1, 2, 3, 4, 5, 6, 7], 5) == [0, 1, 2, 3, 4]
    ensures LineAccepted([Red, Red, Red, Red, Red, Empty, Blue, Blue], [0, 1, 2, 3, 4, 5, 6, 7], 6) == []
  {
    FiveRedsColours();
    FiveRedsAt(5);
    FiveRedsAt(6);
  }

  lemma FiveRedsColours()
    ensures var b := [Red, Red, Red, Red, Red, Empty, Blue, Blue];
      LineColors(b, [0, 1, 2, 3, 4, 5, 6, 7]) == b
  {
  }

  lemma FiveRedsAt(n: int)
    requires n == 5 || n == 6
    ensures Filtered([0, 1, 2, 3, 4, 5, 6, 7], [Red, Red, Red, Red, Red, Empty, Blue, Blue], n, 8) ==
      if n == 5 then [0, 1, 2, 3, 4] else []
  {
    var cs := [Red, Red, Red, Red, Red, Empty, Blue, Blue];
    var line: seq<nat> := [0, 1, 2, 3, 4, 5, 6, 7];
    assert MaximalRun(cs, 0, 5) && MaximalRun(cs, 5, 6) && MaximalRun(cs, 6, 8);
    FilteredBlock(line, cs, n, 6, 8, 8);
    FilteredBlock(line, cs, n, 5, 6, 6);
    FilteredBlock(line, cs, n, 0, 5, 5);
    assert line[0..5] == [0, 1, 2, 3, 4];
  }
}
