/**
 * The score of a destruction, `CalculateScore` in src/GameBoard.ts, and the
 * combo multiplier update of `increaseCombo`, with exact reals in place of
 * JavaScript numbers.
 */
module Score {
  import opened Memory

  /** `1 + Math.floor((length - n) / 2) * 0.5`: half a point more for every two balls beyond n. */
  function LengthBonus(length: int, n: int): real
  {
    1.0 + ((length - n) / 2) as real * 0.5
  }

  /** One matched direction's share of the score: its length times its bonus. */
  function Component(length: int, n: int): real
  {
    length as real * LengthBonus(length, n)
  }

  /** The score components of the matched directions, in order. */
  function Components(data: seq<DirectionResult>, n: int): (cs: seq<real>)
    ensures |cs| == DirCount(data)
  {
    if |data| == 0 then []
    else
      Components(data[..|data| - 1], n) + Share(data[|data| - 1], n)
  }

  /** A direction's entry among the components: its component if it matched, nothing otherwise. */
  function Share(r: DirectionResult, n: int): seq<real>
  {
    if r.status then [Component(|r.tiles|, n)] else []
  }

  /** Whether a direction counts towards `dirCount`. */
  function Counted(r: DirectionResult): nat
  {
    if r.status then 1 else 0
  }

  /** How many directions matched (`dirCount`). */
  function DirCount(data: seq<DirectionResult>): (k: nat)
    ensures k <= |data|
  {
    if |data| == 0 then 0
    else DirCount(data[..|data| - 1]) + Counted(data[|data| - 1])
  }

  /** `dirCountMultipliers`: matching in several directions at once pays more. */
  function DirCountMultiplier(k: nat): real
    requires k <= 4
  {
    if k == 0 then 0.0 else if k == 1 then 1.0 else if k == 2 then 1.5 else if k == 3 then 2.5 else 69.0
  }

  /** `reduce((acc, v) => acc + v, 0)`. */
  function Sum(s: seq<real>): real
  {
    if |s| == 0 then 0.0 else Sum(s[..|s| - 1]) + s[|s| - 1]
  }

  /** The score `CalculateScore` returns for these direction results. */
  function ScoreFormula(data: seq<DirectionResult>, n: int, combo: real): int
    requires DirCount(data) <= 4
  {
    Scaled(Partial(data, n), combo)
  }

  /** The summed components scaled by the direction-count table, before the combo. */
  function Partial(data: seq<DirectionResult>, n: int): real
    requires DirCount(data) <= 4
  {
    Sum(Components(data, n)) * DirCountMultiplier(DirCount(data))
  }

  function Scaled(pm: real, c: real): int
  {
    (pm * c).Floor
  }

  lemma ComponentsSnoc(data: seq<DirectionResult>, x: DirectionResult, n: int)
    ensures Components(data + [x], n) == Components(data, n) + Share(x, n)
    ensures DirCount(data + [x]) == DirCount(data) + Counted(x)
  {
    assert (data + [x])[..|data|] == data;
  }

  /** One more step of the forEach: the prefix of length i + 1 adds the i-th direction's share and count. */
  lemma ComponentsStep(data: seq<DirectionResult>, n: int, i: nat)
    requires i < |data|
    ensures Components(data[..i + 1], n) == Components(data[..i], n) + Share(data[i], n)
    ensures DirCount(data[..i + 1]) == DirCount(data[..i]) + Counted(data[i])
  {
    assert data[..i + 1] == data[..i] + [data[i]];
    ComponentsSnoc(data[..i], data[i], n);
  }

  /** The components and the count of the four direction results of one check. */
  lemma FourDirections(a: DirectionResult, b: DirectionResult, c: DirectionResult, d: DirectionResult, n: int)
    ensures Components([a, b, c, d], n) == Share(a, n) + Share(b, n) + Share(c, n) + Share(d, n)
    ensures DirCount([a, b, c, d]) == Counted(a) + Counted(b) + Counted(c) + Counted(d)
  {
    assert Components([a], n) == Share(a, n) && DirCount([a]) == Counted(a) by {
      assert [a][..0] == [];
    }
    assert Components([a, b], n) == Share(a, n) + Share(b, n) && DirCount([a, b]) == Counted(a) + Counted(b) by {
      assert [a, b][..1] == [a];
    }
    assert Components([a, b, c], n) == Share(a, n) + Share(b, n) + Share(c, n) by {
      assert [a, b, c][..2] == [a, b];
    }
    assert DirCount([a, b, c]) == Counted(a) + Counted(b) + Counted(c) by {
      assert [a, b, c][..2] == [a, b];
    }
    assert [a, b, c, d][..3] == [a, b, c];
  }

  /** Five in one row at n = 5 and combo 1 scores 5; the same in two directions scores 15. */
  lemma ScoreExamples(t5: seq<nat>)
    requires |t5| == 5
    ensures ScoreFormula([DirectionResult(true, t5), DirectionResult(false, []),
                          DirectionResult(false, []), DirectionResult(false, [])], 5, 1.0) == 5
    ensures ScoreFormula([DirectionResult(true, t5), DirectionResult(true, t5),
                          DirectionResult(false, []), DirectionResult(false, [])], 5, 1.0) == 15
  {
    var hit, miss := DirectionResult(true, t5), DirectionResult(false, []);
    assert Share(hit, 5) == [5.0];
    FourDirections(hit, miss, miss, miss, 5);
    assert Components([hit, miss, miss, miss], 5) == [5.0];
    FourDirections(hit, hit, miss, miss, 5);
    assert Components([hit, hit, miss, miss], 5) == [5.0, 5.0];
    assert Sum([5.0]) == 5.0 by { assert [5.0][..0] == []; }
    assert Sum([5.0, 5.0]) == 10.0 by { assert [5.0, 5.0][..1] == [5.0]; }
    assert Scaled(5.0 * 1.0, 1.0) == 5;
    assert Scaled(10.0 * 1.5, 1.0) == 15;
  }

  /** Every direction that matched has at least n tiles, as the matcher guarantees. */
  predicate LongEnough(data: seq<DirectionResult>, n: int)
  {
    forall d :: 0 <= d < |data| && data[d].status ==> |data[d].tiles| >= n
  }

  /** A long enough run scores at least one point per tile. */
  lemma ComponentAtLeastLength(length: int, n: int)
    requires 0 <= n <= length
    ensures Component(length, n) >= length as real
  {
    var bonus := LengthBonus(length, n);
    assert bonus >= 1.0;
    assert length as real * bonus - length as real == length as real * (bonus - 1.0);
  }

  /** The components of long enough matches add up to at least their tile count. */
  lemma {:induction false} SumAtLeastTiles(data: seq<DirectionResult>, n: int)
    requires n >= 0 && LongEnough(data, n)
    ensures Sum(Components(data, n)) >= MatchedTiles(data) as real
  {
    if |data| > 0 {
      var front := data[..|data| - 1];
      var last := data[|data| - 1];
      assert LongEnough(front, n) by {
        forall d | 0 <= d < |front| && front[d].status
          ensures |front[d].tiles| >= n
        {
          assert front[d] == data[d];
        }
      }
      SumAtLeastTiles(front, n);
      var tail := Share(last, n);
      SumAppend(Components(front, n), tail);
      if last.status {
        ComponentAtLeastLength(|last.tiles|, n);
        assert Sum(tail) == Sum([]) + tail[0];
      }
    }
  }

  /** The number of tiles over all matched directions. */
  function MatchedTiles(data: seq<DirectionResult>): nat
  {
    if |data| == 0 then 0
    else
      var last := data[|data| - 1];
      MatchedTiles(data[..|data| - 1]) + (if last.status then |last.tiles| else 0)
  }

  lemma {:induction false} SumAppend(a: seq<real>, b: seq<real>)
    ensures Sum(a + b) == Sum(a) + Sum(b)
    decreases |b|
  {
    if |b| > 0 {
      assert (a + b)[..|a + b| - 1] == a + b[..|b| - 1];
      SumAppend(a, b[..|b| - 1]);
    } else {
      assert a + b == a;
    }
  }

  /**
   * With a combo of at least 1 and matches of at least n tiles, a
   * destruction scores at least one point per destroyed-direction tile and
   * never a negative score.
   */
  lemma ScoreAtLeastTiles(data: seq<DirectionResult>, n: int, combo: real)
    requires n >= 0 && LongEnough(data, n) && DirCount(data) <= 4
    requires DirCount(data) >= 1 && combo >= 1.0
    ensures ScoreFormula(data, n, combo) >= MatchedTiles(data)
  {
    SumAtLeastTiles(data, n);
    ScaledAtLeast(Sum(Components(data, n)), DirCountMultiplier(DirCount(data)), combo, MatchedTiles(data));
  }

  lemma ScaledAtLeast(p: real, m: real, c: real, k: int)
    requires p >= k as real && k >= 0 && m >= 1.0 && c >= 1.0
    ensures Scaled(p * m, c) >= k
  {
    NonNegativeProduct(p, m - 1.0);
    assert p * m - p == p * (m - 1.0);
    NonNegativeProduct(p * m, c - 1.0);
    assert p * m * c - p * m == p * m * (c - 1.0);
  }

  lemma NonNegativeProduct(a: real, b: real)
    requires a >= 0.0 && b >= 0.0
    ensures a * b >= 0.0
  {
  }

  lemma ScaledMonotone(pm: real, c1: real, c2: real)
    requires pm >= 0.0 && c1 <= c2
    ensures Scaled(pm, c1) <= Scaled(pm, c2)
  {
    NonNegativeProduct(pm, c2 - c1);
    assert pm * c2 - pm * c1 == pm * (c2 - c1);
  }

  /** A larger combo never gives a smaller score. */
  lemma ScoreMonotoneInCombo(data: seq<DirectionResult>, n: int, c1: real, c2: real)
    requires n >= 0 && LongEnough(data, n) && DirCount(data) <= 4
    requires 0.0 <= c1 <= c2
    ensures ScoreFormula(data, n, c1) <= ScoreFormula(data, n, c2)
  {
    PartialScoreNonNegative(data, n);
    ScaledMonotone(Partial(data, n), c1, c2);
  }

  /** The score before the combo and the floor is never negative. */
  lemma PartialScoreNonNegative(data: seq<DirectionResult>, n: int)
    requires n >= 0 && LongEnough(data, n) && DirCount(data) <= 4
    ensures Partial(data, n) >= 0.0
  {
    SumAtLeastTiles(data, n);
    NonNegativeProduct(Sum(Components(data, n)), DirCountMultiplier(DirCount(data)));
  }

  /**
   * `parseFloat(x.toFixed(2))` on a non-negative exact x: the nearest
   * hundredth, halves rounded up.
   */
  function RoundHundredths(x: real): real
  {
    (x * 100.0 + 0.5).Floor as real / 100.0
  }

  /** `increaseCombo`: the multiplier grows by half, kept to two decimals. */
  function NextCombo(combo: real): real
  {
    RoundHundredths(combo * 1.5)
  }

  /** Rounding moves a value by at most half a hundredth. */
  lemma RoundHundredthsClose(x: real)
    ensures x - 0.005 < RoundHundredths(x) <= x + 0.005
  {
  }

  /** From 1 upward, every combo increase really increases the multiplier. */
  lemma NextComboGrows(combo: real)
    requires combo >= 1.0
    ensures NextCombo(combo) > combo
  {
    RoundHundredthsClose(combo * 1.5);
  }

  /** The multipliers after successive combos: 1, 1.5, 2.25, 3.38, 5.07. */
  lemma ComboSequence()
    ensures NextCombo(1.0) == 1.5
    ensures NextCombo(1.5) == 2.25
    ensures NextCombo(2.25) == 3.38
    ensures NextCombo(3.38) == 5.07
  {
    assert (150.0 + 0.5).Floor == 150;
    assert (225.0 + 0.5).Floor == 225;
    assert (337.5 + 0.5).Floor == 338;
    assert (507.0 + 0.5).Floor == 507;
  }
}
