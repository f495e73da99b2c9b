/**
 * The random selection helpers that src/ArrayPrototype.ts adds to arrays.
 * Each value of `Math.random()` is an input here: a real in [0, 1).
 */
module ArrayRandom {
  import opened Wrappers
  import opened SeqUtil

  /** The errors `random` and `randomN` throw, and the model's one extra outcome. */
  datatype PickError =
    | EmptyArray    // "Cannot return item from empty array."
    | TooFewItems   // "Cannot return more items than there are in the array."
    | OutOfDraws    // the supplied random values are used up before n distinct items are drawn

  /** A value `Math.random()` can return. */
  predicate IsDraw(r: real)
  {
    0.0 <= r < 1.0
  }

  predicate AllDraws(draws: seq<real>)
  {
    forall k :: 0 <= k < |draws| ==> IsDraw(draws[k])
  }

  /** `Math.floor(r * length)`: always a valid index of a non-empty array. */
  function DrawIndex(r: real, length: int): (i: int)
    requires IsDraw(r) && length > 0
    ensures 0 <= i < length
  {
    DrawBelowLength(r, length as real);
    (r * length as real).Floor
  }

  lemma DrawBelowLength(r: real, l: real)
    requires IsDraw(r) && l > 0.0
    ensures 0.0 <= r * l < l
  {
    assert l - r * l == (1.0 - r) * l;
  }

  /** `random`: the element at the drawn index, or the error for an empty array. */
  function Random<T>(a: seq<T>, r: real): (res: Result<T, PickError>)
    requires IsDraw(r)
    ensures res.Failure? <==> |a| == 0
    ensures res.Failure? ==> res.error == EmptyArray
    ensures res.Success? ==> res.value == a[DrawIndex(r, |a|)] && res.value in a
  {
    if |a| == 0 then Failure(EmptyArray) else Success(a[DrawIndex(r, |a|)])
  }

  /** The elements the successive draws pick from a. */
  function Drawn<T>(a: seq<T>, draws: seq<real>): (d: seq<T>)
    requires AllDraws(draws)
    ensures |a| == 0 ==> d == []
    ensures |a| > 0 ==> |d| == |draws|
  {
    if |a| == 0 then [] else
    seq(|draws|, k requires 0 <= k < |draws| => a[DrawIndex(draws[k], |a|)])
  }

  /** s with every repeated element dropped, first occurrences kept in order. */
  function Dedup<T(==)>(s: seq<T>): seq<T>
  {
    if |s| == 0 then []
    else
      var d := Dedup(s[..|s| - 1]);
      if s[|s| - 1] in d then d else d + [s[|s| - 1]]
  }

  lemma {:induction false} DedupMembers<T>(s: seq<T>)
    ensures forall x :: x in Dedup(s) <==> x in s
    ensures Distinct(Dedup(s))
  {
    if |s| > 0 {
      DedupMembers(s[..|s| - 1]);
      assert s == s[..|s| - 1] + [s[|s| - 1]];
    }
  }

  /** Deduplicating a prefix gives a prefix of the deduplicated whole. */
  lemma {:induction false} DedupPrefix<T>(s: seq<T>, k: nat)
    requires k <= |s|
    ensures |Dedup(s[..k])| <= |Dedup(s)|
    ensures Dedup(s[..k]) == Dedup(s)[..|Dedup(s[..k])|]
    decreases |s| - k
  {
    if k < |s| {
      DedupPrefix(s, k + 1);
      assert s[..k + 1][..k] == s[..k];
    } else {
      assert s[..k] == s;
    }
  }

  lemma DedupSnoc<T>(d: seq<T>, x: T)
    ensures Dedup(d + [x]) == if x in Dedup(d) then Dedup(d) else Dedup(d) + [x]
  {
    assert (d + [x])[..|d|] == d;
  }

  lemma DrawnPrefix<T>(a: seq<T>, draws: seq<real>, k: nat)
    requires AllDraws(draws) && k < |draws| && |a| > 0
    ensures AllDraws(draws[..k]) && AllDraws(draws[..k + 1])
    ensures Drawn(a, draws[..k + 1]) == Drawn(a, draws[..k]) + [a[DrawIndex(draws[k], |a|)]]
  {
  }

  lemma DrawnMembers<T>(a: seq<T>, draws: seq<real>)
    requires AllDraws(draws)
    ensures forall x :: x in Drawn(a, draws) ==> x in a
  {
  }

  /**
   * `randomN`: draws until n distinct elements are collected. The source
   * retries forever; here the draws are a finite sequence, and running out
   * of them is reported as `OutOfDraws`.
   */
  method RandomN<T(==)>(a: seq<T>, n: int, draws: seq<real>) returns (res: Result<seq<T>, PickError>)
    requires AllDraws(draws)
    ensures n > |a| <==> res == Failure(TooFewItems)
    ensures n <= 0 ==> res == Success([])
    ensures res.Success? ==> Distinct(res.value) && (n > 0 ==> |res.value| == n)
    ensures res.Success? ==> forall x :: x in res.value ==> x in a
    ensures 0 <= n <= |a| ==>
      (res.Success? <==> |Dedup(Drawn(a, draws))| >= n) &&
      (res.Success? ==> res.value == Dedup(Drawn(a, draws))[..n])
    ensures res.Failure? ==> res.error != EmptyArray
  {
    if n > |a| {
      return Failure(TooFewItems);
    }
    if n <= 0 {
      return Success([]);
    }
    var output: seq<T> := [];
    var k := 0;
    while |output| < n
      invariant 0 <= k <= |draws|
      invariant AllDraws(draws[..k])
      invariant output == Dedup(Drawn(a, draws[..k]))
      invariant |output| <= n
      decreases |draws| - k
    {
      if k == |draws| {
        assert draws[..k] == draws;
        return Failure(OutOfDraws);
      }
      var random := Random(a, draws[k]);
      DrawnPrefix(a, draws, k);
      DedupSnoc(Drawn(a, draws[..k]), random.value);
      k := k + 1;
      if random.value !in output {
        output := output + [random.value];
      }
    }
    DedupMembers(Drawn(a, draws[..k]));
    DrawnMembers(a, draws[..k]);
    DedupPrefix(Drawn(a, draws), k);
    assert Drawn(a, draws[..k]) == Drawn(a, draws)[..k];
    return Success(output);
  }
}
