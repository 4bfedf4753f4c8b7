/**
 * The percentile rank shared by the table filter in the browser and by the
 * example service on the server: the share of a sample that is at most a
 * value, as a whole percent rounded half up, and 0 for an empty sample.
 */
module Ranking {
  import Numeric
  import Sorting

  /** The number of sample values `<= v`. */
  function CountLe(s: seq<real>, v: real): (c: nat)
    ensures c <= |s|
  {
    if s == [] then 0 else (if s[0] <= v then 1 else 0) + CountLe(s[1..], v)
  }

  /**
   * `round(100 * CountLe(sample, v) / |sample|)`, or 0 for an empty sample:
   * the integer `r` with `r - 1/2 <= 100 * c / n < r + 1/2`.
   */
  function Rank(sample: seq<real>, v: real): (r: nat)
    ensures r <= 100
    ensures |sample| == 0 ==> r == 0
    ensures |sample| > 0 ==>
      (2 * r - 1) * |sample| <= 200 * CountLe(sample, v) < (2 * r + 1) * |sample|
  {
    if |sample| == 0 then 0
    else
      var n := |sample|;
      Numeric.RoundRatioMonotone(CountLe(sample, v), n, n, 100);
      Numeric.RoundRatioUnique(n, n, 100, 100);
      Numeric.RoundRatio(CountLe(sample, v), n, 100)
  }

  lemma {:induction false} CountLeAppend(a: seq<real>, b: seq<real>, v: real)
    ensures CountLe(a + b, v) == CountLe(a, v) + CountLe(b, v)
    decreases |a|
  {
    if a == [] {
      assert a + b == b;
    } else {
      assert (a + b)[1..] == a[1..] + b;
      CountLeAppend(a[1..], b, v);
    }
  }

  lemma {:induction false} CountLeMonotone(s: seq<real>, v1: real, v2: real)
    requires v1 <= v2
    ensures CountLe(s, v1) <= CountLe(s, v2)
    decreases |s|
  {
    if s != [] {
      CountLeMonotone(s[1..], v1, v2);
    }
  }

  /** A larger value never has a smaller rank, whatever the order of the sample. */
  lemma RankMonotone(s: seq<real>, v1: real, v2: real)
    requires v1 <= v2
    ensures Rank(s, v1) <= Rank(s, v2)
  {
    if |s| > 0 {
      CountLeMonotone(s, v1, v2);
      Numeric.RoundRatioMonotone(CountLe(s, v1), CountLe(s, v2), |s|, 100);
    }
  }

  lemma {:induction false} CountLeAll(s: seq<real>, v: real)
    requires forall i :: 0 <= i < |s| ==> s[i] <= v
    ensures CountLe(s, v) == |s|
    decreases |s|
  {
    if s != [] {
      CountLeAll(s[1..], v);
    }
  }

  lemma {:induction false} CountLeNone(s: seq<real>, v: real)
    requires forall i :: 0 <= i < |s| ==> s[i] > v
    ensures CountLe(s, v) == 0
    decreases |s|
  {
    if s != [] {
      CountLeNone(s[1..], v);
    }
  }

  /** A value at or above every sample value ranks 100. */
  lemma RankAtOrAboveMax(s: seq<real>, v: real)
    requires |s| > 0 && forall i :: 0 <= i < |s| ==> s[i] <= v
    ensures Rank(s, v) == 100
  {
    CountLeAll(s, v);
    Numeric.RoundRatioUnique(|s|, |s|, 100, 100);
  }

  /** A value below every sample value ranks 0. */
  lemma RankBelowMin(s: seq<real>, v: real)
    requires forall i :: 0 <= i < |s| ==> s[i] > v
    ensures Rank(s, v) == 0
  {
    CountLeNone(s, v);
    if |s| > 0 {
      Numeric.RoundRatioUnique(0, |s|, 100, 0);
    }
  }

  /** A value the sample contains is counted at least once. */
  lemma {:induction false} CountLeMember(s: seq<real>, i: int, v: real)
    requires 0 <= i < |s| && s[i] <= v
    ensures CountLe(s, v) >= 1
    decreases |s|
  {
    if i > 0 {
      CountLeMember(s[1..], i - 1, v);
    }
  }

  /** The smallest sample value ranks at least `round(100 / n)`, the share of one value. */
  lemma RankAtMin(s: seq<real>, i: int)
    requires 0 <= i < |s| && forall j :: 0 <= j < |s| ==> s[i] <= s[j]
    ensures Rank(s, s[i]) >= Numeric.RoundRatio(1, |s|, 100)
  {
    CountLeMember(s, i, s[i]);
    Numeric.RoundRatioMonotone(1, CountLe(s, s[i]), |s|, 100);
  }

  /** s without the element at index k. */
  function RemoveAt(s: seq<real>, k: nat): (r: seq<real>)
    requires k < |s|
    ensures |r| == |s| - 1
    ensures multiset(r) == multiset(s) - multiset{s[k]}
  {
    assert s == s[..k] + [s[k]] + s[k + 1..];
    s[..k] + s[k + 1..]
  }

  /** The count depends only on the multiset of sample values, not on their order. */
  lemma {:induction false} CountLePermutation(a: seq<real>, b: seq<real>, v: real)
    requires multiset(a) == multiset(b)
    ensures CountLe(a, v) == CountLe(b, v)
    decreases |a|
  {
    if a == [] {
      assert |b| == |multiset(b)| == 0;
    } else {
      assert a[0] in multiset(b);
      var k :| 0 <= k < |b| && b[k] == a[0];
      var rest := RemoveAt(b, k);
      assert a == [a[0]] + a[1..];
      assert multiset(a[1..]) == multiset(rest);
      CountLePermutation(a[1..], rest, v);
      assert b == b[..k] + [b[k]] + b[k + 1..];
      CountLeAppend(b[..k] + [b[k]], b[k + 1..], v);
      CountLeAppend(b[..k], [b[k]], v);
      CountLeAppend(b[..k], b[k + 1..], v);
    }
  }

  /** Sorting the sample (as both callers do) leaves every rank unchanged. */
  lemma RankOfSorted(s: seq<real>, v: real)
    ensures Rank(Sorting.SortAsc(s), v) == Rank(s, v)
  {
    CountLePermutation(Sorting.SortAsc(s), s, v);
  }

  predicate SortedAsc(s: seq<real>) {
    forall i, j :: 0 <= i < j < |s| ==> s[i] <= s[j]
  }

  /** The length of the longest prefix of `s` whose values are all `<= v`. */
  function PrefixLe(s: seq<real>, v: real): (c: nat)
    ensures c <= |s|
    ensures forall i :: 0 <= i < c ==> s[i] <= v
    ensures c < |s| ==> s[c] > v
  {
    if s == [] || s[0] > v then 0 else 1 + PrefixLe(s[1..], v)
  }

  /** On a sorted sample the longest `<= v` prefix holds every value `<= v`. */
  lemma {:induction false} PrefixLeSorted(s: seq<real>, v: real)
    requires SortedAsc(s)
    ensures PrefixLe(s, v) == CountLe(s, v)
    decreases |s|
  {
    if s != [] {
      if s[0] > v {
        CountLeNone(s, v);
      } else {
        PrefixLeSorted(s[1..], v);
      }
    }
  }

  /** The sample 10, 25, 50, 75, 90: 50 ranks 60, 10 ranks 20, 90 ranks 100 and 5 ranks 0. */
  lemma RankExamples()
    ensures Rank([10.0, 25.0, 50.0, 75.0, 90.0], 50.0) == 60
    ensures Rank([10.0, 25.0, 50.0, 75.0, 90.0], 10.0) == 20
    ensures Rank([10.0, 25.0, 50.0, 75.0, 90.0], 90.0) == 100
    ensures Rank([10.0, 25.0, 50.0, 75.0, 90.0], 5.0) == 0
  {
    var s := [10.0, 25.0, 50.0, 75.0, 90.0];
    assert s[1..] == [25.0, 50.0, 75.0, 90.0];
    assert CountLe(s, 50.0) == 3;
    assert CountLe(s, 10.0) == 1;
    Numeric.RoundRatioUnique(3, 5, 100, 60);
    Numeric.RoundRatioUnique(1, 5, 100, 20);
    RankAtOrAboveMax(s, 90.0);
    RankBelowMin(s, 5.0);
  }

  /** On the same sample a value above the maximum, 100, also ranks 100. */
  lemma RankExampleAboveMax()
    ensures Rank([10.0, 25.0, 50.0, 75.0, 90.0], 100.0) == 100
  {
    RankAtOrAboveMax([10.0, 25.0, 50.0, 75.0, 90.0], 100.0);
  }
}
