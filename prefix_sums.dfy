/**
 * Sums of pixel sizes. An axis offset is the sum of a prefix of its sizes;
 * these lemmas are the arithmetic the Fenwick tree and the axis rely on.
 */
module PrefixSums {

  /** The sum of a sequence, adding the last element last. */
  function Sum(s: seq<real>): real
  {
    if |s| == 0 then 0.0 else Sum(s[..|s| - 1]) + s[|s| - 1]
  }

  /** Every size is non-negative (the axis never stores a negative size). */
  predicate NonNegative(s: seq<real>)
  {
    forall i :: 0 <= i < |s| ==> s[i] >= 0.0
  }

  lemma {:induction false} SumConcat(a: seq<real>, b: seq<real>)
    ensures Sum(a + b) == Sum(a) + Sum(b)
  {
    if |b| == 0 {
      assert a + b == a;
    } else {
      assert (a + b)[..|a + b| - 1] == a + b[..|b| - 1];
      SumConcat(a, b[..|b| - 1]);
    }
  }

  /** Splitting a prefix at `i`: sum of `s[..j]` is sum of `s[..i]` plus sum of `s[i..j]`. */
  lemma SumSplit(s: seq<real>, i: int, j: int)
    requires 0 <= i <= j <= |s|
    ensures Sum(s[..j]) == Sum(s[..i]) + Sum(s[i..j])
  {
    assert s[..j] == s[..i] + s[i..j];
    SumConcat(s[..i], s[i..j]);
  }

  /** The next prefix adds exactly the next element. */
  lemma SumStep(s: seq<real>, i: int)
    requires 0 <= i < |s|
    ensures Sum(s[..i + 1]) == Sum(s[..i]) + s[i]
  {
    assert s[..i + 1][..i] == s[..i];
  }

  lemma {:induction false} SumNonNegative(s: seq<real>)
    requires NonNegative(s)
    ensures Sum(s) >= 0.0
  {
    if |s| > 0 {
      SumNonNegative(s[..|s| - 1]);
    }
  }

  /** With non-negative sizes, prefix sums never decrease. */
  lemma PrefixMonotone(s: seq<real>, i: int, j: int)
    requires NonNegative(s)
    requires 0 <= i <= j <= |s|
    ensures Sum(s[..i]) <= Sum(s[..j])
  {
    SumSplit(s, i, j);
    SumNonNegative(s[i..j]);
  }

  /** A sequence of zeros sums to zero. */
  lemma {:induction false} SumZeros(s: seq<real>)
    requires forall i :: 0 <= i < |s| ==> s[i] == 0.0
    ensures Sum(s) == 0.0
  {
    if |s| > 0 {
      SumZeros(s[..|s| - 1]);
    }
  }

  /** Adding `d` to one element adds `d` to the sum. */
  lemma {:induction false} SumUpdate(s: seq<real>, k: int, d: real)
    requires 0 <= k < |s|
    ensures Sum(s[k := s[k] + d]) == Sum(s) + d
  {
    var t := s[k := s[k] + d];
    if k == |s| - 1 {
      assert t[..|t| - 1] == s[..|s| - 1];
    } else {
      assert t[..|t| - 1] == s[..|s| - 1][k := s[k] + d];
      SumUpdate(s[..|s| - 1], k, d);
    }
  }

  /** Adding `d` at index `k` changes the sum of `s[a..b]` by `d` exactly when `a <= k < b`. */
  lemma RangeSumUpdate(s: seq<real>, k: int, d: real, a: int, b: int)
    requires 0 <= k < |s|
    requires 0 <= a <= b <= |s|
    ensures Sum(s[k := s[k] + d][a..b]) == Sum(s[a..b]) + (if a <= k < b then d else 0.0)
  {
    var t := s[k := s[k] + d];
    if a <= k < b {
      assert t[a..b] == s[a..b][k - a := s[k] + d];
      SumUpdate(s[a..b], k - a, d);
    } else {
      assert t[a..b] == s[a..b];
    }
  }
}
