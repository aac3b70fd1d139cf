/** Sums over samples and over index sequences into a sample, and the
    extreme values of a sample. Float accumulation order is not modelled:
    values are `real`, so every summation order gives the same result. */
module Sums {

  /** Every index of `idx` addresses a position of a sequence of length `n`. */
  predicate InRange(idx: seq<nat>, n: nat) {
    forall k :: 0 <= k < |idx| ==> idx[k] < n
  }

  /** The indices `lo, lo + 1, ..., hi - 1`, as `(lo..hi).collect()` builds them. */
  function Range(lo: nat, hi: nat): (r: seq<nat>)
    requires lo <= hi
    ensures |r| == hi - lo
    ensures forall k :: 0 <= k < |r| ==> r[k] == lo + k
  {
    seq(hi - lo, k => lo + k)
  }

  /** `lo..hi` holds every position of `[lo, hi)` exactly once and nothing else. */
  lemma {:induction false} RangeCount(lo: nat, hi: nat, p: nat)
    requires lo <= hi
    ensures multiset(Range(lo, hi))[p] == if lo <= p < hi then 1 else 0
    decreases hi - lo
  {
    if lo < hi {
      RangeCount(lo + 1, hi, p);
      assert Range(lo, hi) == [lo] + Range(lo + 1, hi);
    } else {
      assert Range(lo, hi) == [];
    }
  }

  /** The sum of all values of `s`, added from the front. */
  function Sum(s: seq<real>): real {
    if |s| == 0 then 0.0 else s[0] + Sum(s[1..])
  }

  /** The sum of `a[idx[0]] + a[idx[1]] + ...`: what the resampling loops accumulate. */
  function SumAt(a: seq<real>, idx: seq<nat>): real
    requires InRange(idx, |a|)
  {
    if |idx| == 0 then 0.0 else a[idx[0]] + SumAt(a, idx[1..])
  }

  function Minimum(s: seq<real>): (m: real)
    requires |s| > 0
    ensures m in s
    ensures forall k :: 0 <= k < |s| ==> m <= s[k]
  {
    if |s| == 1 then s[0]
    else
      var rest := Minimum(s[1..]);
      if s[0] <= rest then s[0] else rest
  }

  function Maximum(s: seq<real>): (m: real)
    requires |s| > 0
    ensures m in s
    ensures forall k :: 0 <= k < |s| ==> s[k] <= m
  {
    if |s| == 1 then s[0]
    else
      var rest := Maximum(s[1..]);
      if rest <= s[0] then s[0] else rest
  }

  lemma {:induction false} SumAppend(x: seq<real>, y: seq<real>)
    ensures Sum(x + y) == Sum(x) + Sum(y)
  {
    if |x| == 0 {
      assert x + y == y;
    } else {
      assert (x + y)[1..] == x[1..] + y;
      SumAppend(x[1..], y);
    }
  }

  lemma {:induction false} SumAtAppend(a: seq<real>, x: seq<nat>, y: seq<nat>)
    requires InRange(x, |a|) && InRange(y, |a|)
    ensures InRange(x + y, |a|)
    ensures SumAt(a, x + y) == SumAt(a, x) + SumAt(a, y)
  {
    if |x| == 0 {
      assert x + y == y;
    } else {
      assert (x + y)[1..] == x[1..] + y;
      SumAtAppend(a, x[1..], y);
    }
  }

  /** Summing through the identity indices `lo..hi` is summing the slice. */
  lemma {:induction false} SumAtRange(a: seq<real>, lo: nat, hi: nat)
    requires lo <= hi <= |a|
    ensures InRange(Range(lo, hi), |a|)
    ensures SumAt(a, Range(lo, hi)) == Sum(a[lo..hi])
    decreases hi - lo
  {
    if lo < hi {
      assert Range(lo, hi)[1..] == Range(lo + 1, hi);
      assert a[lo..hi][1..] == a[lo + 1..hi];
      SumAtRange(a, lo + 1, hi);
    }
  }

  /** Indices drawn from a multiset of in-range indices are themselves in range. */
  lemma MultisetInRange(x: seq<nat>, y: seq<nat>, n: nat)
    requires InRange(x, n) && multiset(x) == multiset(y)
    ensures InRange(y, n)
  {
    forall k | 0 <= k < |y|
      ensures y[k] < n
    {
      assert y[k] in multiset(y);
      assert y[k] in x;
    }
  }

  /** Taking out the `k`-th index takes out its term from the sum and its element from the multiset. */
  lemma SumAtRemove(a: seq<real>, y: seq<nat>, k: nat)
    requires InRange(y, |a|) && k < |y|
    ensures InRange(y[..k] + y[k + 1..], |a|)
    ensures SumAt(a, y) == a[y[k]] + SumAt(a, y[..k] + y[k + 1..])
    ensures multiset(y[..k] + y[k + 1..]) == multiset(y) - multiset{y[k]}
  {
    assert y == y[..k] + ([y[k]] + y[k + 1..]);
    SumAtAppend(a, y[..k], [y[k]] + y[k + 1..]);
    SumAtAppend(a, [y[k]], y[k + 1..]);
    SumAtAppend(a, y[..k], y[k + 1..]);
  }

  /** A sum through indices depends only on the multiset of the indices. */
  lemma {:induction false} SumAtPermutation(a: seq<real>, x: seq<nat>, y: seq<nat>)
    requires InRange(x, |a|) && multiset(x) == multiset(y)
    ensures InRange(y, |a|)
    ensures SumAt(a, x) == SumAt(a, y)
    decreases |x|
  {
    MultisetInRange(x, y, |a|);
    if |x| == 0 {
      assert |y| == |multiset(y)| == 0;
    } else {
      assert x[0] in y by {
        assert x[0] in multiset(x);
      }
      var k :| 0 <= k < |y| && y[k] == x[0];
      var rest := y[..k] + y[k + 1..];
      SumAtRemove(a, y, k);
      assert multiset(x[1..]) == multiset(rest) by {
        assert x == [x[0]] + x[1..];
      }
      SumAtPermutation(a, x[1..], rest);
    }
  }

  /** `x` added to itself `m` times, the product `m * x` built by addition. */
  function Times(m: nat, x: real): real {
    if m == 0 then 0.0 else x + Times(m - 1, x)
  }

  lemma {:induction false} TimesIsProduct(m: nat, x: real)
    ensures Times(m, x) == m as real * x
  {
    if m > 0 {
      TimesIsProduct(m - 1, x);
    }
  }

  /** `m` draws from a sample bounded by `lo` and `hi` sum to between `m` times
      `lo` and `m` times `hi`. */
  lemma {:induction false} SumAtBetween(a: seq<real>, idx: seq<nat>, lo: real, hi: real)
    requires InRange(idx, |a|)
    requires forall k :: 0 <= k < |a| ==> lo <= a[k] <= hi
    ensures Times(|idx|, lo) <= SumAt(a, idx) <= Times(|idx|, hi)
  {
    if |idx| > 0 {
      SumAtBetween(a, idx[1..], lo, hi);
    }
  }

  /** The mean of any non-empty selection lies within any bounds of the
      elements. */
  lemma MeanAtBetween(a: seq<real>, idx: seq<nat>, lo: real, hi: real)
    requires |idx| > 0 && InRange(idx, |a|)
    requires forall k :: 0 <= k < |a| ==> lo <= a[k] <= hi
    ensures lo <= SumAt(a, idx) / |idx| as real <= hi
  {
    SumAtBetween(a, idx, lo, hi);
    MeanBetween(SumAt(a, idx), |idx|, lo, hi);
  }

  lemma MeanBetween(total: real, len: nat, lo: real, hi: real)
    requires len > 0 && Times(len, lo) <= total <= Times(len, hi)
    ensures lo <= total / len as real <= hi
  {
    TimesIsProduct(len, lo);
    TimesIsProduct(len, hi);
    DivideBetween(total, len as real, lo, hi);
  }

  lemma DivideBetween(total: real, len: real, lo: real, hi: real)
    requires len > 0.0 && len * lo <= total <= len * hi
    ensures lo <= total / len <= hi
  {
  }

  /** When all of `a` is the constant `c`, `m` draws sum to `m * c`. */
  lemma {:induction false} SumAtConstant(a: seq<real>, idx: seq<nat>, c: real)
    requires |a| > 0 && InRange(idx, |a|)
    requires forall k :: 0 <= k < |a| ==> a[k] == c
    ensures SumAt(a, idx) == |idx| as real * c
  {
    SumAtBetween(a, idx, c, c);
    TimesIsProduct(|idx|, c);
  }

  /** `len` copies of `c`. */
  function Constant(c: real, len: nat): (s: seq<real>)
    ensures |s| == len && forall k :: 0 <= k < len ==> s[k] == c
  {
    seq(len, _ => c)
  }

  lemma SumConstant(c: real, len: nat)
    requires len > 0
    ensures Sum(Constant(c, len)) == len as real * c
  {
    var a := Constant(c, len);
    SumAtRange(a, 0, len);
    SumAtConstant(a, Range(0, len), c);
    assert a[0..len] == a;
  }
}
