/** The numeric helpers of `tools`: the relative uplift and the quantile
    estimator that sorts a copy of a distribution and interpolates linearly
    between neighbouring order statistics. The parallel unstable sort is
    modelled by an insertion sort: only its result matters, and a sorted
    permutation of a sequence of reals is unique (`SortedUnique`). */
module Tools {
  import opened Outcomes
  import opened Sums

  /** `calculate_uplift`: the change from `before` to `after` relative to `before`. */
  function CalculateUplift(before: real, after: real): (u: real)
    requires before != 0.0
    ensures before * (1.0 + u) == after
    ensures u == 0.0 <==> after == before
    ensures before > 0.0 ==> (u > 0.0 <==> after > before)
  {
    (after - before) / before
  }

  predicate Sorted(s: seq<real>) {
    forall i, j :: 0 <= i < j < |s| ==> s[i] <= s[j]
  }

  /** A lower bound of every element of `s` bounds every element of a permutation of `s`. */
  lemma LowerBoundPermuted(b: real, s: seq<real>, r: seq<real>)
    requires forall k :: 0 <= k < |s| ==> b <= s[k]
    requires multiset(r) == multiset(s)
    ensures forall k :: 0 <= k < |r| ==> b <= r[k]
  {
    forall k | 0 <= k < |r|
      ensures b <= r[k]
    {
      assert r[k] in multiset(r);
      assert r[k] in s;
    }
  }

  function Insert(x: real, s: seq<real>): (r: seq<real>)
    requires Sorted(s)
    ensures Sorted(r)
    ensures multiset(r) == multiset(s) + multiset{x}
  {
    if |s| == 0 then [x]
    else if x <= s[0] then
      SortedCons(x, s);
      [x] + s
    else
      var rest := Insert(x, s[1..]);
      InsertStep(x, s, rest);
      [s[0]] + rest
  }

  /** A head no greater than the sorted head keeps the sequence sorted. */
  lemma SortedCons(h: real, s: seq<real>)
    requires Sorted(s) && (|s| > 0 ==> h <= s[0])
    ensures Sorted([h] + s)
  {
  }

  /** Inserting `x` after the head `s[0] < x` into the tail: the head still
      bounds the result, and the multiset gains `x`. */
  lemma InsertStep(x: real, s: seq<real>, rest: seq<real>)
    requires Sorted(s) && |s| > 0 && s[0] < x
    requires Sorted(rest) && multiset(rest) == multiset(s[1..]) + multiset{x}
    ensures Sorted([s[0]] + rest)
    ensures multiset([s[0]] + rest) == multiset(s) + multiset{x}
  {
    assert s == [s[0]] + s[1..];
    LowerBoundPermuted(s[0], s[1..] + [x], rest);
    if |rest| > 0 {
      assert s[0] <= rest[0];
    }
    SortedCons(s[0], rest);
  }

  /** The sorted copy `sorted` of the quantile estimator. */
  function Sort(s: seq<real>): (r: seq<real>)
    ensures Sorted(r)
    ensures multiset(r) == multiset(s)
  {
    if |s| == 0 then []
    else
      assert s == [s[0]] + s[1..];
      Insert(s[0], Sort(s[1..]))
  }

  /** Two sorted sequences holding the same multiset of values are equal, so
      whichever sort the library uses yields the same sorted copy. */
  lemma {:induction false} SortedUnique(a: seq<real>, b: seq<real>)
    requires Sorted(a) && Sorted(b)
    requires multiset(a) == multiset(b)
    ensures a == b
    decreases |a|
  {
    if |a| == 0 || |b| == 0 {
      assert |a| == |multiset(a)| == |multiset(b)| == |b|;
    } else {
      SortedHeads(a, b);
      MultisetTails(a, b);
      SortedUnique(a[1..], b[1..]);
      assert a == [a[0]] + a[1..] && b == [b[0]] + b[1..];
    }
  }

  lemma SortedHeads(a: seq<real>, b: seq<real>)
    requires Sorted(a) && Sorted(b) && multiset(a) == multiset(b) && |a| > 0 && |b| > 0
    ensures a[0] == b[0]
  {
    assert a[0] in multiset(a) && b[0] in multiset(b);
    assert a[0] in b && b[0] in a;
  }

  lemma MultisetTails(a: seq<real>, b: seq<real>)
    requires multiset(a) == multiset(b) && |a| > 0 && |b| > 0 && a[0] == b[0]
    ensures multiset(a[1..]) == multiset(b[1..])
  {
    assert a == [a[0]] + a[1..] && b == [b[0]] + b[1..];
    assert multiset(a) == multiset{a[0]} + multiset(a[1..]);
    assert multiset(b) == multiset{a[0]} + multiset(b[1..]);
    assert multiset(a[1..]) == multiset(a) - multiset{a[0]};
    assert multiset(b[1..]) == multiset(b) - multiset{a[0]};
  }

  /** The ends of a sorted permutation are the extreme values of the original. */
  lemma SortedEnds(r: seq<real>, s: seq<real>)
    requires Sorted(r) && multiset(r) == multiset(s) && |s| > 0
    ensures |r| == |s|
    ensures r[0] == Minimum(s) && r[|r| - 1] == Maximum(s)
  {
    assert |r| == |multiset(r)| == |multiset(s)| == |s|;
    var lo, hi := Minimum(s), Maximum(s);
    assert lo in multiset(s) && hi in multiset(s);
    assert lo in r && hi in r;
    assert r[0] in multiset(s) && r[|r| - 1] in multiset(s) by {
      assert r[0] in multiset(r) && r[|r| - 1] in multiset(r);
    }
  }

  /** `f64::trunc`: rounds toward zero. */
  function Trunc(x: real): int {
    if x >= 0.0 then x.Floor else -((-x).Floor)
  }

  /** `f64::fract`: `x - x.trunc()`, negative for negative non-integral `x`. */
  function Fract(x: real): real {
    x - Trunc(x) as real
  }

  /** The fractional rank at which quantile `q` of `n` sorted values is
      interpolated (`PositionScaled` shows it is `q * (n - 1)`). */
  function Position(q: real, n: nat): real {
    q * n as real + (1.0 - q) - 1.0
  }

  /** The index of the lower neighbour: the position rounded down,
      clamped at 0. */
  function LowerIndex(pos: real): nat {
    if pos.Floor < 0 then 0 else pos.Floor
  }

  function Lerp(a: real, b: real, g: real): real {
    (1.0 - g) * a + g * b
  }

  lemma MulNonNegative(x: real, y: real)
    requires 0.0 <= x && 0.0 <= y
    ensures 0.0 <= x * y
  {
  }

  /** A weight in [0, 1] interpolates between the two ends. */
  lemma LerpBetween(a: real, b: real, g: real)
    ensures a <= b && 0.0 <= g <= 1.0 ==> a <= Lerp(a, b, g) <= b
  {
    if a <= b && 0.0 <= g <= 1.0 {
      var d := b - a;
      assert Lerp(a, b, g) == a + g * d;
      MulNonNegative(g, d);
      MulNonNegative(1.0 - g, d);
      assert g * d + (1.0 - g) * d == d;
    }
  }

  lemma LerpMonotone(a: real, b: real, g1: real, g2: real)
    requires a <= b && g1 <= g2
    ensures Lerp(a, b, g1) <= Lerp(a, b, g2)
  {
    assert Lerp(a, b, g2) - Lerp(a, b, g1) == (g2 - g1) * (b - a);
    MulNonNegative(g2 - g1, b - a);
  }

  /** The interpolation position is `q * (n - 1)`: 0 at `q = 0`, `n - 1` at `q = 1`. */
  lemma PositionScaled(q: real, n: nat)
    requires n > 0
    ensures Position(q, n) == q * (n - 1) as real
  {
  }

  /** Over `n` values the position grows with the quantile. */
  lemma PositionMonotone(q1: real, q2: real, n: nat)
    requires n > 0 && q1 <= q2
    ensures Position(q1, n) <= Position(q2, n)
  {
    var d, m := q2 - q1, (n - 1) as real;
    MulNonNegative(d, m);
    assert Position(q2, n) - Position(q1, n) == d * m;
  }

  /** For a non-empty distribution and `q` in [0, 1], the interpolation
      position lies in `[0, n - 1]`, its integer part is a valid index and its
      fractional part is a weight in [0, 1). */
  lemma PositionInRange(q: real, n: nat)
    requires n > 0 && 0.0 <= q <= 1.0
    ensures 0.0 <= Position(q, n) <= (n - 1) as real
    ensures LowerIndex(Position(q, n)) < n
    ensures LowerIndex(Position(q, n)) == Position(q, n).Floor
    ensures Fract(Position(q, n)) == Position(q, n) - LowerIndex(Position(q, n)) as real
    ensures 0.0 <= Fract(Position(q, n)) < 1.0
  {
    var m := (n - 1) as real;
    assert 0.0 <= Position(q, n) <= m by {
      PositionScaled(q, n);
      MulNonNegative(q, m);
      MulNonNegative(1.0 - q, m);
    }
  }

  /** `PositionInRange`, for use where its precondition is not known to hold. */
  lemma PositionFacts(q: real, n: nat)
    ensures n > 0 && 0.0 <= q <= 1.0 ==>
              && LowerIndex(Position(q, n)) < n
              && 0.0 <= Fract(Position(q, n)) <= 1.0
  {
    if n > 0 && 0.0 <= q <= 1.0 {
      PositionInRange(q, n);
    }
  }

  /** The estimator at one quantile `q` over the sorted copy; `None` is the
      out-of-bounds index panic of `sorted[j]`. */
  function QuantileAt(sorted: seq<real>, q: real): (r: Option<real>)
    ensures |sorted| > 0 && 0.0 <= q <= 1.0 ==> r.Some?
    ensures |sorted| == 0 ==> r.None?
    ensures |sorted| == 1 ==> r == Some(sorted[0])
    ensures Sorted(sorted) && 0.0 <= q <= 1.0 && r.Some? ==>
              sorted[0] <= r.value <= sorted[|sorted| - 1]
  {
    var n := |sorted|;
    var pos := Position(q, n);
    var j := LowerIndex(pos);
    var g := Fract(pos);
    PositionFacts(q, n);
    if j + 1 < n then
      LerpBetween(sorted[j], sorted[j + 1], g);
      Some(Lerp(sorted[j], sorted[j + 1], g))
    else if j < n then
      Some(sorted[j])
    else
      None
  }

  /** `q = 0` yields the minimum and `q = 1` the maximum, the latter through
      the branch where `j + 1` is out of range. */
  lemma QuantileEndpoints(sorted: seq<real>)
    requires |sorted| > 0
    ensures QuantileAt(sorted, 0.0) == Some(sorted[0])
    ensures QuantileAt(sorted, 1.0) == Some(sorted[|sorted| - 1])
  {
    var n := |sorted|;
    assert QuantileAt(sorted, 0.0) == Some(sorted[0]) by {
      assert Position(0.0, n) == 0.0;
      assert LowerIndex(0.0) == 0 && Fract(0.0) == 0.0;
      if n > 1 {
        assert Lerp(sorted[0], sorted[1], 0.0) == sorted[0];
      }
    }
    assert QuantileAt(sorted, 1.0) == Some(sorted[n - 1]) by {
      assert Position(1.0, n) == (n - 1) as real;
      assert LowerIndex((n - 1) as real) == n - 1;
    }
  }

  /** Over a sorted sequence the estimator is monotone in the quantile. */
  lemma QuantileMonotone(sorted: seq<real>, q1: real, q2: real)
    requires Sorted(sorted) && |sorted| > 0
    requires 0.0 <= q1 <= q2 <= 1.0
    ensures QuantileAt(sorted, q1).value <= QuantileAt(sorted, q2).value
  {
    var n := |sorted|;
    PositionInRange(q1, n);
    PositionInRange(q2, n);
    var p1, p2 := Position(q1, n), Position(q2, n);
    PositionMonotone(q1, q2, n);
    var j1, j2 := LowerIndex(p1), LowerIndex(p2);
    var g1, g2 := Fract(p1), Fract(p2);
    assert j1 <= j2;
    var v1, v2 := QuantileAt(sorted, q1).value, QuantileAt(sorted, q2).value;
    if j1 < j2 {
      assert j1 + 1 < n;
      LerpBetween(sorted[j1], sorted[j1 + 1], g1);
      assert v1 <= sorted[j1 + 1];
      assert sorted[j1 + 1] <= sorted[j2];
      if j2 + 1 < n {
        LerpBetween(sorted[j2], sorted[j2 + 1], g2);
      }
    } else if j1 + 1 < n {
      LerpMonotone(sorted[j1], sorted[j1 + 1], g1, g2);
    }
  }

  /** The estimator over a list of quantiles, in request order; `None` when
      any one of them indexes out of bounds. */
  function QuantilesOfSorted(sorted: seq<real>, qs: seq<real>): (r: Option<seq<real>>)
    ensures r.Some? <==> forall i :: 0 <= i < |qs| ==> QuantileAt(sorted, qs[i]).Some?
    ensures r.Some? ==> |r.value| == |qs|
    ensures r.Some? ==> forall i :: 0 <= i < |qs| ==> r.value[i] == QuantileAt(sorted, qs[i]).value
  {
    if |qs| == 0 then Some([])
    else
      match (QuantileAt(sorted, qs[0]), QuantilesOfSorted(sorted, qs[1..]))
      case (Some(v), Some(rest)) => Some([v] + rest)
      case _ => None
  }

  /** `MathUtil::quantile`: sort a copy of `data`, then interpolate at each `q`. */
  function Quantile(data: seq<real>, qs: seq<real>): (r: Option<seq<real>>)
    ensures r.Some? ==> |r.value| == |qs|
    ensures |data| == 0 && |qs| > 0 ==> r.None?
    ensures |data| > 0 && (forall i :: 0 <= i < |qs| ==> 0.0 <= qs[i] <= 1.0) ==> r.Some?
    ensures r.Some? && |data| > 0 ==>
              forall i :: 0 <= i < |qs| && 0.0 <= qs[i] <= 1.0 ==>
                Minimum(data) <= r.value[i] <= Maximum(data)
  {
    var sorted := Sort(data);
    if |data| > 0 then
      SortedEnds(sorted, data);
      QuantilesOfSorted(sorted, qs)
    else
      assert |sorted| == |multiset(sorted)| == 0;
      QuantilesOfSorted(sorted, qs)
  }

  /** The estimator depends only on the multiset of the distribution's values. */
  lemma QuantileIgnoresOrder(d1: seq<real>, d2: seq<real>, qs: seq<real>)
    requires multiset(d1) == multiset(d2)
    ensures Quantile(d1, qs) == Quantile(d2, qs)
  {
    SortedUnique(Sort(d1), Sort(d2));
  }

  /** A one-element distribution yields its element at every quantile. */
  lemma QuantileSingleton(x: real, qs: seq<real>)
    ensures Quantile([x], qs) == Some(seq(|qs|, i => x))
  {
    assert multiset(Sort([x])) == multiset{x};
    assert Sort([x]) == [x] by {
      var s := Sort([x]);
      assert |s| == |multiset(s)| == 1;
      assert s[0] in multiset(s);
    }
    var r := QuantilesOfSorted([x], qs);
    assert r.Some?;
    assert r.value == seq(|qs|, i => x);
  }
}
