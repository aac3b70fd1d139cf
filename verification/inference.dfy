/** Aggregation of a resample distribution: the pseudocount-corrected
    one-sided p-value, its two-sided combination, and the confidence interval
    read off the quantile estimator at `(1 - cl) / 2` and `1 - (1 - cl) / 2`. */
module Inference {
  import opened Outcomes
  import opened Sums
  import opened Tools

  /** How many values of the distribution pass the filter `pred`. */
  function Count(dist: seq<real>, pred: real -> bool): (c: nat)
    ensures c <= |dist|
    ensures c == |dist| <==> forall i :: 0 <= i < |dist| ==> pred(dist[i])
    ensures c == 0 <==> forall i :: 0 <= i < |dist| ==> !pred(dist[i])
  {
    if |dist| == 0 then 0
    else
      assert forall i :: 1 <= i < |dist| ==> dist[1..][i - 1] == dist[i];
      (if pred(dist[0]) then 1 else 0) + Count(dist[1..], pred)
  }

  /** The one-sided p-value: the share of counted resamples, with one
      pseudocount added to both the count and the number of resamples. */
  function OneSidedP(count: nat, n: nat): (p: real)
    requires count <= n
    ensures 0.0 < 1.0 / (n + 1) as real <= p <= 1.0
    ensures p == 1.0 <==> count == n
  {
    (count + 1) as real / (n + 1) as real
  }

  function Min(a: real, b: real): real {
    if a <= b then a else b
  }

  /** The two-sided p-value: twice the one-sided value or twice its
      complement, whichever is smaller. */
  function TwoSidedP(p: real): (v: real)
    requires 0.0 <= p <= 1.0
    ensures 0.0 <= v <= 1.0
    ensures v <= 2.0 * p && v <= 2.0 - 2.0 * p
    ensures v == 2.0 * p || v == 2.0 - 2.0 * p
  {
    Min(2.0 - 2.0 * p, p * 2.0)
  }

  /** The p-value the engines report: the two-sided value when asked for,
      the one-sided value otherwise. */
  function ReportedP(count: nat, n: nat, twoSided: bool): (v: real)
    requires count <= n
    ensures 0.0 <= v <= 1.0
    ensures !twoSided ==> v > 0.0 && (v == 1.0 <==> count == n)
    ensures twoSided ==> (v == 0.0 <==> count == n)
  {
    var p := OneSidedP(count, n);
    if twoSided then TwoSidedP(p) else p
  }

  /** The two quantile levels of a confidence level `cl`: half the missing
      coverage `1 - cl` below, and its mirror image above. */
  function ConfidenceLevels(cl: real): (levels: (real, real))
    ensures levels.0 + levels.1 == 1.0
    ensures 0.0 <= cl <= 1.0 ==> 0.0 <= levels.0 <= levels.1 <= 1.0
  {
    var left := (1.0 - cl) / 2.0;
    (left, 1.0 - left)
  }

  /** A higher confidence level asks for quantiles further apart. */
  lemma ConfidenceLevelsWiden(cl1: real, cl2: real)
    requires cl1 <= cl2
    ensures ConfidenceLevels(cl2).0 <= ConfidenceLevels(cl1).0
    ensures ConfidenceLevels(cl1).1 <= ConfidenceLevels(cl2).1
  {
  }

  /** The confidence interval: the distribution's quantiles at the two
      levels of `ConfidenceLevels(cl)`, as a pair; `None` when the
      estimator indexes out of bounds. */
  function ConfidenceInterval(dist: seq<real>, cl: real): (ci: Option<(real, real)>)
    ensures |dist| == 0 ==> ci.None?
    ensures |dist| > 0 && 0.0 <= cl <= 1.0 ==> ci.Some?
    ensures ci.Some? && 0.0 <= cl <= 1.0 ==>
              Minimum(dist) <= ci.value.0 <= ci.value.1 <= Maximum(dist)
  {
    var levels := ConfidenceLevels(cl);
    IntervalOrdered(dist, cl);
    match Quantile(dist, [levels.0, levels.1])
    case Some(q) => Some((q[0], q[1]))
    case None => None
  }

  /** For a level in [0, 1], the two quantiles the interval reads are in order. */
  lemma IntervalOrdered(dist: seq<real>, cl: real)
    ensures var levels := ConfidenceLevels(cl);
            var q := Quantile(dist, [levels.0, levels.1]);
            q.Some? && 0.0 <= cl <= 1.0 ==> q.value[0] <= q.value[1]
  {
    var levels := ConfidenceLevels(cl);
    if 0.0 <= cl <= 1.0 && Quantile(dist, [levels.0, levels.1]).Some? {
      var sorted := Sort(dist);
      QuantileMonotone(sorted, levels.0, levels.1);
      assert QuantilesOfSorted(sorted, [levels.0, levels.1]) == Quantile(dist, [levels.0, levels.1]);
    }
  }

  /** For a fixed distribution the interval for a higher confidence level
      contains the interval for a lower one. */
  lemma ConfidenceIntervalNested(dist: seq<real>, cl1: real, cl2: real)
    requires |dist| > 0 && 0.0 <= cl1 <= cl2 <= 1.0
    ensures ConfidenceInterval(dist, cl2).value.0 <= ConfidenceInterval(dist, cl1).value.0
    ensures ConfidenceInterval(dist, cl1).value.1 <= ConfidenceInterval(dist, cl2).value.1
  {
    var sorted := Sort(dist);
    var l1, l2 := ConfidenceLevels(cl1), ConfidenceLevels(cl2);
    ConfidenceLevelsWiden(cl1, cl2);
    QuantileMonotone(sorted, l2.0, l1.0);
    QuantileMonotone(sorted, l1.1, l2.1);
    assert Quantile(dist, [l1.0, l1.1]) == QuantilesOfSorted(sorted, [l1.0, l1.1]);
    assert Quantile(dist, [l2.0, l2.1]) == QuantilesOfSorted(sorted, [l2.0, l2.1]);
  }

  /** With no resample counted, the p-value is the pseudocount floor
      `1 / (n + 1)`, doubled when two-sided. */
  lemma PseudocountFloor(n: nat, twoSided: bool)
    requires n > 0
    ensures ReportedP(0, n, twoSided) == (if twoSided then 2.0 else 1.0) / (n as real + 1.0)
  {
    var p := OneSidedP(0, n);
    assert p == 1.0 / (n as real + 1.0);
    assert 2.0 * p <= 1.0;
  }
}
