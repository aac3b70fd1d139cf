/** `bootstrap_vec` and `bootstrap`: resampling with replacement, either one
    vector, or two groups given as two samples or as two numerator/denominator
    pairs, drawn independently or paired. Resample `i` reads its indices from
    its own stream `StreamOf(gen, i)`; the parallel map over resamples is a
    sequence comprehension. */
module Bootstrapping {
  import opened Outcomes
  import opened Sums
  import opened Rng
  import opened Statistics
  import opened Inference

  /** The indices one resample draws for group 1 and for group 2. In ratio
      mode group 1's indices address both `args[0]` and `args[1]`, group 2's
      both `args[2]` and `args[3]`. */
  datatype Indices = Indices(first: seq<nat>, second: seq<nat>)

  /** What `bootstrap` returns: the p-value, both group statistics, the
      relative uplift and the confidence interval of the resampled uplifts. */
  datatype BootstrapResult = BootstrapResult(pValue: real, mean1: real, mean2: real, uplift: real, ci: (real, real)) {

    /** The uplift is relative: `mean_2 = mean_1 * (1 + uplift)`. */
    predicate RelativeUplift() {
      mean1 != 0.0 && mean1 * (1.0 + uplift) == mean2
    }
  }

  /** The reported tuple: the observed statistics and their uplift, with
      the p-value and the interval taken from the distribution. */
  function Report(obs: Groups, p: real, ci: (real, real)): (res: BootstrapResult)
    requires obs.Defined()
    ensures res.mean1 == obs.Stat1() && res.mean2 == obs.Stat2()
    ensures res.pValue == p && res.ci == ci
    ensures res.RelativeUplift()
  {
    BootstrapResult(p, obs.Stat1(), obs.Stat2(), obs.Uplift(), ci)
  }

  /** `bootstrap_vec`: `n` resample means, each over `|vec|` draws with
      replacement from `vec`. */
  function BootstrapVec(vec: seq<real>, n: u64, gen: Generator): (r: Result<seq<real>>)
    ensures |vec| == 0 <==> r == Err(EmptyRange)
    ensures r.Ok? ==> |r.value| == n as int
    ensures r.Ok? ==> forall i :: 0 <= i < |r.value| ==> Minimum(vec) <= r.value[i] <= Maximum(vec)
  {
    if |vec| == 0 then Err(EmptyRange)
    else Ok(seq(n as int, i requires 0 <= i < n as int => ResampleMean(vec, StreamOf(gen, i as u64))))
  }

  /** One resample of `bootstrap_vec`: the sum of `|vec|` in-range draws over
      `|vec|`, which lies between the least and the greatest element. */
  function ResampleMean(vec: seq<real>, s: Stream): (m: real)
    requires |vec| > 0
    ensures Minimum(vec) <= m <= Maximum(vec)
  {
    var idx := Draws(|vec|, |vec|, s, 0, 1);
    MeanAtBetween(vec, idx, Minimum(vec), Maximum(vec));
    SumAt(vec, idx) / |idx| as real
  }

  /** The structural checks of `bootstrap`, in the order the library makes
      them: the arity, the paired or per-pair length checks, and the
      non-empty ranges `Uniform::new(0, len)` needs. */
  function Validate(args: seq<seq<real>>, ind: bool): (r: Result<()>)
    ensures r.Ok? <==> WellFormed(args, ind)
    ensures !Arity(args) <==> r == Err(InvalidArity)
    ensures |args| == 2 && !ind && |args[0]| != |args[1]| ==> r == Err(PairedLengthMismatch)
    ensures |args| == 4 && !ind && !(|args[0]| == |args[1]| == |args[2]| == |args[3]|) ==>
              r == Err(PairedLengthMismatch)
    ensures |args| == 4 && ind && (|args[0]| != |args[1]| || |args[2]| != |args[3]|) ==>
              r == Err(PairLengthMismatch)
  {
    if |args| == 2 then
      if !ind && |args[0]| != |args[1]| then Err(PairedLengthMismatch)
      else if |args[0]| == 0 || |args[1]| == 0 then Err(EmptyRange)
      else Ok(())
    else if |args| == 4 then
      if !ind && !(|args[0]| == |args[1]| && |args[2]| == |args[3]| && |args[0]| == |args[2]|) then
        Err(PairedLengthMismatch)
      else if ind && (|args[0]| != |args[1]| || |args[2]| != |args[3]|) then
        Err(PairLengthMismatch)
      else if |args[0]| == 0 || |args[2]| == 0 then Err(EmptyRange)
      else Ok(())
    else
      Err(InvalidArity)
  }

  /** The inputs `bootstrap` accepts: 2 or 4 non-empty arrays, each
      numerator as long as its denominator, and all of equal length when
      paired. */
  predicate WellFormed(args: seq<seq<real>>, ind: bool) {
    && Arity(args)
    && (forall j :: 0 <= j < |args| ==> |args[j]| > 0)
    && (|args| == 4 ==> |args[0]| == |args[1]| && |args[2]| == |args[3]|)
    && (!ind ==> forall j :: 0 <= j < |args| ==> |args[j]| == |args[0]|)
  }

  /** Independent draws: `min(len1, len2)` shared steps, each drawing one
      index for group 1 then one for group 2, then a top-up of `|len1 - len2|`
      draws for the larger group alone. */
  function IndependentDraws(len1: nat, len2: nat, s: Stream): (d: Indices)
    requires len1 > 0 && len2 > 0
    ensures |d.first| == len1 && |d.second| == len2
    ensures InRange(d.first, len1) && InRange(d.second, len2)
  {
    var m := if len1 < len2 then len1 else len2;
    var top1 := if len1 > len2 then Draws(len1 - len2, len1, s, 2 * m, 1) else [];
    var top2 := if len2 > len1 then Draws(len2 - len1, len2, s, 2 * m, 1) else [];
    Indices(Draws(m, len1, s, 0, 2) + top1, Draws(m, len2, s, 1, 2) + top2)
  }

  /** Paired draws: one index per step from group 1's range, used for both groups. */
  function PairedDraws(len: nat, s: Stream): (d: Indices)
    requires len > 0
    ensures |d.first| == len && d.second == d.first
    ensures InRange(d.first, len)
  {
    var idx := Draws(len, len, s, 0, 1);
    Indices(idx, idx)
  }

  /** The draws of one resample. Every index is in bounds of every array it
      addresses, including group 1's indices on the second group in paired
      mode and on the denominators in ratio mode; this rests on the checks
      `WellFormed` collects. */
  function ResampleDraws(args: seq<seq<real>>, ind: bool, s: Stream): (d: Indices)
    requires WellFormed(args, ind)
    ensures InRange(d.first, |args[0]|)
    ensures |args| == 2 ==> InRange(d.second, |args[1]|)
    ensures |args| == 4 ==>
              InRange(d.first, |args[1]|) && InRange(d.second, |args[2]|) && InRange(d.second, |args[3]|)
    ensures ind ==> |d.first| == |args[0]| && |d.second| == |args[|args| / 2]|
    ensures !ind ==> |d.first| == |args[0]| && d.second == d.first
  {
    if ind then IndependentDraws(|args[0]|, |args[|args| / 2]|, s)
    else PairedDraws(|args[0]|, s)
  }

  /** The sums one resample accumulates. Paired resampling of two identical
      groups accumulates identical sums. */
  function ResampleSums(args: seq<seq<real>>, ind: bool, s: Stream): (g: Groups)
    requires WellFormed(args, ind)
    ensures |args| == 2 ==> g.Divisible()
    ensures !ind && SameGroups(args) ==> g.num1 == g.num2 && g.den1 == g.den2
  {
    var d := ResampleDraws(args, ind, s);
    if |args| == 2 then
      Groups(SumAt(args[0], d.first), |args[0]| as real, SumAt(args[1], d.second), |args[1]| as real)
    else
      Groups(SumAt(args[0], d.first), SumAt(args[1], d.first), SumAt(args[2], d.second), SumAt(args[3], d.second))
  }

  /** Group 1 and group 2 hold the same data. */
  predicate SameGroups(args: seq<seq<real>>)
    requires Arity(args)
  {
    if |args| == 2 then args[0] == args[1] else args[0] == args[2] && args[1] == args[3]
  }

  /** With two plain samples, each resampled mean lies within its own
      sample's range. */
  lemma ResampleMeansBetween(args: seq<seq<real>>, ind: bool, s: Stream)
    requires WellFormed(args, ind) && |args| == 2
    ensures Minimum(args[0]) <= ResampleSums(args, ind, s).Stat1() <= Maximum(args[0])
    ensures Minimum(args[1]) <= ResampleSums(args, ind, s).Stat2() <= Maximum(args[1])
  {
    var d := ResampleDraws(args, ind, s);
    var g := ResampleSums(args, ind, s);
    assert Minimum(args[0]) <= SumAt(args[0], d.first) / |d.first| as real <= Maximum(args[0]) by {
      MeanAtBetween(args[0], d.first, Minimum(args[0]), Maximum(args[0]));
    }
    assert Minimum(args[1]) <= SumAt(args[1], d.second) / |d.second| as real <= Maximum(args[1]) by {
      MeanAtBetween(args[1], d.second, Minimum(args[1]), Maximum(args[1]));
    }
    assert g.Stat1() == SumAt(args[0], d.first) / |d.first| as real;
    assert g.Stat2() == SumAt(args[1], d.second) / |d.second| as real;
  }

  /** Every division `bootstrap` performs on well-formed input has a non-zero
      divisor: the observed and every resampled baseline statistic, and their
      denominators. */
  predicate Nondegenerate(args: seq<seq<real>>, ind: bool, n: u64, gen: Generator) {
    WellFormed(args, ind) ==>
      && Observed(args).Defined()
      && forall i: u64 :: i < n ==> ResampleSums(args, ind, StreamOf(gen, i)).Defined()
  }

  /** `uplift_diffs`: the resampled uplifts, one per resample. */
  function Distribution(args: seq<seq<real>>, ind: bool, n: u64, gen: Generator): (dist: seq<real>)
    requires WellFormed(args, ind) && Nondegenerate(args, ind, n, gen)
    ensures |dist| == n as int
  {
    seq(n as int, i requires 0 <= i < n as int => ResampleSums(args, ind, StreamOf(gen, i as u64)).Uplift())
  }

  /** Each entry of the distribution is its resample's relative uplift:
      resample `i`'s baseline statistic grown by `dist[i]` is its other statistic. */
  lemma DistributionUplifts(args: seq<seq<real>>, ind: bool, n: u64, gen: Generator)
    requires WellFormed(args, ind) && Nondegenerate(args, ind, n, gen)
    ensures forall i :: 0 <= i < n as int ==>
              var g := ResampleSums(args, ind, StreamOf(gen, i as u64));
              g.GrowsBy(Distribution(args, ind, n, gen)[i])
  {
    var dist := Distribution(args, ind, n, gen);
    forall i | 0 <= i < n as int
      ensures ResampleSums(args, ind, StreamOf(gen, i as u64)).GrowsBy(dist[i])
    {
      var g := ResampleSums(args, ind, StreamOf(gen, i as u64));
      assert dist[i] == g.Uplift();
    }
  }

  function Positive(x: real): bool {
    x > 0.0
  }

  /** `bootstrap`: validate, compute the observed statistics, resample `n`
      times and aggregate. The panics become errors, including the quantile
      of an empty distribution (`n == 0`). */
  function Bootstrap(args: seq<seq<real>>, cl: real, n: u64, ind: bool, twoSided: bool, gen: Generator)
    : (r: Result<BootstrapResult>)
    requires Nondegenerate(args, ind, n, gen)
    ensures !Arity(args) ==> r == Err(InvalidArity)
    ensures r.Ok? ==> WellFormed(args, ind)
    ensures !WellFormed(args, ind) ==> r == Err(Validate(args, ind).error)
    ensures WellFormed(args, ind) && n > 0 && 0.0 <= cl <= 1.0 ==> r.Ok?
    ensures WellFormed(args, ind) && n == 0 ==> r == Err(QuantileOutOfRange)
    ensures r.Ok? && |args| == 2 ==>
              r.value.mean1 == Sum(args[0]) / |args[0]| as real && r.value.mean2 == Sum(args[1]) / |args[1]| as real
    ensures r.Ok? && |args| == 4 ==>
              r.value.mean1 == Sum(args[0]) / Sum(args[1]) && r.value.mean2 == Sum(args[2]) / Sum(args[3])
    ensures r.Ok? ==> r.value.RelativeUplift()
  {
    match Validate(args, ind)
    case Err(e) => Err(e)
    case Ok(_) =>
      var obs := Observed(args);
      var dist := Distribution(args, ind, n, gen);
      var count := Count(dist, Positive);
      match ConfidenceInterval(dist, cl)
      case None => Err(QuantileOutOfRange)
      case Some(ci) =>
        Ok(Report(obs, ReportedP(count, n as nat, twoSided), ci))
  }

  /** The one-sided p-value is the pseudocount-corrected share of positive
      resampled uplifts, and the reported p-value lies in `[0, 1]`.
      One-sided, it is 1 exactly when every resampled uplift is positive;
      two-sided, it is 0 exactly then. */
  lemma BootstrapPValue(args: seq<seq<real>>, cl: real, n: u64, ind: bool, twoSided: bool, gen: Generator)
    requires WellFormed(args, ind) && Nondegenerate(args, ind, n, gen)
    requires n > 0 && 0.0 <= cl <= 1.0
    ensures Bootstrap(args, cl, n, ind, twoSided, gen).Ok?
    ensures 0.0 <= Bootstrap(args, cl, n, ind, twoSided, gen).value.pValue <= 1.0
    ensures Bootstrap(args, cl, n, ind, twoSided, gen).value.pValue
            == ReportedP(Count(Distribution(args, ind, n, gen), Positive), n as nat, twoSided)
    ensures var p := Bootstrap(args, cl, n, ind, twoSided, gen).value.pValue;
            var allPositive := forall i :: 0 <= i < n as int ==> Distribution(args, ind, n, gen)[i] > 0.0;
            (!twoSided ==> (p == 1.0 <==> allPositive)) && (twoSided ==> (p == 0.0 <==> allPositive))
  {
    var dist := Distribution(args, ind, n, gen);
    var count := Count(dist, Positive);
    assert Bootstrap(args, cl, n, ind, twoSided, gen).value.pValue == ReportedP(count, n as nat, twoSided);
  }

  /** The confidence interval is ordered and lies within the range of the
      resampled uplifts. */
  lemma BootstrapInterval(args: seq<seq<real>>, cl: real, n: u64, ind: bool, twoSided: bool, gen: Generator)
    requires WellFormed(args, ind) && Nondegenerate(args, ind, n, gen)
    requires n > 0 && 0.0 <= cl <= 1.0
    ensures Bootstrap(args, cl, n, ind, twoSided, gen).Ok?
    ensures var ci := Bootstrap(args, cl, n, ind, twoSided, gen).value.ci;
            Minimum(Distribution(args, ind, n, gen)) <= ci.0 <= ci.1 <= Maximum(Distribution(args, ind, n, gen))
  {
    var dist := Distribution(args, ind, n, gen);
    assert Bootstrap(args, cl, n, ind, twoSided, gen).value.ci == ConfidenceInterval(dist, cl).value;
  }

  /** Paired resampling of two identical groups: every resampled uplift is
      zero, so none counts as positive, the interval collapses to zero and
      the p-value is the pseudocount floor `1 / (n + 1)`, doubled when
      two-sided. */
  lemma PairedSameGroups(args: seq<seq<real>>, cl: real, n: u64, twoSided: bool, gen: Generator)
    requires WellFormed(args, false) && SameGroups(args) && Nondegenerate(args, false, n, gen)
    requires n > 0 && 0.0 <= cl <= 1.0
    ensures Bootstrap(args, cl, n, false, twoSided, gen).Ok?
    ensures var r := Bootstrap(args, cl, n, false, twoSided, gen).value;
            r.pValue == (if twoSided then 2.0 else 1.0) / (n as real + 1.0)
    ensures var r := Bootstrap(args, cl, n, false, twoSided, gen).value;
            r.mean1 == r.mean2 == Observed(args).Stat1() && r.uplift == 0.0 && r.ci.0 == r.ci.1 == 0.0
  {
    var dist := Distribution(args, false, n, gen);
    var r := Bootstrap(args, cl, n, false, twoSided, gen);
    ZeroDistribution(args, n, gen);
    BootstrapPValue(args, cl, n, false, twoSided, gen);
    BootstrapInterval(args, cl, n, false, twoSided, gen);
    assert Count(dist, Positive) == 0;
    PseudocountFloor(n as nat, twoSided);
    var obs := Observed(args);
    assert obs.Stat1() == obs.Stat2();
    assert r.value.mean1 == r.value.mean2;
    assert r.value.RelativeUplift();
    assert 0.0 <= r.value.ci.0 <= r.value.ci.1 <= 0.0;
  }

  lemma ZeroDistribution(args: seq<seq<real>>, n: u64, gen: Generator)
    requires WellFormed(args, false) && SameGroups(args) && Nondegenerate(args, false, n, gen)
    ensures forall i :: 0 <= i < n as int ==> Distribution(args, false, n, gen)[i] == 0.0
    ensures n > 0 ==> Minimum(Distribution(args, false, n, gen)) == 0.0 == Maximum(Distribution(args, false, n, gen))
  {
    var dist := Distribution(args, false, n, gen);
    forall i | 0 <= i < n as int
      ensures dist[i] == 0.0
    {
      var g := ResampleSums(args, false, StreamOf(gen, i as u64));
      assert g.Stat1() == g.Stat2();
    }
  }

  /** Resampling two constant samples reproduces the observed sums, whatever
      indices are drawn. */
  lemma ConstantResample(c1: real, c2: real, len1: nat, len2: nat, ind: bool, s: Stream)
    requires len1 > 0 && len2 > 0 && (!ind ==> len1 == len2)
    ensures WellFormed([Constant(c1, len1), Constant(c2, len2)], ind)
    ensures var args := [Constant(c1, len1), Constant(c2, len2)];
            ResampleSums(args, ind, s) == Observed(args)
  {
    var a1, a2 := Constant(c1, len1), Constant(c2, len2);
    var args := [a1, a2];
    var d := ResampleDraws(args, ind, s);
    assert SumAt(a1, d.first) == Sum(a1) by {
      ConstantSumAt(c1, len1, d.first);
    }
    assert SumAt(a2, d.second) == Sum(a2) by {
      ConstantSumAt(c2, len2, d.second);
    }
    assert ResampleSums(args, ind, s) == Groups(SumAt(a1, d.first), len1 as real, SumAt(a2, d.second), len2 as real);
  }

  /** Any `len` draws from a constant sample sum to the whole sample. */
  lemma ConstantSumAt(c: real, len: nat, idx: seq<nat>)
    requires len > 0 && |idx| == len && InRange(idx, len)
    ensures SumAt(Constant(c, len), idx) == Sum(Constant(c, len))
  {
    SumAtConstant(Constant(c, len), idx, c);
    SumConstant(c, len);
  }

  /** Two constant samples: every resample reproduces the observed means, so
      every resampled uplift equals the observed uplift `(c2 - c1) / c1`, the
      interval collapses onto it, and either every resampled uplift counts as
      positive or none does. */
  lemma ConstantSamples(c1: real, c2: real, len1: nat, len2: nat, cl: real, n: u64, ind: bool, twoSided: bool,
                        gen: Generator)
    requires c1 != 0.0 && len1 > 0 && len2 > 0 && (!ind ==> len1 == len2)
    requires n > 0 && 0.0 <= cl <= 1.0
    ensures Nondegenerate([Constant(c1, len1), Constant(c2, len2)], ind, n, gen)
    ensures Bootstrap([Constant(c1, len1), Constant(c2, len2)], cl, n, ind, twoSided, gen).Ok?
    ensures var r := Bootstrap([Constant(c1, len1), Constant(c2, len2)], cl, n, ind, twoSided, gen).value;
            r.mean1 == c1 && r.mean2 == c2 && r.uplift == (c2 - c1) / c1
    ensures var r := Bootstrap([Constant(c1, len1), Constant(c2, len2)], cl, n, ind, twoSided, gen).value;
            r.ci.0 == r.ci.1 == (c2 - c1) / c1
    ensures var r := Bootstrap([Constant(c1, len1), Constant(c2, len2)], cl, n, ind, twoSided, gen).value;
            r.pValue == ReportedP(if Away(c1, c2) then n as nat else 0, n as nat, twoSided)
  {
    var args := [Constant(c1, len1), Constant(c2, len2)];
    ConstantObserved(c1, c2, len1, len2);
    ConstantDistribution(c1, c2, len1, len2, n, ind, gen);
    CollapsedResult(args, cl, n, ind, twoSided, gen, (c2 - c1) / c1);
    UpliftSign(c1, c2);
  }

  /** When every resampled uplift equals `u`, the interval collapses onto
      `u` and either every resample counts as positive or none does. */
  lemma CollapsedResult(args: seq<seq<real>>, cl: real, n: u64, ind: bool, twoSided: bool, gen: Generator, u: real)
    requires WellFormed(args, ind) && Nondegenerate(args, ind, n, gen)
    requires n > 0 && 0.0 <= cl <= 1.0
    requires forall i :: 0 <= i < n as int ==> Distribution(args, ind, n, gen)[i] == u
    ensures Bootstrap(args, cl, n, ind, twoSided, gen).Ok?
    ensures var r := Bootstrap(args, cl, n, ind, twoSided, gen).value;
            r.ci.0 == u && r.ci.1 == u
    ensures Bootstrap(args, cl, n, ind, twoSided, gen).value.pValue
            == ReportedP(if u > 0.0 then n as nat else 0, n as nat, twoSided)
  {
    var dist := Distribution(args, ind, n, gen);
    BootstrapPValue(args, cl, n, ind, twoSided, gen);
    BootstrapInterval(args, cl, n, ind, twoSided, gen);
    assert Minimum(dist) == u == Maximum(dist);
    assert Count(dist, Positive) == if u > 0.0 then n as nat else 0;
  }

  /** The observed statistics of two constant samples are the constants. */
  lemma ConstantObserved(c1: real, c2: real, len1: nat, len2: nat)
    requires c1 != 0.0 && len1 > 0 && len2 > 0
    ensures var obs := Observed([Constant(c1, len1), Constant(c2, len2)]);
            obs.Defined() && obs.Stat1() == c1 && obs.Stat2() == c2 && obs.Uplift() == (c2 - c1) / c1
  {
    SumConstant(c1, len1);
    SumConstant(c2, len2);
  }

  /** Every resampled uplift of two constant samples is the observed one. */
  lemma ConstantDistribution(c1: real, c2: real, len1: nat, len2: nat, n: u64, ind: bool, gen: Generator)
    requires c1 != 0.0 && len1 > 0 && len2 > 0 && (!ind ==> len1 == len2)
    ensures WellFormed([Constant(c1, len1), Constant(c2, len2)], ind)
    ensures Nondegenerate([Constant(c1, len1), Constant(c2, len2)], ind, n, gen)
    ensures forall i :: 0 <= i < n as int ==>
              Distribution([Constant(c1, len1), Constant(c2, len2)], ind, n, gen)[i] == (c2 - c1) / c1
  {
    var args := [Constant(c1, len1), Constant(c2, len2)];
    ConstantObserved(c1, c2, len1, len2);
    var obs := Observed(args);
    forall i: u64 | i < n
      ensures ResampleSums(args, ind, StreamOf(gen, i)) == obs
    {
      ConstantResample(c1, c2, len1, len2, ind, StreamOf(gen, i));
    }
  }

  /** A relative change is positive exactly when the value moves away from
      zero: up from a positive baseline, down from a negative one. */
  lemma UpliftSign(before: real, after: real)
    requires before != 0.0
    ensures (after - before) / before > 0.0 <==> Away(before, after)
  {
    if before > 0.0 {
      assert (after - before) / before > 0.0 <==> after - before > 0.0;
    } else {
      assert (after - before) / before > 0.0 <==> after - before < 0.0;
    }
  }

  predicate Away(before: real, after: real) {
    (before > 0.0 && after > before) || (before < 0.0 && after < before)
  }
}
