/** `permutation_test`: pool the two groups, shuffle the pool's positions,
    give the first `len_a` shuffled positions to group A and the rest to
    group B, and compare the groups' statistics; repeated once per resample
    to build the null distribution of the difference. Resample `i` shuffles
    with its own stream `StreamOf(gen, i)`. */
module Perm {
  import opened Outcomes
  import opened Sums
  import opened Rng
  import opened Statistics
  import opened Inference

  /** What `permutation_test` returns: the p-value, the relative uplift, the
      observed difference and the confidence interval of the resampled
      differences. */
  datatype PermResult = PermResult(pValue: real, uplift: real, observedDiff: real, ci: (real, real)) {

    /** The observed difference is `stat_2 - stat_1` and the uplift is the
        same difference relative to the baseline: `stat_2 = stat_1 * (1 + uplift)`. */
    predicate Describes(obs: Groups) {
      obs.Defined() && observedDiff == obs.Stat2() - obs.Stat1() && obs.Stat1() * (1.0 + uplift) == obs.Stat2()
    }
  }

  /** The inputs `permutation_test` accepts: two samples, or two
      numerator/denominator pairs whose arrays pair up. Empty arrays pass
      the checks; their means are excluded later by `Nondegenerate`. */
  predicate WellFormed(args: seq<seq<real>>) {
    Arity(args) && (|args| == 4 ==> |args[0]| == |args[1]| && |args[2]| == |args[3]|)
  }

  /** The arity check, then the pair-length check of the ratio mode. */
  function Validate(args: seq<seq<real>>): (r: Result<()>)
    ensures r.Ok? <==> WellFormed(args)
    ensures !Arity(args) <==> r == Err(InvalidArity)
    ensures Arity(args) && !WellFormed(args) ==> r == Err(PairLengthMismatch)
  {
    if |args| == 2 then Ok(())
    else if |args| == 4 then
      if |args[0]| != |args[1]| || |args[2]| != |args[3]| then Err(PairLengthMismatch) else Ok(())
    else Err(InvalidArity)
  }

  /** `combined` (two arrays) or `numerators` (four): group A's values, then group B's. */
  function Pool(args: seq<seq<real>>): (pool: seq<real>)
    requires Arity(args)
    ensures |pool| == |args[0]| + |args[|args| / 2]|
    ensures Sum(pool) == Sum(args[0]) + Sum(args[|args| / 2])
  {
    SumAppend(args[0], args[|args| / 2]);
    args[0] + args[|args| / 2]
  }

  /** `denominators`, laid out like the numerators. */
  function DenominatorPool(args: seq<seq<real>>): (dens: seq<real>)
    requires WellFormed(args) && |args| == 4
    ensures |dens| == |Pool(args)|
    ensures Sum(dens) == Sum(args[1]) + Sum(args[3])
  {
    SumAppend(args[1], args[3]);
    args[1] + args[3]
  }

  /** `ids`: the positions `0..len` in shuffled order; every position occurs exactly once. */
  function PermutedIds(len: nat, s: Stream): (ids: seq<nat>)
    ensures |ids| == len
    ensures forall p: nat :: multiset(ids)[p] == if p < len then 1 else 0
  {
    var ids := Shuffle(Range(0, len), s);
    forall p: nat
      ensures multiset(ids)[p] == if p < len then 1 else 0
    {
      RangeCount(0, len, p);
    }
    ids
  }

  /** Positions `0..len` each occurring once make up the multiset of `Range(0, len)`. */
  lemma PositionsOnce(ids: seq<nat>, len: nat)
    requires forall p: nat :: multiset(ids)[p] == if p < len then 1 else 0
    ensures multiset(ids) == multiset(Range(0, len))
    ensures InRange(ids, len)
  {
    forall p: nat
      ensures multiset(ids)[p] == multiset(Range(0, len))[p]
    {
      RangeCount(0, len, p);
    }
    assert InRange(Range(0, len), len);
    MultisetInRange(Range(0, len), ids, len);
  }

  /** Splitting an arrangement of the pool's positions at `la` gives every
      position to exactly one of the two groups, so the groups' sums make
      up the pool's total. */
  lemma PartitionCoversPool(pool: seq<real>, ids: seq<nat>, la: nat)
    requires |ids| == |pool| && la <= |ids|
    requires forall p: nat :: multiset(ids)[p] == if p < |pool| then 1 else 0
    ensures InRange(ids[..la], |pool|) && InRange(ids[la..], |pool|)
    ensures forall p: nat :: p < |pool| ==> multiset(ids[..la])[p] + multiset(ids[la..])[p] == 1
    ensures SumAt(pool, ids[..la]) + SumAt(pool, ids[la..]) == Sum(pool)
  {
    var all := Range(0, |pool|);
    PositionsOnce(ids, |pool|);
    assert ids == ids[..la] + ids[la..];
    assert multiset(ids) == multiset(ids[..la]) + multiset(ids[la..]);
    forall p: nat | p < |pool|
      ensures multiset(ids[..la])[p] + multiset(ids[la..])[p] == 1
    {
      assert multiset(ids)[p] == 1;
    }
    SumAtAppend(pool, ids[..la], ids[la..]);
    SumAtPermutation(pool, ids, all);
    SumAtRange(pool, 0, |pool|);
    assert pool[0..|pool|] == pool;
  }

  /** The sums of group A (the positions `ids[..len_a]`) and of group B (the
      rest). In the ratio mode every position addresses both pools. */
  function SplitSums(args: seq<seq<real>>, ids: seq<nat>): (g: Groups)
    requires WellFormed(args) && InRange(ids, |Pool(args)|) && |args[0]| <= |ids|
    ensures g.num1 + g.num2 == SumAt(Pool(args), ids)
    ensures |args| == 2 ==> g.den1 == |args[0]| as real && g.den2 == |args[1]| as real
    ensures |args| == 4 ==> g.den1 + g.den2 == SumAt(DenominatorPool(args), ids)
  {
    var pool, la := Pool(args), |args[0]|;
    assert InRange(ids[..la], |pool|) && InRange(ids[la..], |pool|);
    assert ids == ids[..la] + ids[la..];
    SumAtAppend(pool, ids[..la], ids[la..]);
    if |args| == 2 then
      Groups(SumAt(pool, ids[..la]), la as real, SumAt(pool, ids[la..]), |args[1]| as real)
    else
      var dens := DenominatorPool(args);
      SumAtAppend(dens, ids[..la], ids[la..]);
      Groups(SumAt(pool, ids[..la]), SumAt(dens, ids[..la]), SumAt(pool, ids[la..]), SumAt(dens, ids[la..]))
  }

  /** Splitting the positions in their original order gives back the
      observed groups: the observed statistic is the one resample that
      leaves the pool as it is. */
  lemma IdentitySplit(args: seq<seq<real>>)
    requires WellFormed(args)
    ensures InRange(Range(0, |Pool(args)|), |Pool(args)|)
    ensures SplitSums(args, Range(0, |Pool(args)|)) == Observed(args)
  {
    var pool, la, len := Pool(args), |args[0]|, |Pool(args)|;
    var ids := Range(0, len);
    assert ids[..la] == Range(0, la);
    assert ids[la..] == Range(la, len);
    SumAtRange(pool, 0, la);
    SumAtRange(pool, la, len);
    assert pool[0..la] == args[0];
    assert pool[la..len] == args[|args| / 2];
    if |args| == 4 {
      var dens := DenominatorPool(args);
      assert dens == args[1] + args[3] && |args[1]| == la;
      SumAtRange(dens, 0, la);
      SumAtRange(dens, la, len);
      assert dens[0..la] == args[1];
      assert dens[la..len] == args[3];
    }
  }

  /** The sums of one resample. A permutation only reassigns values between
      the groups: the groups share out the pooled totals, and in the
      two-sample mode each group keeps its size. */
  function ResampleSums(args: seq<seq<real>>, s: Stream): (g: Groups)
    requires WellFormed(args)
    ensures g.num1 + g.num2 == Sum(args[0]) + Sum(args[|args| / 2])
    ensures |args| == 2 ==> g.den1 == |args[0]| as real && g.den2 == |args[1]| as real
    ensures |args| == 4 ==> g.den1 + g.den2 == Sum(args[1]) + Sum(args[3])
  {
    var ids := PermutedIds(|Pool(args)|, s);
    SplitConserves(args, ids);
    SplitSums(args, ids)
  }

  /** Any arrangement of the pool's positions shares out the pooled totals. */
  lemma SplitConserves(args: seq<seq<real>>, ids: seq<nat>)
    requires WellFormed(args) && |ids| == |Pool(args)|
    requires forall p: nat :: multiset(ids)[p] == if p < |Pool(args)| then 1 else 0
    ensures InRange(ids, |Pool(args)|)
    ensures |ids[..|args[0]|]| == |args[0]| && |ids[|args[0]|..]| == |args[|args| / 2]|
    ensures var g := SplitSums(args, ids);
            && g.num1 + g.num2 == Sum(args[0]) + Sum(args[|args| / 2])
            && (|args| == 2 ==> g.den1 == |args[0]| as real && g.den2 == |args[1]| as real)
            && (|args| == 4 ==> g.den1 + g.den2 == Sum(args[1]) + Sum(args[3]))
  {
    var pool := Pool(args);
    PositionsOnce(ids, |pool|);
    PartitionCoversPool(pool, ids, |args[0]|);
    if |args| == 4 {
      PartitionCoversPool(DenominatorPool(args), ids, |args[0]|);
    }
  }

  /** Every division `permutation_test` performs on well-formed input has a
      non-zero divisor: the observed statistics and the baseline, and every
      resample's statistics. */
  predicate Nondegenerate(args: seq<seq<real>>, n: u64, gen: Generator) {
    WellFormed(args) ==>
      && Observed(args).Defined()
      && forall i: u64 :: i < n ==> ResampleSums(args, StreamOf(gen, i)).Divisible()
  }

  /** `vec_diffs`: the resampled differences, one per resample. */
  function Distribution(args: seq<seq<real>>, n: u64, gen: Generator): (dist: seq<real>)
    requires WellFormed(args) && Nondegenerate(args, n, gen)
    ensures |dist| == n as int
  {
    seq(n as int, i requires 0 <= i < n as int => ResampleSums(args, StreamOf(gen, i as u64)).Difference())
  }

  /** Each entry of the distribution is its resample's difference: resample
      `i`'s group A statistic plus `dist[i]` is its group B statistic. */
  lemma DistributionDifferences(args: seq<seq<real>>, n: u64, gen: Generator)
    requires WellFormed(args) && Nondegenerate(args, n, gen)
    ensures forall i :: 0 <= i < n as int ==>
              var g := ResampleSums(args, StreamOf(gen, i as u64));
              g.Divisible() && g.Stat1() + Distribution(args, n, gen)[i] == g.Stat2()
  {
  }

  /** The filter `observed_diff > d`. */
  function Below(bound: real): real -> bool {
    x => bound > x
  }

  /** The reported tuple: the observed difference and its uplift, with the
      p-value and the interval taken from the distribution. */
  function Report(obs: Groups, p: real, ci: (real, real)): (res: PermResult)
    requires obs.Defined()
    ensures res.pValue == p && res.ci == ci
    ensures res.Describes(obs)
  {
    PermResult(p, obs.Uplift(), obs.Difference(), ci)
  }

  /** `permutation_test`. The arity and pair-length panics become errors,
      and so does the quantile of an empty distribution (`n == 0`). */
  function PermutationTest(args: seq<seq<real>>, cl: real, n: u64, twoSided: bool, gen: Generator)
    : (r: Result<PermResult>)
    requires Nondegenerate(args, n, gen)
    ensures !Arity(args) ==> r == Err(InvalidArity)
    ensures Arity(args) && !WellFormed(args) ==> r == Err(PairLengthMismatch)
    ensures r.Ok? ==> WellFormed(args)
    ensures WellFormed(args) && n > 0 && 0.0 <= cl <= 1.0 ==> r.Ok?
    ensures WellFormed(args) && n == 0 ==> r == Err(QuantileOutOfRange)
    ensures r.Ok? && |args| == 2 ==>
              r.value.observedDiff == Sum(args[1]) / |args[1]| as real - Sum(args[0]) / |args[0]| as real
    ensures r.Ok? && |args| == 4 ==>
              r.value.observedDiff == Sum(args[2]) / Sum(args[3]) - Sum(args[0]) / Sum(args[1])
    ensures r.Ok? ==> r.value.Describes(Observed(args))
  {
    match Validate(args)
    case Err(e) => Err(e)
    case Ok(_) =>
      var obs := Observed(args);
      var dist := Distribution(args, n, gen);
      var count := Count(dist, Below(obs.Difference()));
      match ConfidenceInterval(dist, cl)
      case None => Err(QuantileOutOfRange)
      case Some(ci) =>
        Ok(Report(obs, ReportedP(count, n as nat, twoSided), ci))
  }

  /** The one-sided p-value is the pseudocount-corrected share of resampled
      differences below the observed one, and the reported p-value lies in
      `[0, 1]`. One-sided, it is 1 exactly when every resampled difference is
      below the observed one; two-sided, it is 0 exactly then. */
  lemma PermPValue(args: seq<seq<real>>, cl: real, n: u64, twoSided: bool, gen: Generator)
    requires WellFormed(args) && Nondegenerate(args, n, gen)
    requires n > 0 && 0.0 <= cl <= 1.0
    ensures PermutationTest(args, cl, n, twoSided, gen).Ok?
    ensures 0.0 <= PermutationTest(args, cl, n, twoSided, gen).value.pValue <= 1.0
    ensures PermutationTest(args, cl, n, twoSided, gen).value.pValue
            == ReportedP(Count(Distribution(args, n, gen), Below(Observed(args).Difference())), n as nat, twoSided)
    ensures var r := PermutationTest(args, cl, n, twoSided, gen).value;
            var allBelow := forall i :: 0 <= i < n as int ==> Distribution(args, n, gen)[i] < r.observedDiff;
            (!twoSided ==> (r.pValue == 1.0 <==> allBelow)) && (twoSided ==> (r.pValue == 0.0 <==> allBelow))
  {
    var obs := Observed(args);
    var dist := Distribution(args, n, gen);
    var count := Count(dist, Below(obs.Difference()));
    assert PermutationTest(args, cl, n, twoSided, gen).value.pValue == ReportedP(count, n as nat, twoSided);
  }

  /** The confidence interval is ordered and lies within the range of the
      resampled differences. */
  lemma PermInterval(args: seq<seq<real>>, cl: real, n: u64, twoSided: bool, gen: Generator)
    requires WellFormed(args) && Nondegenerate(args, n, gen)
    requires n > 0 && 0.0 <= cl <= 1.0
    ensures PermutationTest(args, cl, n, twoSided, gen).Ok?
    ensures var ci := PermutationTest(args, cl, n, twoSided, gen).value.ci;
            Minimum(Distribution(args, n, gen)) <= ci.0 <= ci.1 <= Maximum(Distribution(args, n, gen))
  {
    var dist := Distribution(args, n, gen);
    assert PermutationTest(args, cl, n, twoSided, gen).value.ci == ConfidenceInterval(dist, cl).value;
  }

  /** The two groups with their roles exchanged. */
  function Swapped(args: seq<seq<real>>): (t: seq<seq<real>>)
    requires Arity(args)
    ensures |t| == |args|
  {
    if |args| == 2 then [args[1], args[0]] else [args[2], args[3], args[0], args[1]]
  }

  /** Exchanging the groups keeps the input acceptable and negates the
      observed difference. */
  lemma SwappedDifference(args: seq<seq<real>>)
    requires Arity(args)
    ensures WellFormed(Swapped(args)) <==> WellFormed(args)
    ensures Observed(Swapped(args)).Divisible() <==> Observed(args).Divisible()
    ensures Observed(args).Divisible() ==> Observed(Swapped(args)).Difference() == -Observed(args).Difference()
  {
  }

  /** When both observed statistics have the same sign, exchanging the
      groups turns a positive uplift into a negative one and back. */
  lemma SwappedUplift(args: seq<seq<real>>)
    requires Arity(args) && Observed(args).Defined() && Observed(Swapped(args)).Defined()
    requires Observed(args).Stat1() * Observed(args).Stat2() > 0.0
    ensures Observed(args).Uplift() > 0.0 <==> Observed(Swapped(args)).Uplift() < 0.0
    ensures Observed(args).Uplift() == 0.0 <==> Observed(Swapped(args)).Uplift() == 0.0
  {
    var g, t := Observed(args), Observed(Swapped(args));
    SwappedDifference(args);
    assert t.Stat1() == g.Stat2() && t.Stat2() == g.Stat1();
    var a, b := g.Stat1(), g.Stat2();
    assert g.Uplift() == (b - a) / a && t.Uplift() == (a - b) / b;
    if a > 0.0 {
      assert b > 0.0;
      assert (b - a) / a > 0.0 <==> b > a;
      assert (a - b) / b < 0.0 <==> a < b;
    } else {
      assert b < 0.0;
      assert (b - a) / a > 0.0 <==> b < a;
      assert (a - b) / b < 0.0 <==> a > b;
    }
  }

  /** With statistics of opposite signs the uplift keeps its sign under the
      exchange: `-1` against `2` has uplift `-3`, and `2` against `-1` has
      uplift `-1.5`. */
  lemma SwappedUpliftOppositeSigns()
    ensures Observed([[-1.0], [2.0]]).Uplift() == -3.0
    ensures Observed(Swapped([[-1.0], [2.0]])).Uplift() == -1.5
  {
    var args := [[-1.0], [2.0]];
    assert Sum(args[0]) == -1.0 && Sum(args[1]) == 2.0;
    assert Swapped(args) == [[2.0], [-1.0]];
  }

  /** In the two-sample mode a resample is fixed by group A's sum: group B
      holds the rest of the pooled total, so its mean follows. */
  lemma TwoSampleComplement(args: seq<seq<real>>, s: Stream)
    requires WellFormed(args) && |args| == 2 && |args[0]| > 0 && |args[1]| > 0
    ensures var g := ResampleSums(args, s);
            g.Stat2() == (Sum(args[0]) + Sum(args[1]) - g.num1) / |args[1]| as real
  {
  }

  /** Two samples drawn from one constant `c`: every rearrangement of the
      pool gives both groups the mean `c`, so every resampled difference is
      zero, none lies below the observed difference of zero, the p-value is
      the pseudocount floor and the interval collapses onto zero. */
  lemma ConstantPool(c: real, la: nat, lb: nat, cl: real, n: u64, twoSided: bool, gen: Generator)
    requires c != 0.0 && la > 0 && lb > 0
    requires n > 0 && 0.0 <= cl <= 1.0
    ensures Nondegenerate([Constant(c, la), Constant(c, lb)], n, gen)
    ensures PermutationTest([Constant(c, la), Constant(c, lb)], cl, n, twoSided, gen).Ok?
    ensures var r := PermutationTest([Constant(c, la), Constant(c, lb)], cl, n, twoSided, gen).value;
            r.observedDiff == 0.0 && r.uplift == 0.0 && r.ci.0 == 0.0 && r.ci.1 == 0.0
    ensures var r := PermutationTest([Constant(c, la), Constant(c, lb)], cl, n, twoSided, gen).value;
            r.pValue == (if twoSided then 2.0 else 1.0) / (n as real + 1.0)
  {
    var args := [Constant(c, la), Constant(c, lb)];
    ConstantPoolObserved(c, la, lb);
    ConstantPoolDistribution(c, la, lb, n, gen);
    NullResult(args, cl, n, twoSided, gen);
  }

  /** When the groups tie and every resampled difference is zero, the test
      reports no difference, an interval collapsed onto zero and the
      pseudocount floor as p-value. */
  lemma NullResult(args: seq<seq<real>>, cl: real, n: u64, twoSided: bool, gen: Generator)
    requires WellFormed(args) && Nondegenerate(args, n, gen)
    requires n > 0 && 0.0 <= cl <= 1.0
    requires Observed(args).Stat1() == Observed(args).Stat2()
    requires forall i :: 0 <= i < n as int ==> Distribution(args, n, gen)[i] == 0.0
    ensures PermutationTest(args, cl, n, twoSided, gen).Ok?
    ensures var r := PermutationTest(args, cl, n, twoSided, gen).value;
            r.observedDiff == 0.0 && r.uplift == 0.0 && r.ci.0 == 0.0 && r.ci.1 == 0.0
    ensures var r := PermutationTest(args, cl, n, twoSided, gen).value;
            r.pValue == (if twoSided then 2.0 else 1.0) / (n as real + 1.0)
  {
    var dist := Distribution(args, n, gen);
    PermPValue(args, cl, n, twoSided, gen);
    PermInterval(args, cl, n, twoSided, gen);
    assert Count(dist, Below(0.0)) == 0;
    PseudocountFloor(n as nat, twoSided);
    var r := PermutationTest(args, cl, n, twoSided, gen).value;
    assert r.Describes(Observed(args));
    assert Minimum(dist) == 0.0 == Maximum(dist);
  }

  /** The observed groups of two constant samples have the same mean `c`. */
  lemma ConstantPoolObserved(c: real, la: nat, lb: nat)
    requires c != 0.0 && la > 0 && lb > 0
    ensures var obs := Observed([Constant(c, la), Constant(c, lb)]);
            obs.Defined() && obs.Stat1() == c && obs.Stat2() == c
  {
    SumConstant(c, la);
    SumConstant(c, lb);
  }

  /** Every resampled difference of a constant pool is zero. */
  lemma ConstantPoolDistribution(c: real, la: nat, lb: nat, n: u64, gen: Generator)
    requires c != 0.0 && la > 0 && lb > 0
    ensures Nondegenerate([Constant(c, la), Constant(c, lb)], n, gen)
    ensures forall i :: 0 <= i < n as int ==> Distribution([Constant(c, la), Constant(c, lb)], n, gen)[i] == 0.0
  {
    var args := [Constant(c, la), Constant(c, lb)];
    ConstantPoolObserved(c, la, lb);
    forall i: u64 | i < n
      ensures ResampleSums(args, StreamOf(gen, i)).Divisible()
      ensures ResampleSums(args, StreamOf(gen, i)).Difference() == 0.0
    {
      ConstantPoolResample(c, la, lb, StreamOf(gen, i));
    }
  }

  /** One rearrangement of a constant pool: both groups have mean `c`. */
  lemma ConstantPoolResample(c: real, la: nat, lb: nat, s: Stream)
    requires la > 0 && lb > 0
    ensures WellFormed([Constant(c, la), Constant(c, lb)])
    ensures var g := ResampleSums([Constant(c, la), Constant(c, lb)], s);
            g.Divisible() && g.Stat1() == c && g.Stat2() == c
  {
    var args := [Constant(c, la), Constant(c, lb)];
    var pool := Pool(args);
    ConstantPoolValues(c, la, lb);
    var ids := PermutedIds(|pool|, s);
    PositionsOnce(ids, |pool|);
    ConstantSplit(pool, ids, la, c);
    assert ResampleSums(args, s) == SplitSums(args, ids);
  }

  /** Splitting any arrangement of a constant pool gives both parts mean `c`. */
  lemma ConstantSplit(pool: seq<real>, ids: seq<nat>, la: nat, c: real)
    requires 0 < la < |ids| && |pool| > 0 && InRange(ids, |pool|)
    requires forall k :: 0 <= k < |pool| ==> pool[k] == c
    ensures InRange(ids[..la], |pool|) && InRange(ids[la..], |pool|)
    ensures SumAt(pool, ids[..la]) / la as real == c
    ensures SumAt(pool, ids[la..]) / (|ids| - la) as real == c
  {
    MeanAtBetween(pool, ids[..la], c, c);
    MeanAtBetween(pool, ids[la..], c, c);
  }

  lemma ConstantPoolValues(c: real, la: nat, lb: nat)
    ensures WellFormed([Constant(c, la), Constant(c, lb)])
    ensures var pool := Pool([Constant(c, la), Constant(c, lb)]);
            |pool| == la + lb && forall k :: 0 <= k < |pool| ==> pool[k] == c
  {
  }
}
