# PyLaRs resampling core in Dafny

A model of the deterministic logic of PyLaRs, a Rust library (exposed to
Python) for Monte-Carlo A/B-test inference. It covers:

- `permutation_test`: pool two groups, shuffle the pool's positions, split
  them at the first group's size, and compare the groups' statistics;
- `bootstrap_vec` and `bootstrap`: resample with replacement, either one
  vector or two groups, independently or paired;
- the aggregation both engines share: the pseudocount-corrected one-sided
  p-value, its two-sided combination `min(2 - 2p, 2p)`, and the confidence
  interval read off the quantile estimator;
- `MathUtil::quantile`, with its sort and its linear interpolation at
  `pos = q * n + (1 - q) - 1`;
- `calculate_uplift`;
- `binom`, with its do-while `fold`.

A group is either a plain sample, whose statistic is its mean, or a
numerator/denominator pair, whose statistic is `sum(num) / sum(den)`.

Values are Dafny `real`s. Each resample `i` reads raw generator outputs from
its own stream `StreamOf(gen, i)`. The stream is seeded by
`Seed(i) = i ^ i * 0x9e3779b97f4a7c15`, modelled exactly with 64-bit
wrap-around. The generator `gen` itself is a parameter. A uniform draw from
`[0, len)` reduces one raw output modulo `len`, and a shuffle is a
Fisher-Yates pass over the stream. Every property below holds for every
generator.

The library's panics are modelled as `Err` values of `Outcomes.Error`:

- `InvalidArity`: neither 2 nor 4 arrays;
- `PairedLengthMismatch`: paired arrays of different lengths;
- `PairLengthMismatch`: a numerator array and its denominator array differ in length;
- `EmptyRange`: `Uniform::new(0, 0)`;
- `QuantileOutOfRange`: `sorted[j]` out of bounds, for example with zero resamples.

Division by zero, which the library lets turn into NaN or infinity, is
excluded by each engine's `Nondegenerate` precondition. That precondition
says that every division the engine performs on well-formed input has a
non-zero divisor. It constrains well-formed input only, so malformed input
always reaches its error.

Modules, one per file:

- `Outcomes`: the `Result` and `Option` types and the errors.
- `Sums`: sums over index sequences.
- `Tools`: `calculate_uplift` and the quantile estimator.
- `Rng`: seeds, uniform draws and the shuffle.
- `Statistics`: group statistics.
- `Inference`: p-values and the interval.
- `Bootstrapping`: `bootstrap_vec` and `bootstrap`.
- `Perm`: `permutation_test`.
- `BinomCoef`: `binom`.

## Model

| member | source | states |
|---|---|---|
| Tools.CalculateUplift | src/.ipynb_checkpoints/tools-checkpoint.rs:28-31 | The uplift is relative: `before * (1 + u) == after`. It is zero exactly when `after == before`. From a positive baseline it is positive exactly when `after > before`. |
| Tools.Sort | src/.ipynb_checkpoints/tools-checkpoint.rs:10-11 | The sorted copy is sorted and is a permutation of the data. |
| Tools.SortedUnique | src/.ipynb_checkpoints/tools-checkpoint.rs:10-11 | Two sorted permutations of the same values are equal, so any sorting algorithm yields the same copy. |
| Tools.PositionScaled | src/.ipynb_checkpoints/tools-checkpoint.rs:14-15 | The interpolation position `q * n + (1 - q) - 1` equals `q * (n - 1)`. |
| Tools.PositionMonotone | src/.ipynb_checkpoints/tools-checkpoint.rs:14-15 | The position grows with the quantile. |
| Tools.PositionInRange | src/.ipynb_checkpoints/tools-checkpoint.rs:14-17 | For a non-empty input and `q` in [0, 1]: the position lies in `[0, n - 1]`, `j` is a valid index, and the weight `g` lies in [0, 1). |
| Tools.QuantileAt | src/.ipynb_checkpoints/tools-checkpoint.rs:13-22 | At one quantile, the estimator never indexes out of bounds for a non-empty input and `q` in [0, 1]. It always fails on an empty input and returns the element of a singleton. On sorted data the result lies between the first and last elements. |
| Tools.QuantileEndpoints | src/.ipynb_checkpoints/tools-checkpoint.rs:15-22 | `q = 0` yields the smallest element. `q = 1` yields the largest, through the branch where `j + 1` is out of range. |
| Tools.QuantileMonotone | src/.ipynb_checkpoints/tools-checkpoint.rs:15-21 | Over sorted data, `q1 <= q2` gives `quantile(q1) <= quantile(q2)`. |
| Tools.QuantilesOfSorted | src/.ipynb_checkpoints/tools-checkpoint.rs:12-24 | One value per requested quantile, in request order. The call fails exactly when one of them would index out of bounds. |
| Tools.Quantile | src/.ipynb_checkpoints/tools-checkpoint.rs:8-25 | The output has one value per quantile. An empty input fails. A non-empty input with every `q` in [0, 1] succeeds, and every result lies within [min, max] of the input. |
| Tools.QuantileIgnoresOrder | src/.ipynb_checkpoints/tools-checkpoint.rs:10-11 | The result depends only on the multiset of the input values. |
| Tools.QuantileSingleton | src/.ipynb_checkpoints/tools-checkpoint.rs:16-22 | A one-element input yields that element at every quantile. |
| Rng.Seed | src/bootstrapping.rs:28 | Every seed is even: the constant is odd, so the product keeps the lowest bit of `i` and the XOR clears it. Only half of the 64-bit seed space is ever used. |
| Rng.SeedCollision | src/bootstrapping.rs:28 | Seeds are not unique across `u64` indices: resample `2^62` gets the same seed as resample 0, namely 0. |
| Statistics.Observed | src/bootstrapping.rs:82-85 | With two arrays, the statistics are computable exactly when both samples are non-empty, and they are `sum / len`. With four arrays, they are computable exactly when both denominator sums are non-zero, and they are `sum(num) / sum(den)` (also src/bootstrapping.rs:155-158 and src/.ipynb_checkpoints/perm-checkpoint.rs:59-62, 96-99). |
| Rng.UniformIndex | src/bootstrapping.rs:32 | A draw from `Uniform::new(0, bound)` is below `bound`. |
| Rng.Draws | src/bootstrapping.rs:31-32 | `count` draws, each below the bound. |
| Rng.Shuffle | src/.ipynb_checkpoints/perm-checkpoint.rs:72-73 | The shuffle keeps the length and the multiset of its input. |
| Sums.RangeCount | src/.ipynb_checkpoints/perm-checkpoint.rs:72 | `lo..hi` holds each position in `[lo, hi)` exactly once and nothing else. |
| Sums.SumAtPermutation | src/.ipynb_checkpoints/perm-checkpoint.rs:75-82 | Summing over a rearrangement of the same positions gives the same total. |
| Sums.MeanAtBetween | src/bootstrapping.rs:30-37 | The mean of any in-range draws lies between any lower and upper bound of the array. |
| Inference.Count | src/bootstrapping.rs:229 | The count is at most the length. It equals the length exactly when every value passes the filter, and it is zero exactly when none does. |
| Inference.OneSidedP | src/bootstrapping.rs:228-229 | `p = (count + 1) / (n + 1)` lies in [1/(n+1), 1]. It is 1 exactly when every resample counts. |
| Inference.TwoSidedP | src/bootstrapping.rs:230 | `min(2 - 2p, 2p)` lies in [0, 1], is bounded by both terms, and equals one of them. |
| Inference.ReportedP | src/bootstrapping.rs:228-233 | The reported p-value lies in [0, 1]. One-sided, it is positive and is 1 exactly when every resample counts. Two-sided, it is 0 exactly then. |
| Inference.PseudocountFloor | src/bootstrapping.rs:228-233 | With no resample counted, the reported p-value is `1 / (n + 1)`, or twice that when two-sided. |
| Inference.ConfidenceLevels | src/bootstrapping.rs:73-74 | `left_q + right_q == 1`. For a level in [0, 1], `0 <= left_q <= right_q <= 1`. |
| Inference.ConfidenceLevelsWiden | src/bootstrapping.rs:73-74 | A higher confidence level asks for quantiles further apart. |
| Inference.ConfidenceInterval | src/bootstrapping.rs:231-237 | An empty distribution fails. A non-empty one with a level in [0, 1] gives an ordered interval within the distribution's range. |
| Inference.ConfidenceIntervalNested | src/bootstrapping.rs:73-74 | For a fixed distribution, the interval at a higher level contains the interval at a lower level. |
| BinomCoef.Fold | src/binom_coef.rs:10-19 | `fold(s, e)` is the product `s * ... * e` when `s <= e`. It is `s` itself when `s > e`, because it multiplies before it tests. |
| BinomCoef.FoldRatio | src/binom_coef.rs:20-25 | `fold(m + 1, n) / fold(1, n - m)` is `n! / (m! (n - m)!)` for `m < n`, and `n + 1` for `m == n`. |
| BinomCoef.Binom | src/binom_coef.rs:4-27 | `binom(n, n) == 1`. For `0 < k < n` it is `n! / (k! (n - k)!)` on both branches. For `k == 0 < n` it is `n + 1`. |
| BinomCoef.BinomSymmetric | src/binom_coef.rs:20-25 | For `0 < k < n`, `binom(n, k) == binom(n, n - k)`. |
| BinomCoef.BinomZeroAsWritten | src/binom_coef.rs:23-24 | For every `n > 0`, `binom(n, 0)` evaluates to `n + 1`, while the corrected definition gives 1. |
| BinomCoef.BinomCorrected | src/binom_coef.rs:4-27 | With a test-first `fold`, the result is `n! / (k! (n - k)!)` for every `k <= n`, including `k == 0`. |
| Bootstrapping.BootstrapVec | src/bootstrapping.rs:21-40 | An empty vector fails (`Uniform::new(0, 0)`). Otherwise there are `n` resample means, each within [min, max] of the vector. |
| Bootstrapping.ResampleMean | src/bootstrapping.rs:27-38 | One resample mean of `len` in-range draws lies within [min, max]. |
| Bootstrapping.Validate | src/bootstrapping.rs:75-226 | The validation succeeds exactly for well-formed input. Wrong arity is `InvalidArity`. Paired arrays of unequal length are `PairedLengthMismatch`, in both the 2-array and 4-array modes. An independent ratio pair of unequal length is `PairLengthMismatch`. |
| Bootstrapping.IndependentDraws | src/bootstrapping.rs:99-126 | Group 1 receives exactly `len1` draws, all below `len1`, and group 2 exactly `len2`, all below `len2`. |
| Bootstrapping.PairedDraws | src/bootstrapping.rs:128-134 | `len` draws below `len`, shared by both groups. |
| Bootstrapping.ResampleDraws | src/bootstrapping.rs:88-213 | Every `get_unchecked` index is in bounds of the array it reads. This includes group 1's indices on the denominators and, when paired, on the second group. |
| Bootstrapping.ResampleSums | src/bootstrapping.rs:97-137 | With two samples the resampled means are computable. Paired resampling of identical groups accumulates identical sums. |
| Bootstrapping.ResampleMeansBetween | src/bootstrapping.rs:136-137 | Each resampled mean lies within its own sample's [min, max]. |
| Bootstrapping.Report | src/bootstrapping.rs:232-238 | The reported means are the observed statistics, and the uplift satisfies `mean_1 * (1 + uplift) == mean_2`. |
| Bootstrapping.Bootstrap | src/bootstrapping.rs:66-239 | Malformed input fails with its validation error, and a success implies well-formed input. Well-formed input with `n > 0` and a level in [0, 1] succeeds. With `n == 0` it fails in the quantile. The means are `sum / len`, or `sum(num) / sum(den)`. The uplift is relative. |
| Bootstrapping.Distribution | src/bootstrapping.rs:91-140 | `uplift_diffs` has one entry per resample. |
| Bootstrapping.DistributionUplifts | src/bootstrapping.rs:136-138 | Entry `i` is resample `i`'s relative uplift: its baseline statistic grown by the entry is its other statistic. |
| Bootstrapping.BootstrapPValue | src/bootstrapping.rs:228-233 | Well-formed input with `n > 0` and a level in [0, 1] succeeds. The p-value is the pseudocount share of positive resampled uplifts and lies in [0, 1]. One-sided it is 1, and two-sided it is 0, exactly when every resampled uplift is positive. |
| Bootstrapping.BootstrapInterval | src/bootstrapping.rs:231-237 | The interval is ordered and lies within the range of the resampled uplifts. |
| Bootstrapping.ZeroDistribution | src/bootstrapping.rs:128-138 | Paired resampling of two identical groups gives a zero uplift in every resample. |
| Bootstrapping.PairedSameGroups | src/bootstrapping.rs:128-138 | Paired identical groups give equal means, a zero uplift, the interval (0, 0), and the p-value `1/(n+1)` (doubled when two-sided). |
| Bootstrapping.ConstantSamples | src/bootstrapping.rs:91-141 | Two constant samples `c1`, `c2` give the means `c1` and `c2` and the uplift `(c2 - c1) / c1`. The interval collapses onto that uplift. The p-value counts either every resample or none. |
| Bootstrapping.CollapsedResult | src/bootstrapping.rs:228-237 | When every resampled uplift equals `u`, the call succeeds, the interval is `(u, u)`, and the p-value counts every resample when `u > 0` and none otherwise. |
| Bootstrapping.UpliftSign | src/.ipynb_checkpoints/tools-checkpoint.rs:29-31 | A relative change is positive exactly when the value moves away from zero. |
| Perm.Validate | src/.ipynb_checkpoints/perm-checkpoint.rs:52-145 | Validation succeeds exactly for 2 arrays, or for 4 arrays with matching pairs. Wrong arity is `InvalidArity`, and mismatched pairs are `PairLengthMismatch`. |
| Perm.Pool | src/.ipynb_checkpoints/perm-checkpoint.rs:104-112 | The pool has `len_a + len_b` values and holds both groups' totals. |
| Perm.DenominatorPool | src/.ipynb_checkpoints/perm-checkpoint.rs:104-112 | The denominator pool is as long as the numerator pool and holds both denominator totals. |
| Perm.PermutedIds | src/.ipynb_checkpoints/perm-checkpoint.rs:72-73 | The shuffled ids hold each position `0..len_comb` exactly once. |
| Perm.PartitionCoversPool | src/.ipynb_checkpoints/perm-checkpoint.rs:75-82 | `ids[..len_a]` and `ids[len_a..]` are in range and cover every pool position exactly once between them, so `sum_a + sum_b` is the pooled total. |
| Perm.SplitConserves | src/.ipynb_checkpoints/perm-checkpoint.rs:119-134 | Any rearrangement shares the numerator and denominator totals out between the groups. Group A gets `len_a` positions and group B gets `len_b`. In the two-sample mode the divisors are `len_a` and `len_b`. |
| Perm.IdentitySplit | src/.ipynb_checkpoints/perm-checkpoint.rs:54-62 | Splitting the positions in their original order reproduces the observed group sums. |
| Perm.SplitSums | src/.ipynb_checkpoints/perm-checkpoint.rs:75-83 | Group A's and group B's sums together make up the sum over the whole arrangement, for numerators and for denominators (also lines 122-136). In the two-sample mode the denominators are `len_a` and `len_b`. |
| Perm.ResampleSums | src/.ipynb_checkpoints/perm-checkpoint.rs:114-136 | A resample conserves the pooled numerator and denominator totals. In the two-sample mode the divisors are `len_a` and `len_b`. |
| Perm.TwoSampleComplement | src/.ipynb_checkpoints/perm-checkpoint.rs:75-83 | Group B's resampled mean is the rest of the pooled total over `len_b`. |
| Perm.Distribution | src/.ipynb_checkpoints/perm-checkpoint.rs:67-85 | `vec_diffs` has one entry per resample (also lines 114-138). |
| Perm.DistributionDifferences | src/.ipynb_checkpoints/perm-checkpoint.rs:83 | Entry `i` is resample `i`'s difference: group A's statistic plus the entry is group B's (also line 136). |
| Perm.Report | src/.ipynb_checkpoints/perm-checkpoint.rs:59-65 | `observed_diff = stat_b - stat_a`, and the uplift is the relative change `stat_a * (1 + uplift) == stat_b`. |
| Perm.PermutationTest | src/.ipynb_checkpoints/perm-checkpoint.rs:43-156 | Malformed input fails with its error, and a success implies well-formed input. Well-formed input with `n > 0` and a level in [0, 1] succeeds. With `n == 0` it fails in the quantile. The observed difference is `b_mean - a_mean`, or `ratio_b - ratio_a`, and the uplift is relative. |
| Perm.PermPValue | src/.ipynb_checkpoints/perm-checkpoint.rs:146-151 | Well-formed input with `n > 0` and a level in [0, 1] succeeds. The p-value is the pseudocount share of resampled differences below the observed one and lies in [0, 1]. One-sided it is 1, and two-sided it is 0, exactly when every resampled difference is below it. |
| Perm.PermInterval | src/.ipynb_checkpoints/perm-checkpoint.rs:149-154 | The interval is ordered and within the range of the resampled differences. |
| Perm.SwappedDifference | src/.ipynb_checkpoints/perm-checkpoint.rs:59-64 | Exchanging the groups keeps the input acceptable and negates the observed difference. |
| Perm.SwappedUplift | src/.ipynb_checkpoints/perm-checkpoint.rs:59-65 | When both observed statistics have the same sign, exchanging the groups turns a positive uplift into a negative one and back, and keeps a zero uplift zero. |
| Perm.SwappedUpliftOppositeSigns | src/.ipynb_checkpoints/perm-checkpoint.rs:59-65 | With statistics of opposite signs the exchange keeps the uplift's sign: means `-1` and `2` give uplift `-3`, and swapped they give `-1.5`. |
| Perm.NullResult | src/.ipynb_checkpoints/perm-checkpoint.rs:146-155 | Tied groups with an all-zero distribution give a zero difference and uplift, the interval (0, 0), and the p-value `1/(n+1)` (doubled when two-sided). |
| Perm.ConstantPool | src/.ipynb_checkpoints/perm-checkpoint.rs:53-88 | Two samples of one constant give that result for every generator. |

## Left out

- The generator (Xoshiro256++) is a parameter. `Uniform::sample` is modelled as one raw output reduced modulo the bound, whereas `rand` uses rejection sampling and may consume more outputs. `shuffle` is modelled as a Fisher-Yates pass. Only the range and permutation properties of these are used, and no statistical property is claimed.
- Rayon's parallel map is a sequence comprehension, and the parallel unstable sort is an insertion sort. The sorted copy is unique, so this does not change results.
- IEEE-754 arithmetic is not modelled: rounding, accumulation order, NaN and infinity, and `partial_cmp().unwrap()` panicking on NaN. Divisions by zero are excluded by `Bootstrapping.Nondegenerate` and `Perm.Nondegenerate`. With an empty array the permutation test's resampled differences are NaN. With two or more resamples, the library then panics in the quantile's sort on comparing NaN; with one resample it returns NaN. Such inputs pass `Perm.Validate` but fail `Perm.Nondegenerate`, so the model does not describe them.
- The PyO3 bindings, argument defaults and module registration are not modelled. That includes `stratified_bootstrap`, which `src/lib.rs:17` registers; its source is not part of this model.
- src/perm.rs and src/tools.rs are not part of this model. The permutation test and the quantile estimator are modelled after their checkpoint copies.
- BinomCoef.Binom: requires `k <= n`, because the `u16` subtraction `n - k` would underflow. It computes in exact arithmetic, so float rounding and overflow to infinity for large `n` are not modelled.
- Bootstrapping.Bootstrap: the doc comment calls the uplift `mean_2 - mean_1`, but the code computes `calculate_uplift(mean_1, mean_2)`, a relative change. The model follows the code.
- Perm.SwappedUplift: exchanging the groups reverses the uplift's sign only when both statistics have the same sign. The uplift is relative to group A's statistic, so with opposite signs both uplifts are negative (`Perm.SwappedUpliftOppositeSigns`). Nothing is promised for that case.
- Inference.TwoSidedP: `min(2 - 2p, 2p)` is not bounded below by `2p - 1`; for `p > 3/4` it is smaller. The model states only what the code computes.

## Findings

| source | as written | input that shows it | evidently intended | confidence | as-written member | corrected member |
|---|---|---|---|---|---|---|
| src/binom_coef.rs:10-24 | `fold` multiplies before it tests, so `binom(n, 0)` for `n > 0` evaluates `fold(n + 1, n) / fold(1, 0) = (n + 1) / 1` | `binom(5, 0)` gives 6 | `binom(n, 0) == 1`, the binomial coefficient | not executed | BinomCoef.BinomZeroAsWritten | BinomCoef.BinomCorrected |
