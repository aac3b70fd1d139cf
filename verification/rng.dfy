/** The randomness the engine consumes, abstracted. Each resample `i` seeds
    its own generator from `Seed(i)` (exact, with 64-bit wrap-around); the
    generator itself (Xoshiro256++) is a parameter: `gen(seed, k)` is the
    `k`-th raw output of the generator seeded with `seed`. A uniform draw
    from `[0, bound)` reduces one raw output into the range, and a shuffle
    is a Fisher-Yates pass driven by the same stream. Nothing statistical
    about the generator is modelled. */
module Rng {
  import opened Sums

  newtype u64 = x: int | 0 <= x < 0x1_0000_0000_0000_0000

  const GoldenGamma: bv64 := 0x9e37_79b9_7f4a_7c15

  /** The seed of resample `i`: `i` XOR-ed with its 64-bit wrapping
      product with the golden-ratio constant. The constant is odd, so the
      product keeps the lowest bit of `i` and the XOR clears it: every seed
      is even, and half of the seed space is never used. */
  function Seed(i: u64): (s: bv64)
    ensures s & 1 == 0
  {
    (i as bv64) ^ ((i as bv64) * GoldenGamma)
  }

  /** Seeds are not unique across resample indices: `2^62` times the
      constant wraps back to `2^62`, so resample `2^62` is seeded like
      resample 0. */
  lemma SeedCollision()
    ensures Seed(0x4000_0000_0000_0000) == Seed(0) == 0
  {
    var x: bv64 := 0x4000_0000_0000_0000;
    assert x * GoldenGamma == x;
  }

  /** `gen(seed, k)`: the `k`-th raw output of the generator seeded with `seed`. */
  type Generator = (bv64, nat) -> nat

  /** The raw outputs of one seeded generator, in the order they are drawn. */
  type Stream = nat -> nat

  /** The private stream of resample `i`. */
  function StreamOf(gen: Generator, i: u64): Stream {
    k => gen(Seed(i), k)
  }

  /** `Uniform::new(0, bound).sample(rng)` for one raw output; `Uniform::new`
      rejects an empty range, so `bound > 0` is required. */
  function UniformIndex(raw: nat, bound: nat): (idx: nat)
    requires bound > 0
    ensures idx < bound
    ensures raw < bound ==> idx == raw
  {
    raw % bound
  }

  /** `count` uniform draws from `[0, bound)` taken at stream positions
      `start, start + stride, start + 2 * stride, ...`. */
  function Draws(count: nat, bound: nat, s: Stream, start: nat, stride: nat): (d: seq<nat>)
    requires bound > 0
    ensures |d| == count
    ensures InRange(d, bound)
  {
    seq(count, t requires 0 <= t < count => UniformIndex(s(start + stride * t), bound))
  }

  function Swap(s: seq<nat>, i: nat, j: nat): (r: seq<nat>)
    requires i < |s| && j < |s|
    ensures |r| == |s|
    ensures multiset(r) == multiset(s)
  {
    s[i := s[j]][j := s[i]]
  }

  /** The Fisher-Yates steps for positions `i, i - 1, ..., 1`: position `i`
      is swapped with a uniform draw from `[0, i]` read at stream position `k`. */
  function ShuffleFrom(s: seq<nat>, i: nat, stream: Stream, k: nat): (r: seq<nat>)
    requires i < |s|
    ensures |r| == |s|
    ensures multiset(r) == multiset(s)
    decreases i
  {
    if i == 0 then s
    else ShuffleFrom(Swap(s, i, UniformIndex(stream(k), i + 1)), i - 1, stream, k + 1)
  }

  /** `slice.shuffle(&mut rng)`: a permutation of `s` chosen by the stream. */
  function Shuffle(s: seq<nat>, stream: Stream): (r: seq<nat>)
    ensures |r| == |s|
    ensures multiset(r) == multiset(s)
  {
    if |s| == 0 then s else ShuffleFrom(s, |s| - 1, stream, 0)
  }
}
