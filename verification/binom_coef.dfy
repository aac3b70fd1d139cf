/** `binom`: the binomial coefficient as a ratio of two running products.
    The library computes in `f64`; every value here is an integer-valued
    float, so the model multiplies integers and divides once as a `real`
    (rounding and overflow to infinity for large `n` are not modelled). */
module BinomCoef {

  newtype u16 = x: int | 0 <= x < 0x1_0000

  /** The product `lo * (lo + 1) * ... * hi`; 1 when the range is empty. */
  function Product(lo: int, hi: int): int
    decreases if lo <= hi then hi - lo + 1 else 0
  {
    if lo > hi then 1 else lo * Product(lo + 1, hi)
  }

  function Factorial(n: nat): (f: int)
    ensures f >= 1
  {
    ProductPositive(1, n);
    Product(1, n)
  }

  /** The closed form `n! / (k! (n - k)!)`. */
  function Choose(n: nat, k: nat): (c: real)
    requires k <= n
    ensures c > 0.0
  {
    var f, fk, fr := Factorial(n), Factorial(k), Factorial(n - k);
    MulPositive(fk, fr);
    f as real / (fk * fr) as real
  }

  lemma MulPositive(a: int, b: int)
    requires a >= 1 && b >= 1
    ensures a * b >= 1
  {
  }

  lemma {:induction false} ProductPositive(lo: int, hi: int)
    requires lo >= 1
    ensures Product(lo, hi) >= 1
    decreases if lo <= hi then hi - lo + 1 else 0
  {
    if lo <= hi {
      ProductPositive(lo + 1, hi);
    }
  }

  /** `lo..=hi` splits at `mid` into `lo..=mid` and `mid+1..=hi`. */
  lemma {:induction false} ProductSplit(lo: int, mid: int, hi: int)
    requires lo - 1 <= mid <= hi
    ensures Product(lo, hi) == Product(lo, mid) * Product(mid + 1, hi)
    decreases mid - lo + 1
  {
    if lo <= mid {
      ProductSplit(lo + 1, mid, hi);
      var p1, p2 := Product(lo + 1, mid), Product(mid + 1, hi);
      assert Product(lo, hi) == lo * (p1 * p2);
      assert Product(lo, mid) == lo * p1;
      MulAssociative(lo, p1, p2);
    }
  }

  lemma MulAssociative(a: int, b: int, c: int)
    ensures a * (b * c) == (a * b) * c
  {
  }

  /** The inner `fold`: a do-while loop that multiplies by `start` before it
      tests `start > end`, so it always multiplies at least once. */
  function Fold(start: int, end: int): (mul: int)
    ensures start <= end ==> mul == Product(start, end)
    ensures start > end ==> mul == start
    decreases if start <= end then end - start + 1 else 0
  {
    if start + 1 > end then start else start * Fold(start + 1, end)
  }

  /** `binom(n, k)` as written. `n - k` is a `u16` subtraction, so `k <= n`
      is required of the caller. */
  function Binom(n: u16, k: u16): (r: real)
    requires k <= n
    ensures n == k ==> r == 1.0
    ensures 0 < k < n ==>
              r == Choose(n as nat, k as nat)
    ensures k == 0 < n ==> r == n as real + 1.0
  {
    if n == k then 1.0
    else if k > n - k then
      FoldRatio(n as nat, k as nat)
    else
      ChooseSymmetric(n as nat, k as nat);
      FoldRatio(n as nat, (n - k) as nat)
  }

  /** `fold(m + 1, n) / fold(1, n - m)`, the expression both branches of
      `binom` evaluate, with `m` the larger of `k` and `n - k`. */
  function FoldRatio(n: nat, m: nat): (r: real)
    requires m <= n
    ensures m < n ==> r == Choose(n, m)
    ensures m == n ==> r == n as real + 1.0
  {
    ProductPositive(1, n - m);
    var top := Fold(m + 1, n);
    var bottom := Fold(1, n - m);
    if m < n then
      ProductSplit(1, m, n);
      DivideProduct(top, bottom, Factorial(m), Factorial(n));
      top as real / bottom as real
    else
      top as real / bottom as real
  }

  lemma DivideProduct(top: int, bottom: int, low: int, whole: int)
    requires bottom >= 1 && low >= 1 && whole == low * top
    ensures top as real / bottom as real == whole as real / (low * bottom) as real
  {
    assert (low * bottom) as real == low as real * bottom as real;
    assert whole as real == low as real * top as real;
  }

  /** Symmetry: for `0 < k < n`, `binom(n, k) == binom(n, n - k)`; both
      calls evaluate `fold(max + 1, n) / fold(1, min)`. */
  lemma BinomSymmetric(n: u16, k: u16)
    requires 0 < k < n
    ensures Binom(n, k) == Binom(n, n - k)
  {
  }

  /** `binom(n, 0)` for `n > 0` goes through `fold(n + 1, n) / fold(1, 0)`,
      whose do-while multiplies once and yields `n + 1`, where the binomial
      coefficient, and the corrected definition, give 1. */
  lemma BinomZeroAsWritten(n: u16)
    requires n > 0
    ensures Binom(n, 0) == n as real + 1.0
    ensures BinomCorrected(n, 0) == 1.0
  {
    ChooseSymmetric(n as nat, 0);
    ChooseAll(n as nat);
  }

  /** `binom` with a test-first `fold`, one that returns the empty product 1
      when `start > end` (that is, `Product`): `n! / (k! (n - k)!)` for every `k <= n`. */
  function BinomCorrected(n: u16, k: u16): (r: real)
    requires k <= n
    ensures r == Choose(n as nat, k as nat)
  {
    if n == k then
      ChooseAll(n as nat);
      1.0
    else if k > n - k then
      ProductRatio(n as nat, k as nat)
    else
      ChooseSymmetric(n as nat, k as nat);
      ProductRatio(n as nat, (n - k) as nat)
  }

  lemma ChooseAll(n: nat)
    ensures Choose(n, n) == 1.0
  {
    assert Factorial(0) == 1;
    assert Factorial(n) * Factorial(0) == Factorial(n);
  }

  /** `n! / (k! (n - k)!)` is symmetric in `k` and `n - k`. */
  lemma ChooseSymmetric(n: nat, k: nat)
    requires k <= n
    ensures Choose(n, k) == Choose(n, n - k)
  {
    assert n - (n - k) == k;
    assert Factorial(k) * Factorial(n - k) == Factorial(n - k) * Factorial(k);
  }

  /** `fold(m + 1, n) / fold(1, n - m)` with the test-first `fold`. */
  function ProductRatio(n: nat, m: nat): (r: real)
    requires m <= n
    ensures r == Choose(n, m)
  {
    ProductPositive(1, n - m);
    ProductSplit(1, m, n);
    DivideProduct(Product(m + 1, n), Product(1, n - m), Factorial(m), Factorial(n));
    Product(m + 1, n) as real / Product(1, n - m) as real
  }
}
