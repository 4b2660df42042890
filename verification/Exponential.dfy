/** The degree-eight exponential series, scaled to integers: the polynomial `compound_interest`
    approximates.

    For a raw exponent `x` the exact factor is `RAY * (1 + y + ... + y^8 / 8!)` with `y = x / RAY`.
    Multiplied by `UNIT = 8! * RAY^7` every summand is an integer. */
module Exponential {
  import opened Numbers
  import opened Rounding

  const DEGREE: nat := 8

  function Power(b: int, k: nat): int {
    if k == 0 then 1 else b * Power(b, k - 1)
  }

  /** `8! / k!`. */
  function Ratio(k: nat): int
    requires k <= DEGREE
    decreases DEGREE - k
  {
    if k == DEGREE then 1 else (k + 1) * Ratio(k + 1)
  }

  /** `UNIT * RAY * y^k / k!`. */
  function Term(x: int, k: nat): int
    requires k <= DEGREE
  {
    Power(x, k) * Power(RAY, DEGREE - k) * Ratio(k)
  }

  /** All nine summands. */
  function Terms(x: int): seq<int> {
    seq(DEGREE + 1, k requires 0 <= k <= DEGREE => Term(x, k))
  }

  /** `f[0] + ... + f[n]`. */
  function Sum(f: seq<int>, n: nat): int
    requires n < |f|
  {
    (if n == 0 then 0 else Sum(f, n - 1)) + f[n]
  }

  /** `UNIT` times the exact compounding factor of the raw exponent `x`. */
  function Series(x: int): int {
    Sum(Terms(x), DEGREE)
  }

  const UNIT: int := 40_320 * Power(RAY, 7)

  lemma RatioValues()
    ensures Ratio(8) == 1 && Ratio(7) == 8 && Ratio(6) == 56 && Ratio(5) == 336 && Ratio(4) == 1_680
    ensures Ratio(3) == 6_720 && Ratio(2) == 20_160 && Ratio(1) == 40_320 && Ratio(0) == 40_320
  {
  }

  lemma {:induction false} PowerNonNeg(b: int, k: nat)
    requires b >= 0
    ensures Power(b, k) >= 0
    ensures b > 0 ==> Power(b, k) > 0
  {
    if k > 0 {
      PowerNonNeg(b, k - 1);
      if b > 0 { MulMono(1, b, Power(b, k - 1)); }
      MulNonNeg(b, Power(b, k - 1));
    }
  }

  lemma RatioPositive(k: nat)
    requires k <= DEGREE
    ensures Ratio(k) > 0
  {
    RatioValues();
  }

  lemma TermNonNeg(x: int, k: nat)
    requires x >= 0 && k <= DEGREE
    ensures Term(x, k) >= 0
  {
    PowerNonNeg(x, k);
    PowerNonNeg(RAY, DEGREE - k);
    RatioPositive(k);
    MulNonNeg(Power(x, k), Power(RAY, DEGREE - k));
    MulNonNeg(Power(x, k) * Power(RAY, DEGREE - k), Ratio(k));
  }

  /** The recurrence `T(k) * k * RAY == T(k - 1) * x` that all the algebra below rests on. */
  lemma TermStep(x: int, k: nat)
    requires 0 < k <= DEGREE
    ensures Term(x, k) * (k * RAY) == Term(x, k - 1) * x
  {
    var p, r := Power(x, k - 1), Power(RAY, DEGREE - k);
    assert Power(x, k) == x * p;
    assert Power(RAY, DEGREE - (k - 1)) == RAY * r;
    assert Ratio(k - 1) == k * Ratio(k);
    TermStepIdentity(x, p, r, RAY, k, Ratio(k));
  }

  lemma TermStepIdentity(x: int, p: int, r: int, R: int, k: int, c: int)
    ensures ((x * p) * r * c) * (k * R) == (p * (R * r) * (k * c)) * x
  {
  }

  lemma TermZero(x: int)
    ensures Term(x, 0) == UNIT * RAY
  {
    RatioValues();
    assert Power(RAY, 8) == RAY * Power(RAY, 7);
  }

  // ----- products of series, for any summands with that recurrence

  predicate NonNegative(f: seq<int>) {
    forall k :: 0 <= k < |f| ==> f[k] >= 0
  }

  predicate Exponential(f: seq<int>, x: int) {
    forall k {:trigger f[k]} :: 0 < k < |f| ==> f[k] * (k * RAY) == f[k - 1] * x
  }

  lemma {:induction false} TermsAreExponential(x: int)
    ensures Exponential(Terms(x), x) && Terms(x)[0] == UNIT * RAY
    ensures x >= 0 ==> NonNegative(Terms(x))
  {
    TermZero(x);
    forall k | 0 < k <= DEGREE ensures Terms(x)[k] * (k * RAY) == Terms(x)[k - 1] * x {
      TermStep(x, k);
    }
    if x >= 0 {
      forall k | 0 <= k <= DEGREE ensures Terms(x)[k] >= 0 { TermNonNeg(x, k); }
    }
  }

  lemma {:induction false} SumMono(f: seq<int>, m: nat, n: nat)
    requires NonNegative(f) && m <= n < |f|
    ensures f[0] <= Sum(f, m) <= Sum(f, n)
  {
    if m < n {
      SumMono(f, m, n - 1);
    } else if n > 0 {
      SumMono(f, n - 1, n - 1);
    }
  }

  /** The first `i + 1` products of the degree-`k` part of the product of two series. */
  function Convolution(f: seq<int>, g: seq<int>, k: nat, i: nat): int
    requires i <= k < |f| && k < |g|
  {
    (if i == 0 then 0 else Convolution(f, g, k, i - 1)) + f[i] * g[k - i]
  }

  function Before(f: seq<int>, g: seq<int>, k: nat, i: nat): int
    requires i <= k < |f| && k < |g|
  {
    if i == 0 then 0 else Convolution(f, g, k, i - 1)
  }

  /** Differentiating the degree-`k + 1` part, one product at a time. */
  lemma {:induction false} ConvolutionStep(f: seq<int>, g: seq<int>, x: int, z: int, u: int, k: nat, i: nat)
    requires |f| > 0 && f[0] == u && Exponential(f, x) && |g| > 0 && g[0] == u && Exponential(g, z) && i <= k && k + 1 < |f| && k + 1 < |g|
    ensures Convolution(f, g, k + 1, i) * ((k + 1) * RAY) == Before(f, g, k, i) * x + Convolution(f, g, k, i) * z
  {
    var j := k + 1 - i;
    assert g[j] * (j * RAY) == g[j - 1] * z;
    if i == 0 {
      FirstProduct(f[0], g[k + 1], g[k], z, (k + 1) * RAY);
    } else {
      ConvolutionStep(f, g, x, z, u, k, i - 1);
      assert f[i] * (i * RAY) == f[i - 1] * x;
      NextProduct(f, g, x, z, k, i, i * RAY, j * RAY, (k + 1) * RAY);
    }
  }

  lemma FirstProduct(a: int, b: int, c: int, z: int, n: int)
    requires b * n == c * z
    ensures (a * b) * n == (a * c) * z
  {
    assert (a * b) * n == a * (b * n) && (a * c) * z == a * (c * z);
  }

  lemma NextProduct(f: seq<int>, g: seq<int>, x: int, z: int, k: nat, i: nat, wi: int, wj: int, n: int)
    requires 0 < i <= k && k + 1 < |f| && k + 1 < |g| && n == wi + wj
    requires f[i] * wi == f[i - 1] * x && g[k + 1 - i] * wj == g[k - i] * z
    requires Convolution(f, g, k + 1, i - 1) * n == Before(f, g, k, i - 1) * x + Convolution(f, g, k, i - 1) * z
    ensures Convolution(f, g, k + 1, i) * n == Convolution(f, g, k, i - 1) * x + Convolution(f, g, k, i) * z
  {
    ProductRule(Convolution(f, g, k + 1, i), Convolution(f, g, k + 1, i - 1),
                f[i], g[k + 1 - i], wi, wj, n, f[i - 1], g[k - i], x, z,
                Before(f, g, k, i - 1), Convolution(f, g, k, i - 1), Convolution(f, g, k, i));
  }

  lemma ProductRule(c: int, w: int, a: int, b: int, i: int, j: int, n: int, p: int, q: int,
                    x: int, z: int, before: int, here: int, next: int)
    requires n == i + j && w * n == before * x + here * z
    requires a * i == p * x && b * j == q * z
    requires c == w + a * b && here == before + p * b && next == here + a * q
    ensures c * n == here * x + next * z
  {
    Spread(w, a, b, i, j, n);
    Gather(before, p, b, here, x);
    Gather(here, a, q, next, z);
    assert (a * i) * b == (p * x) * b && a * (b * j) == a * (q * z);
    Exchange(p, x, b);
    Exchange(q, z, a);
  }

  lemma Spread(w: int, a: int, b: int, i: int, j: int, n: int)
    requires n == i + j
    ensures (w + a * b) * n == w * n + (a * i) * b + a * (b * j)
  {
    assert (a * b) * n == (a * b) * i + (a * b) * j;
    Exchange(a, b, i);
  }

  lemma Gather(base: int, p: int, b: int, sum: int, x: int)
    requires sum == base + p * b
    ensures sum * x == base * x + (p * b) * x
  {
  }

  lemma Exchange(p: int, x: int, b: int)
    ensures (p * x) * b == (p * b) * x
    ensures b * (p * x) == (p * b) * x
  {
  }

  /** Binomial theorem: the degree-`k` part of the product is the degree-`k` term of the sum. */
  lemma {:induction false} ConvolutionIsTerm(f: seq<int>, g: seq<int>, h: seq<int>, x: int, z: int, u: int, k: nat)
    requires |f| > 0 && f[0] == u && Exponential(f, x) && |g| > 0 && g[0] == u && Exponential(g, z) && |h| > 0 && h[0] == u && Exponential(h, x + z)
    requires k < |f| && k < |g| && k < |h|
    ensures Convolution(f, g, k, k) == u * h[k]
  {
    if k > 0 {
      ConvolutionIsTerm(f, g, h, x, z, u, k - 1);
      ConvolutionStep(f, g, x, z, u, k - 1, k - 1);
      assert f[k] * (k * RAY) == f[k - 1] * x && h[k] * (k * RAY) == h[k - 1] * (x + z);
      LastProduct(Convolution(f, g, k, k - 1), f[k], f[k - 1], Before(f, g, k - 1, k - 1),
                  Convolution(f, g, k - 1, k - 1), u, h[k], h[k - 1], x, z, k * RAY);
    }
  }

  lemma LastProduct(w: int, a: int, p: int, before: int, c: int, u: int, d: int, e: int, x: int, z: int, n: int)
    requires n > 0 && w * n == before * x + c * z && a * n == p * x
    requires c == before + p * u && c == u * e && d * n == e * (x + z)
    ensures w + a * u == u * d
  {
    assert (w + a * u) * n == w * n + (a * n) * u;
    assert (p * x) * u == (p * u) * x;
    assert c * x == before * x + (p * u) * x;
    LastProductSum(u, d, e, x, z, n);
    CancelLe(w + a * u, u * d, n);
    CancelLe(u * d, w + a * u, n);
  }

  lemma LastProductSum(u: int, d: int, e: int, x: int, z: int, n: int)
    requires d * n == e * (x + z)
    ensures (u * d) * n == (u * e) * x + (u * e) * z
  {
    assert (u * d) * n == u * (d * n) && u * (e * (x + z)) == (u * e) * x + (u * e) * z;
  }

  /** `f[0] G(n) + ... + f[i] G(n - i)`, where `G` sums `g`. */
  function Staircase(f: seq<int>, g: seq<int>, n: nat, i: nat): int
    requires i <= n < |f| && n < |g|
  {
    (if i == 0 then 0 else Staircase(f, g, n, i - 1)) + f[i] * Sum(g, n - i)
  }

  lemma {:induction false} StaircaseStep(f: seq<int>, g: seq<int>, n: nat, i: nat)
    requires i < n < |f| && n < |g|
    ensures Staircase(f, g, n, i) == Staircase(f, g, n - 1, i) + Convolution(f, g, n, i)
  {
    if i > 0 { StaircaseStep(f, g, n, i - 1); }
    DistributeSum(f[i], Sum(g, n - 1 - i), g[n - i]);
  }

  lemma DistributeSum(t: int, s: int, v: int)
    ensures t * (s + v) == t * s + t * v
  {
  }

  lemma {:induction false} StaircaseIsSum(f: seq<int>, g: seq<int>, h: seq<int>, x: int, z: int, u: int, n: nat)
    requires |f| > 0 && f[0] == u && Exponential(f, x) && |g| > 0 && g[0] == u && Exponential(g, z) && |h| > 0 && h[0] == u && Exponential(h, x + z)
    requires n < |f| && n < |g| && n < |h|
    ensures Staircase(f, g, n, n) == u * Sum(h, n)
  {
    ConvolutionIsTerm(f, g, h, x, z, u, n);
    if n > 0 {
      StaircaseIsSum(f, g, h, x, z, u, n - 1);
      StaircaseStep(f, g, n, n - 1);
      DistributeSum(u, Sum(h, n - 1), h[n]);
    }
  }

  lemma {:induction false} StaircaseBelowProduct(f: seq<int>, g: seq<int>, n: nat, i: nat)
    requires NonNegative(f) && NonNegative(g) && i <= n < |f| && n < |g|
    ensures Staircase(f, g, n, i) <= Sum(f, i) * Sum(g, n)
  {
    SumMono(g, n - i, n);
    MulMono(Sum(g, n - i), Sum(g, n), f[i]);
    if i > 0 {
      StaircaseBelowProduct(f, g, n, i - 1);
      DistributeSum(Sum(g, n), Sum(f, i - 1), f[i]);
    }
  }

  /** The truncated series is super-multiplicative: charging two intervals in turn covers the
      interval they make up. */
  lemma SeriesOfSum(x: int, z: int)
    requires 0 <= x && 0 <= z
    ensures (UNIT * RAY) * Series(x + z) <= Series(x) * Series(z)
  {
    TermsAreExponential(x); TermsAreExponential(z); TermsAreExponential(x + z);
    StaircaseIsSum(Terms(x), Terms(z), Terms(x + z), x, z, UNIT * RAY, DEGREE);
    StaircaseBelowProduct(Terms(x), Terms(z), DEGREE, DEGREE);
  }
}
