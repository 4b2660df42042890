/** Model of the two-coin StableSwap invariant solver: a truncating-integer Newton iteration for

      D^3 + 4ab(ann - 1) D  =  4ab ann (a + b)

    on 256-bit unsigned integers. */
module StableSwap {
  import opened Numbers
  import opened Rounding
  import opened U256
  import LpPrice

  const N_COINS: int := 2
  const MIN_AMP: int := 1
  const MAX_AMP: int := 1_000_000
  const MAX_D_ITERATIONS: nat := 255
  const MAX_NORMALIZED_RESERVE_WAD: int := 10_000_000_000_000_000_000_000_000_000_000_000

  /** Reserves sorted by size, and `ann = amp * N_COINS`. */
  datatype Pool = Pool(small: int, large: int, ann: int) {
    function Sum(): int { small + large }

    /** `N^N * product of reserves`. */
    function Product(): int { 4 * small * large }

    predicate Valid() {
      && 1 <= small <= large <= MAX_NORMALIZED_RESERVE_WAD
      && 2 <= ann <= 2 * MAX_AMP
    }
  }

  predicate Admitted(xa: int, xb: int, amp: int) {
    && 1 <= xa <= MAX_NORMALIZED_RESERVE_WAD
    && 1 <= xb <= MAX_NORMALIZED_RESERVE_WAD
    && MIN_AMP <= amp <= MAX_AMP
  }

  function PoolOf(xa: int, xb: int, amp: int): Pool {
    Pool(Min(xa, xb), Max(xa, xb), amp * N_COINS)
  }

  // ----- the iteration as arithmetic

  function FirstQuotient(p: Pool, d: int): int
    requires p.Valid()
  {
    Floor(d * d, 2 * p.small)
  }

  /** `d^3 / (4ab)`, truncated twice. */
  function Dp(p: Pool, d: int): int
    requires p.Valid()
  {
    Floor(FirstQuotient(p, d) * d, 2 * p.large)
  }

  function Numerator(p: Pool, d: int): int
    requires p.Valid()
  {
    (p.ann * p.Sum() + 2 * Dp(p, d)) * d
  }

  function Denominator(p: Pool, d: int): int
    requires p.Valid()
  {
    (p.ann - 1) * d + 3 * Dp(p, d)
  }

  function NextD(p: Pool, d: int): int
    requires p.Valid() && d > 0
  {
    DpBounds(p, d);
    Positive(p, d);
    Floor(Numerator(p, d), Denominator(p, d))
  }

  predicate StepFits(p: Pool, d: int)
    requires p.Valid()
  {
    FirstQuotient(p, d) * d <= U256_MAX && Numerator(p, d) <= U256_MAX
  }

  predicate Near(d: int, e: int) {
    -1 <= d - e <= 1
  }

  /** The iterates from `d` on, with `fuel` steps left of the program's 255. */
  function Iterate(p: Pool, d: int, fuel: nat): Result<int>
    requires p.Valid() && d > 0
    decreases fuel
  {
    if fuel == 0 || !StepFits(p, d) then Err(InvalidPrice)
    else
      var n := NextD(p, d);
      if Near(n, d) then Ok(n)
      else
        StepPositive(p, d);
        Iterate(p, n, fuel - 1)
  }

  function StableD(xa: int, xb: int, amp: int): Result<int> {
    if !Admitted(xa, xb, amp) then Err(InvalidPrice)
    else Iterate(PoolOf(xa, xb, amp), xa + xb, MAX_D_ITERATIONS)
  }

  // ----- what the solver is for

  /** `r` is at or below the real root of the invariant: the polynomial is increasing in `r`. */
  predicate BelowRoot(p: Pool, r: int) {
    r * r * r + p.Product() * (p.ann - 1) * r <= p.Product() * (p.ann * p.Sum())
  }

  lemma ProductPositive(p: Pool)
    requires p.Valid()
    ensures p.Product() >= 4
  {
    MulMono(1, p.small, p.large);
    assert p.Product() == 4 * (p.small * p.large);
  }

  /** `d_p` is at most `d^3 / 4ab`. */
  lemma DpBounds(p: Pool, d: int)
    requires p.Valid() && d > 0
    ensures 0 <= Dp(p, d)
    ensures p.Product() * Dp(p, d) <= d * d * d
  {
    TruncationFacts(p, d);
    TruncatedBelow(2 * p.small, 2 * p.large, FirstQuotient(p, d), Dp(p, d), d);
    assert p.Product() == (2 * p.small) * (2 * p.large);
  }

  /** It falls short by at most one unit plus one unit of the first quotient, which the second
      division magnifies by `d / 2b`. */
  lemma DpShortfall(p: Pool, d: int)
    requires p.Valid() && d > 0
    ensures d * d * d + d - 2 * p.small * d + 2 * p.small - p.Product() <= p.Product() * Dp(p, d)
  {
    TruncationFacts(p, d);
    TruncatedAbove(2 * p.small, 2 * p.large, FirstQuotient(p, d), Dp(p, d), d);
    assert p.Product() == (2 * p.small) * (2 * p.large);
  }

  lemma TruncationFacts(p: Pool, d: int)
    requires p.Valid() && d > 0
    ensures FirstQuotient(p, d) * (2 * p.small) <= d * d < FirstQuotient(p, d) * (2 * p.small) + 2 * p.small
    ensures Dp(p, d) * (2 * p.large) <= FirstQuotient(p, d) * d < Dp(p, d) * (2 * p.large) + 2 * p.large
    ensures 0 <= Dp(p, d)
  {
    MulNonNeg(d, d);
    FloorBounds(d * d, 2 * p.small);
    FloorNonNeg(d * d, 2 * p.small);
    MulNonNeg(FirstQuotient(p, d), d);
    FloorBounds(FirstQuotient(p, d) * d, 2 * p.large);
    FloorNonNeg(FirstQuotient(p, d) * d, 2 * p.large);
  }

  lemma TruncatedBelow(a: int, b: int, f: int, q: int, d: int)
    requires a > 0 && d > 0 && f * a <= d * d && q * b <= f * d
    ensures a * b * q <= d * d * d
  {
    MulMono(q * b, f * d, a);
    MulMono(f * a, d * d, d);
    assert (q * b) * a == a * b * q;
    assert (f * d) * a == (f * a) * d;
  }

  lemma TruncatedAbove(a: int, b: int, f: int, q: int, d: int)
    requires a > 0 && d > 0 && d * d < f * a + a && f * d < q * b + b
    ensures d * d * d + d - a * d + a - a * b <= a * b * q
  {
    MulMono(f * d + 1, q * b + b, a);
    MulMono(d * d + 1, f * a + a, d);
    TruncationIdentities(a, b, f, q, d);
  }

  lemma TruncationIdentities(a: int, b: int, f: int, q: int, d: int)
    ensures (f * d + 1) * a == (f * a) * d + a
    ensures (q * b + b) * a == a * b * q + a * b
    ensures (f * a + a) * d == (f * a) * d + a * d
    ensures (d * d + 1) * d == d * d * d + d
  {
  }

  lemma Positive(p: Pool, d: int)
    requires p.Valid() && d > 0
    ensures Denominator(p, d) >= d
    ensures Numerator(p, d) >= 0
  {
    DpBounds(p, d);
    MulMono(1, p.ann - 1, d);
    MulNonNeg(p.ann, p.Sum());
    MulNonNeg(p.ann * p.Sum() + 2 * Dp(p, d), d);
  }

  /** `3 d^2 r <= r^3 + 2 d^3`: the tangent of the cube lies below it. */
  lemma CubeAboveTangent(r: int, d: int)
    requires r >= 0 && d >= 0
    ensures 3 * (d * d * d) * r <= r * r * r * d + 2 * (d * d * d) * d
  {
    SquareNonNeg(r - d);
    MulNonNeg((r - d) * (r - d), r + 2 * d);
    MulNonNeg((r - d) * (r - d) * (r + 2 * d), d);
    assert (r - d) * (r - d) * (r + 2 * d) == r * r * r + 2 * d * d * d - 3 * d * d * r;
    assert (r * r * r + 2 * d * d * d - 3 * d * d * r) * d
        == r * r * r * d + 2 * (d * d * d) * d - 3 * (d * d * d) * r;
  }

  /** The same with `d^3` replaced by any smaller nonnegative `q`, as truncation does. */
  lemma TruncatedTangent(q: int, r: int, d: int)
    requires 0 <= q <= d * d * d && r >= 0 && d > 0
    ensures 3 * q * r <= r * r * r * d + 2 * q * d
  {
    var c := d * d * d;
    if 3 * r <= 2 * d {
      MulMono(3 * r, 2 * d, q);
      MulNonNeg(r, r);
      MulNonNeg(r * r, r);
      MulNonNeg(r * r * r, d);
    } else {
      CubeAboveTangent(r, d);
      MulMono(q, c, 3 * r - 2 * d);
      Distribute(q, r, d);
      Distribute(c, r, d);
    }
  }

  lemma Distribute(q: int, r: int, d: int)
    ensures q * (3 * r - 2 * d) == 3 * q * r - 2 * q * d
  {
  }

  /** One truncated Newton step from any positive `d` lands on or above the root. */
  lemma StepStaysAboveRoot(p: Pool, d: int, r: int)
    requires p.Valid() && d > 0 && BelowRoot(p, r)
    ensures r <= NextD(p, d)
  {
    Positive(p, d);
    DpBounds(p, d);
    ProductPositive(p);
    var P, A, S, q := p.Product(), p.ann, p.Sum(), Dp(p, d);
    var num, den := Numerator(p, d), Denominator(p, d);
    if r <= 0 {
      MulMono(r, 0, den);
    } else {
      MulNonNeg(P, q);
      TruncatedTangent(P * q, r, d);
      MulMono(r * r * r + P * (A - 1) * r, P * (A * S), d);
      StepIdentities(P, A, S, q, d, r);
      CancelLe(r * den, num, P);
    }
    FloorGe(r, num, den);
  }

  lemma StepIdentities(P: int, A: int, S: int, q: int, d: int, r: int)
    ensures (r * ((A - 1) * d + 3 * q)) * P == P * (A - 1) * r * d + 3 * (P * q) * r
    ensures ((A * S + 2 * q) * d) * P == P * (A * S) * d + 2 * (P * q) * d
    ensures (r * r * r + P * (A - 1) * r) * d == r * r * r * d + P * (A - 1) * r * d
  {
    DenominatorTimes(P, A - 1, q, d, r);
    NumeratorTimes(P, A * S, q, d);
  }

  lemma DenominatorTimes(P: int, B: int, q: int, d: int, r: int)
    ensures (r * (B * d + 3 * q)) * P == P * B * r * d + 3 * (P * q) * r
  {
  }

  lemma NumeratorTimes(P: int, T: int, q: int, d: int)
    ensures ((T + 2 * q) * d) * P == P * T * d + 2 * (P * q) * d
  {
  }

  lemma OneIsBelowRoot(p: Pool)
    requires p.Valid()
    ensures BelowRoot(p, 1)
  {
    ProductPositive(p);
    var P, A := p.Product(), p.ann;
    MulMono(4, P, A);
    MulMono(2, p.Sum(), P * A);
    assert P * (A - 1) * 1 == P * A - P;
  }

  lemma StepPositive(p: Pool, d: int)
    requires p.Valid() && d > 0
    ensures NextD(p, d) >= 1
  {
    OneIsBelowRoot(p);
    StepStaysAboveRoot(p, d, 1);
  }

  /** Every iterate obeys `(ann - 1) d <= ann * sum`. */
  predicate Bounded(p: Pool, d: int) {
    (p.ann - 1) * d <= p.ann * p.Sum()
  }

  lemma BoundedIsSmall(p: Pool, d: int)
    requires p.Valid() && d > 0 && Bounded(p, d)
    ensures d <= 2 * p.Sum()
    ensures d <= 4 * p.large
  {
    MulMono(p.ann, 2 * (p.ann - 1), p.Sum());
    assert 2 * (p.ann - 1) * p.Sum() == (2 * p.Sum()) * (p.ann - 1);
    CancelLe(d, 2 * p.Sum(), p.ann - 1);
  }

  lemma StepStaysBounded(p: Pool, d: int)
    requires p.Valid() && d > 0 && Bounded(p, d)
    ensures Bounded(p, NextD(p, d))
  {
    Positive(p, d);
    DpBounds(p, d);
    FloorBounds(Numerator(p, d), Denominator(p, d));
    BoundScalars(p.ann, p.Sum(), Dp(p, d), d, NextD(p, d), Denominator(p, d));
  }

  lemma BoundScalars(A: int, S: int, q: int, d: int, n: int, den: int)
    requires A >= 2 && q >= 0 && S >= 0 && den > 0 && den == (A - 1) * d + 3 * q
    requires n * den <= (A * S + 2 * q) * d && (A - 1) * d <= A * S
    ensures (A - 1) * n <= A * S
  {
    MulNonNeg(A, S);
    MulMono(n * den, (A * S + 2 * q) * d, A - 1);
    MulMono(2 * ((A - 1) * d), 3 * (A * S), q);
    BoundIdentities(A, S, q, d, n, den);
    CancelLe((A - 1) * n, A * S, den);
  }

  lemma BoundIdentities(A: int, S: int, q: int, d: int, n: int, den: int)
    requires den == (A - 1) * d + 3 * q
    ensures ((A * S + 2 * q) * d) * (A - 1) == A * S * (A - 1) * d + 2 * ((A - 1) * d) * q
    ensures (A * S) * den == A * S * (A - 1) * d + 3 * (A * S) * q
    ensures (n * den) * (A - 1) == ((A - 1) * n) * den
  {
  }

  // ----- the exit test bounds the error from above

  lemma CubeMono(x: int, y: int)
    requires x <= y
    ensures x * x * x <= y * y * y
  {
    SquareNonNeg(x); SquareNonNeg(y); SquareNonNeg(x + y);
    MulNonNeg(y - x, x * x + y * y + (x + y) * (x + y));
    assert (y - x) * (x * x + y * y + (x + y) * (x + y)) == 2 * (y * y * y - x * x * x);
  }

  /** Two consequences of standing above the root that the error bound needs. Both would fail
      with the reserves divided out in the other order. */
  predicate Grounded(p: Pool, d: int) {
    2 * p.small <= d && p.Product() < (d + 1) * (d + 1)
  }

  lemma StepIsGrounded(p: Pool, d: int)
    requires p.Valid() && d > 0
    ensures Grounded(p, NextD(p, d))
  {
    ProductPositive(p);
    var root := LpPrice.Isqrt(p.Product());
    GeometricMeanBelowRoot(p, root);
    StepStaysAboveRoot(p, d, root);
    LpPrice.SquaresNoLess(root + 1, NextD(p, d) + 1);
    TwiceSmallBelowRoot(p);
    StepStaysAboveRoot(p, d, 2 * p.small);
  }

  lemma TwiceSmallBelowRoot(p: Pool)
    requires p.Valid()
    ensures BelowRoot(p, 2 * p.small)
  {
    MulMono(p.small, p.large, p.small);
    assert (2 * p.small) * (2 * p.small) == 4 * (p.small * p.small);
    assert p.Product() == 4 * (p.small * p.large);
    GeometricMeanBelowRoot(p, 2 * p.small);
  }

  /** A step that moves by at most one unit ends at most one unit above the root. */
  lemma ConvergedNearRoot(p: Pool, d: int)
    requires p.Valid() && d > 0 && Grounded(p, d) && Near(NextD(p, d), d)
    ensures BelowRoot(p, NextD(p, d) - 1)
  {
    Positive(p, d);
    DpBounds(p, d);
    DpShortfall(p, d);
    ProductPositive(p);
    var P, B, T, q, w, n := p.Product(), p.ann - 1, p.ann * p.Sum(), Dp(p, d), 2 * p.small, NextD(p, d);
    FloorBounds(Numerator(p, d), Denominator(p, d));
    assert (d + 1) * (d + 1) == d * d + 2 * d + 1;
    if n == d {
      ConvergedUpRate(B, T, q, d, d);
      ConvergedStill(P, B, T, q, w, d);
    } else if n == d + 1 {
      ConvergedUp(P, B, T, q, w, d);
    } else if d >= 3 {
      ConvergedDown(P, B, T, q, w, d);
    } else {
      NonPositiveBelowRoot(p, n - 1);
    }
  }

  lemma NonPositiveBelowRoot(p: Pool, r: int)
    requires p.Valid() && r <= 0
    ensures BelowRoot(p, r)
  {
    ProductPositive(p);
    var P, A := p.Product(), p.ann;
    MulNonNeg(P, A - 1);
    MulMono(r, 0, P * (A - 1));
    CubeMono(r, 0);
    MulNonNeg(P, A);
    MulNonNeg(P * A, p.Sum());
  }

  lemma ConvergedUpRate(B: int, T: int, q: int, d: int, n: int)
    requires d > 0 && q >= 0 && d <= n
    requires n * (B * d + 3 * q) <= (T + 2 * q) * d
    ensures B * n + q <= T
  {
    MulMono(d, n, q);
    ConvergedUpIdentities(B, T, q, d, n);
    CancelLe(B * n + q, T, d);
  }

  lemma ConvergedUpIdentities(B: int, T: int, q: int, d: int, n: int)
    ensures n * (B * d + 3 * q) == B * n * d + 3 * (n * q)
    ensures (T + 2 * q) * d == T * d + 2 * (d * q)
    ensures (B * n + q) * d == B * n * d + d * q
  {
  }

  lemma ConvergedStill(P: int, B: int, T: int, q: int, w: int, d: int)
    requires P > 0 && B >= 1 && 0 < w <= d && B * d + q <= T
    requires d * d * d + d - w * d + w - P <= P * q
    ensures (d - 1) * (d - 1) * (d - 1) + P * B * (d - 1) <= P * T
  {
    MulMono(B * d + q, T, P);
    MulMono(1, B, P);
    StillResidue(w, d);
    StillIdentities(P, B, q, d);
    StillLinear((d - 1) * (d - 1) * (d - 1), d * d * d + d - w * d + w, P, P * B, P * B * d, P * q, P * T, P * B * (d - 1));
  }

  lemma StillIdentities(P: int, B: int, q: int, d: int)
    ensures P * (B * d + q) == P * B * d + P * q
    ensures P * B * (d - 1) == P * B * d - P * B
  {
  }

  /** What is left of the argument once the products are named. */
  lemma StillLinear(cube: int, residue: int, P: int, PB: int, PBd: int, Pq: int, PT: int, rest: int)
    requires cube <= residue && residue - P <= Pq && P <= PB && PBd + Pq <= PT && rest == PBd - PB
    ensures cube + rest <= PT
  {
  }

  lemma StillResidue(w: int, d: int)
    requires 0 < w <= d
    ensures (d - 1) * (d - 1) * (d - 1) <= d * d * d + d - w * d + w
  {
    MulMono(w, d, d);
    MulNonNeg(d - 1, d);
    assert (d - 1) * (d - 1) * (d - 1) == d * d * d - 3 * (d * d) + 3 * d - 1;
  }

  lemma ConvergedUp(P: int, B: int, T: int, q: int, w: int, d: int)
    requires P > 0 && B >= 1 && q >= 0 && 2 <= w <= d && P <= d * d + 2 * d
    requires (d + 1) * (B * d + 3 * q) <= (T + 2 * q) * d
    requires d * d * d + d - w * d + w - P <= P * q
    ensures d * d * d + P * B * d <= P * T
  {
    var Q := P * q;
    StepTimesProduct(P, B, T, q, d, d + 1);
    MulMono(1, B, P);
    MulMono(P, P * B, d);
    MulMono(d * d * d + d - w * d + w - P, Q, d);
    UpResidue(P, Q, w, d);
    UpIdentities(P, B, Q, w, d);
    UpLinear((P * B * d) * d, (P * B) * d, Q * d, Q, (d * d * d) * d, d * d, w * d * d, w * d, P * d, P * T * d);
    CancelLe(d * d * d + P * B * d, P * T, d);
  }

  lemma UpIdentities(P: int, B: int, Q: int, w: int, d: int)
    ensures P * B * (d + 1) * d == (P * B * d) * d + (P * B) * d
    ensures Q * (3 * (d + 1) - 2 * d) == Q * d + 3 * Q
    ensures (d * d * d + d - w * d + w - P) * d == (d * d * d) * d + d * d - w * d * d + w * d - P * d
    ensures (d * d * d + P * B * d) * d == (d * d * d) * d + (P * B * d) * d
  {
  }

  lemma UpLinear(PBdd: int, PBd: int, Qd: int, Q: int, d4: int, d2: int, wd2: int, wd: int, Pd: int, PTd: int)
    requires PBdd + PBd + Qd + 3 * Q <= PTd && Pd <= PBd
    requires d4 + d2 - wd2 + wd - Pd <= Qd && wd2 - d2 - wd <= 3 * Q
    ensures d4 + PBdd <= PTd
  {
  }

  /** Multiplying one step's inequality `n * den <= num` by the product of the reserves. */
  lemma StepTimesProduct(P: int, B: int, T: int, q: int, d: int, n: int)
    requires P > 0 && n * (B * d + 3 * q) <= (T + 2 * q) * d
    ensures P * B * n * d + (P * q) * (3 * n - 2 * d) <= P * T * d
  {
    MulMono(n * (B * d + 3 * q), (T + 2 * q) * d, P);
    DenominatorTimes(P, B, q, d, n);
    NumeratorTimes(P, T, q, d);
    assert (P * q) * (3 * n - 2 * d) == 3 * (P * q) * n - 2 * (P * q) * d;
  }

  lemma UpResidue(P: int, Q: int, w: int, d: int)
    requires 2 <= w <= d && P <= d * d + 2 * d
    requires d * d * d + d - w * d + w - P <= Q
    ensures w * d * d - d * d - w * d <= 3 * Q
  {
    MulMono(1, d, d);
    MulMono(w, d, d * d + 2 * d - 3);
    assert w * (d * d + 2 * d - 3) == w * d * d + 2 * (w * d) - 3 * w;
    assert d * (d * d + 2 * d - 3) == d * d * d + 2 * (d * d) - 3 * d;
    MulMono(2, d, d * d);
  }

  lemma ConvergedDown(P: int, B: int, T: int, q: int, w: int, d: int)
    requires P >= 4 && B >= 1 && q >= 0 && d >= 3 && 2 <= w <= d
    requires (d - 1) * (B * d + 3 * q) <= (T + 2 * q) * d
    requires d * d * d + d - w * d + w - P <= P * q
    ensures (d - 2) * (d - 2) * (d - 2) + P * B * (d - 2) <= P * T
  {
    var Q, c := P * q, (d - 2) * (d - 2) * (d - 2);
    StepTimesProduct(P, B, T, q, d, d - 1);
    MulMono(1, B, P);
    MulMono(P, P * B, d);
    DownResidue(P, Q, w, d);
    DownIdentities(P, B, Q, c, d);
    DownLinear((P * B * (d - 2)) * d, (P * B) * d, Q * (d - 3), c * d, P * d, P * T * d);
    CancelLe(c + P * B * (d - 2), P * T, d);
  }

  lemma DownIdentities(P: int, B: int, Q: int, c: int, d: int)
    ensures P * B * (d - 1) * d == (P * B * (d - 2)) * d + (P * B) * d
    ensures Q * (3 * (d - 1) - 2 * d) == Q * (d - 3)
    ensures (c + P * B * (d - 2)) * d == c * d + (P * B * (d - 2)) * d
  {
  }

  lemma DownLinear(PBdd: int, PBd: int, Qd: int, cd: int, Pd: int, PTd: int)
    requires PBdd + PBd + Qd <= PTd && Pd <= PBd && cd <= Pd + Qd
    ensures cd + PBdd <= PTd
  {
  }

  lemma DownResidue(P: int, Q: int, w: int, d: int)
    requires P >= 4 && d >= 3 && 2 <= w <= d
    requires d * d * d + d - w * d + w - P <= Q
    ensures ((d - 2) * (d - 2) * (d - 2)) * d <= P * d + Q * (d - 3)
  {
    MulMono(d * d * d + d - w * d + w - P, Q, d - 3);
    MulNonNeg(d - 1, d - 3);
    MulMono(w, d, (d - 1) * (d - 3));
    DownExpansion(P, w, d);
    DownQuartic(d);
    if d > 3 { MulNonNeg(d - 4, 2 * d + 1); MulNonNeg(2 * d * d - 7 * d + 2, d); }
  }

  lemma DownExpansion(P: int, w: int, d: int)
    ensures (d * d * d + d - w * d + w - P) * (d - 3)
         == (d * d * d + d) * (d - 3) - w * ((d - 1) * (d - 3)) - P * d + 3 * P
  {
  }

  lemma DownQuartic(d: int)
    ensures (d * d * d + d) * (d - 3) - d * ((d - 1) * (d - 3))
         == ((d - 2) * (d - 2) * (d - 2)) * d + (2 * d * d - 7 * d + 2) * d
  {
  }

  // ----- the solver

  lemma IterateEnclosesRoot(p: Pool, d: int, fuel: nat, r: int)
    requires p.Valid() && d > 0 && Grounded(p, d) && Iterate(p, d, fuel).Ok?
    ensures BelowRoot(p, r) ==> r <= Iterate(p, d, fuel).value
    ensures BelowRoot(p, Iterate(p, d, fuel).value - 1)
    decreases fuel
  {
    var n := NextD(p, d);
    StepIsGrounded(p, d);
    if BelowRoot(p, r) { StepStaysAboveRoot(p, d, r); }
    if Near(n, d) {
      ConvergedNearRoot(p, d);
    } else {
      StepPositive(p, d);
      IterateEnclosesRoot(p, n, fuel - 1, r);
    }
  }

  lemma PoolOfValid(xa: int, xb: int, amp: int)
    requires Admitted(xa, xb, amp)
    ensures PoolOf(xa, xb, amp).Valid()
    ensures PoolOf(xa, xb, amp).Sum() == xa + xb && PoolOf(xa, xb, amp).Product() == 4 * xa * xb
    ensures Bounded(PoolOf(xa, xb, amp), xa + xb) && Grounded(PoolOf(xa, xb, amp), xa + xb)
  {
    var p := PoolOf(xa, xb, amp);
    SquareNonNeg(xa - xb);
    StartIdentities(xa, xb);
    StartBounded(p.ann, p.Sum());
  }

  lemma StartIdentities(xa: int, xb: int)
    ensures (xa - xb) * (xa - xb) + 4 * xa * xb == (xa + xb) * (xa + xb)
    ensures (xa + xb + 1) * (xa + xb + 1) == (xa + xb) * (xa + xb) + 2 * (xa + xb) + 1
    ensures 4 * Min(xa, xb) * Max(xa, xb) == 4 * xa * xb
  {
    if xa <= xb { assert Min(xa, xb) == xa; } else { assert Min(xa, xb) == xb; }
  }

  lemma StartBounded(ann: int, sum: int)
    requires sum >= 0
    ensures (ann - 1) * sum <= ann * sum
  {
    assert (ann - 1) * sum == ann * sum - sum;
  }

  /** Whenever the solver returns `D`, the integer part of the exact root is `D` or `D - 1`. */
  lemma StableDEnclosesRoot(xa: int, xb: int, amp: int, r: int)
    requires StableD(xa, xb, amp).Ok?
    ensures BelowRoot(PoolOf(xa, xb, amp), r) ==> r <= StableD(xa, xb, amp).value
    ensures BelowRoot(PoolOf(xa, xb, amp), StableD(xa, xb, amp).value - 1)
  {
    PoolOfValid(xa, xb, amp);
    IterateEnclosesRoot(PoolOf(xa, xb, amp), xa + xb, MAX_D_ITERATIONS, r);
  }

  /** `D` is between twice the geometric mean and the plain sum of the reserves (plus one unit),
      the two ends of the StableSwap invariant. */
  lemma StableDBetweenMeans(xa: int, xb: int, amp: int, r: int)
    requires StableD(xa, xb, amp).Ok?
    ensures 0 <= r && r * r <= 4 * xa * xb ==> r <= StableD(xa, xb, amp).value
    ensures StableD(xa, xb, amp).value <= xa + xb + 1
  {
    var p := PoolOf(xa, xb, amp);
    PoolOfValid(xa, xb, amp);
    StableDEnclosesRoot(xa, xb, amp, r);
    if 0 <= r && r * r <= 4 * xa * xb { GeometricMeanBelowRoot(p, r); }
    SumAboveRoot(p, StableD(xa, xb, amp).value - 1);
  }

  lemma GeometricMeanBelowRoot(p: Pool, r: int)
    requires p.Valid() && 0 <= r && r * r <= p.Product()
    ensures BelowRoot(p, r)
  {
    var P, A := p.Product(), p.ann;
    ProductPositive(p);
    LpPrice.MeanInequality(2 * p.small, 2 * p.large, r);
    MulMono(r * r, P, r);
    MulMono(r, p.Sum(), A);
    MulMono(A * r, A * p.Sum(), P);
    assert P * r + P * (A - 1) * r == P * (A * r);
  }

  lemma SumSquared(a: int, b: int)
    ensures (a - b) * (a - b) == (a + b) * (a + b) - 4 * (a * b)
  {
  }

  lemma SumAboveRoot(p: Pool, r: int)
    requires p.Valid() && BelowRoot(p, r)
    ensures r <= p.Sum()
  {
    if r > p.Sum() {
      ProductPositive(p);
      SquareNonNeg(p.small - p.large);
      SumSquared(p.small, p.large);
      LpPrice.StrictSquares(p.Sum(), r);
      AboveSum(p.Product(), p.ann, p.Sum(), r);
    }
  }

  lemma AboveSum(P: int, A: int, S: int, r: int)
    requires P > 0 && A > 0 && 0 < S < r && P < r * r
    ensures P * (A * S) < r * r * r + P * (A - 1) * r
  {
    MulMono(P + 1, r * r, r);
    MulMono(S, r, A);
    MulMono(A * S, A * r, P);
    AboveIdentities(P, A, r);
  }

  lemma AboveIdentities(P: int, A: int, r: int)
    ensures P * r + P * (A - 1) * r == P * (A * r)
    ensures (P + 1) * r == P * r + r && (r * r) * r == r * r * r
  {
  }

  /** The order of the two reserves does not matter. */
  lemma StableDIsSymmetric(xa: int, xb: int, amp: int)
    ensures StableD(xa, xb, amp) == StableD(xb, xa, amp)
  {
    assert Admitted(xa, xb, amp) ==> PoolOf(xa, xb, amp) == PoolOf(xb, xa, amp);
  }

  // ----- the program

  /** Only the two checked products can exceed 256 bits: everything else a step computes fits. */
  lemma StepInRange(p: Pool, d: int)
    requires p.Valid() && 0 < d && Bounded(p, d)
    ensures 0 <= d * d <= U256_MAX
    ensures 0 <= FirstQuotient(p, d)
    ensures 0 <= p.ann * p.Sum() <= 40_000_000 * MAX_NORMALIZED_RESERVE_WAD
    ensures 0 <= (p.ann - 1) * d <= 40_000_000 * MAX_NORMALIZED_RESERVE_WAD
    ensures FirstQuotient(p, d) * d <= U256_MAX ==>
      0 <= 3 * Dp(p, d) <= U256_MAX - 40_000_000 * MAX_NORMALIZED_RESERVE_WAD
  {
    BoundedIsSmall(p, d);
    DpBounds(p, d);
    var M := MAX_NORMALIZED_RESERVE_WAD;
    MulMono(d, 4 * M, d);
    MulMono(d, 4 * M, 4 * M);
    MulNonNeg(d, d);
    FloorNonNeg(d * d, 2 * p.small);
    MulMono(p.ann, 2 * MAX_AMP, p.Sum());
    MulNonNeg(p.ann, p.Sum());
    MulNonNeg(p.ann - 1, d);
    if FirstQuotient(p, d) * d <= U256_MAX {
      var q := Dp(p, d);
      FloorBounds(FirstQuotient(p, d) * d, 2 * p.large);
      if p.large == 1 {
        TinyPool(p, d, q);
      } else {
        MulMono(4, 2 * p.large, q);
      }
    }
  }

  lemma TinyPool(p: Pool, d: int, q: int)
    requires p.Valid() && 0 < d <= 4 && p.large == 1 && q == Dp(p, d)
    requires p.Product() * q <= d * d * d
    ensures q <= 16
  {
    assert p.small == 1 && p.Product() == 4;
    CubeMono(d, 4);
  }

  method SolveStableD(xaWad: i128, xbWad: i128, amp: u128) returns (r: Result<u256>)
    ensures r == StableD(xaWad, xbWad, amp)
  {
    if xaWad <= 0 || xbWad <= 0 || !(MIN_AMP <= amp <= MAX_AMP)
       || xaWad > MAX_NORMALIZED_RESERVE_WAD || xbWad > MAX_NORMALIZED_RESERVE_WAD {
      return Err(InvalidPrice);
    }
    ghost var p := PoolOf(xaWad, xbWad, amp);
    PoolOfValid(xaWad, xbWad, amp);
    var n: u256, one: u256 := N_COINS, 1;
    var small: u256, large: u256 := Min(xaWad, xbWad), Max(xaWad, xbWad);
    var sum: u256 := Add(small, large);
    var ann: u256 := Mul(amp, n);

    var d: u256 := sum;
    for i := 0 to MAX_D_ITERATIONS
      invariant 0 < d && Bounded(p, d)
      invariant StableD(xaWad, xbWad, amp) == Iterate(p, d, MAX_D_ITERATIONS - i)
    {
      StepPositive(p, d);
      StepStaysBounded(p, d);
      var dPrev := d;
      d :- StepD(p, small, large, sum, ann, d);
      var converged := if d >= dPrev then Sub(d, dPrev) <= one else Sub(dPrev, d) <= one;
      if converged {
        return Ok(d);
      }
    }
    return Err(InvalidPrice);
  }

  /** The loop body up to the new iterate. */
  method StepD(ghost p: Pool, small: u256, large: u256, sum: u256, ann: u256, d: u256) returns (r: Result<u256>)
    requires p.Valid() && p == Pool(small, large, ann) && sum == p.Sum() && 0 < d && Bounded(p, d)
    ensures r.Err? ==> r.error == InvalidPrice
    ensures r.Ok? <==> StepFits(p, d)
    ensures r.Ok? ==> r.value == NextD(p, d)
  {
    var n: u256, one: u256 := N_COINS, 1;
    StepInRange(p, d);
    var quotient: u256 := Div(Mul(d, d), Mul(small, n));
    var product := CheckedMul(quotient, d);
    if product.Err? { return product; }
    var dp: u256 := Div(product.value, Mul(large, n));

    var numerator := CheckedMul(Add(Mul(ann, sum), Mul(n, dp)), d);
    if numerator.Err? { return numerator; }
    var denominator: u256 := Add(Mul(Sub(ann, one), d), Mul(Add(n, one), dp));
    Positive(p, d);
    return Ok(Div(numerator.value, denominator));
  }

  function StablePriceSpec(a: LpPrice.Leg, b: LpPrice.Leg, s: LpPrice.Supply, amp: int): (r: Result<int>)
    ensures r.Err? ==> r.error == InvalidPrice
  {
    if !LpPrice.Positive(a, b, s) then Err(InvalidPrice)
    else
      var xa :- LpPrice.AmountToWad(a.reserve, a.decimals);
      var xb :- LpPrice.AmountToWad(b.reserve, b.decimals);
      StableDError(xa, xb, amp);
      var d :- StableD(xa, xb, amp);
      var shares :- LpPrice.AmountToWad(s.totalShares, s.decimals);
      if shares <= 0 then Err(InvalidPrice)
      else LpPrice.PriceOf(Floor(d * Min(a.priceWad, b.priceWad), shares))
  }

  lemma IterateError(p: Pool, d: int, fuel: nat)
    requires p.Valid() && d > 0
    ensures Iterate(p, d, fuel).Err? ==> Iterate(p, d, fuel).error == InvalidPrice
    decreases fuel
  {
    if fuel > 0 && StepFits(p, d) && !Near(NextD(p, d), d) {
      StepPositive(p, d);
      IterateError(p, NextD(p, d), fuel - 1);
    }
  }

  lemma StableDError(xa: int, xb: int, amp: int)
    ensures StableD(xa, xb, amp).Err? ==> StableD(xa, xb, amp).error == InvalidPrice
  {
    if Admitted(xa, xb, amp) {
      PoolOfValid(xa, xb, amp);
      IterateError(PoolOf(xa, xb, amp), xa + xb, MAX_D_ITERATIONS);
    }
  }

  method FairStableLpPrice(a: LpPrice.Leg, b: LpPrice.Leg, s: LpPrice.Supply, amp: u128)
    returns (r: Result<int>)
    ensures r == StablePriceSpec(a, b, s, amp)
  {
    if a.reserve <= 0 || b.reserve <= 0 || a.priceWad <= 0 || b.priceWad <= 0 || s.totalShares <= 0 {
      return Err(InvalidPrice);
    }
    var xa :- LpPrice.AmountToWad(a.reserve, a.decimals);
    var xb :- LpPrice.AmountToWad(b.reserve, b.decimals);
    var solved := SolveStableD(xa, xb, amp);
    var d :- solved;
    var minPrice: i128 := Min(a.priceWad, b.priceWad);
    var shares :- LpPrice.AmountToWad(s.totalShares, s.decimals);
    if shares <= 0 {
      return Err(InvalidPrice);
    }
    StableDBetweenMeans(xa, xb, amp, 0);
    MulMono(d, 3 * MAX_NORMALIZED_RESERVE_WAD, minPrice);
    MulMono(minPrice, I128_MAX, 3 * MAX_NORMALIZED_RESERVE_WAD);
    var fair: u256 := Div(Mul(d, minPrice), shares);
    r := LpPrice.PriceOf(fair);
  }

  /** All shares at the quoted price are worth at most the whole pool at the cheaper leg's price,
      plus one raw unit. */
  lemma StablePriceBelowCheaperLeg(a: LpPrice.Leg, b: LpPrice.Leg, s: LpPrice.Supply, amp: int)
    requires StablePriceSpec(a, b, s, amp).Ok?
    ensures LpPrice.AmountToWad(a.reserve, a.decimals).Ok? && LpPrice.AmountToWad(b.reserve, b.decimals).Ok?
    ensures LpPrice.AmountToWad(s.totalShares, s.decimals).Ok?
    ensures var xa, xb := LpPrice.AmountToWad(a.reserve, a.decimals).value, LpPrice.AmountToWad(b.reserve, b.decimals).value;
      StablePriceSpec(a, b, s, amp).value * LpPrice.AmountToWad(s.totalShares, s.decimals).value
        <= (xa + xb + 1) * Min(a.priceWad, b.priceWad)
  {
    var xa, xb := LpPrice.AmountToWad(a.reserve, a.decimals).value, LpPrice.AmountToWad(b.reserve, b.decimals).value;
    var d, price := StableD(xa, xb, amp).value, Min(a.priceWad, b.priceWad);
    StableDBetweenMeans(xa, xb, amp, 0);
    MulMono(d, xa + xb + 1, price);
    FloorBounds(d * price, LpPrice.AmountToWad(s.totalShares, s.decimals).value);
  }

  /** The lower half: the shares and one raw unit more of price are worth more than every integer at or
      below the exact invariant at the cheaper leg's price. */
  lemma StablePriceAboveInvariant(a: LpPrice.Leg, b: LpPrice.Leg, s: LpPrice.Supply, amp: int, r: int)
    requires StablePriceSpec(a, b, s, amp).Ok?
    requires BelowRoot(PoolOf(LpPrice.AmountToWad(a.reserve, a.decimals).value, LpPrice.AmountToWad(b.reserve, b.decimals).value, amp), r)
    ensures LpPrice.AmountToWad(s.totalShares, s.decimals).Ok?
    ensures r * Min(a.priceWad, b.priceWad)
          < (StablePriceSpec(a, b, s, amp).value + 1) * LpPrice.AmountToWad(s.totalShares, s.decimals).value
  {
    var xa, xb := LpPrice.AmountToWad(a.reserve, a.decimals).value, LpPrice.AmountToWad(b.reserve, b.decimals).value;
    StableDEnclosesRoot(xa, xb, amp, r);
    FloorAbove(r, StableD(xa, xb, amp).value, Min(a.priceWad, b.priceWad), LpPrice.AmountToWad(s.totalShares, s.decimals).value,
               StablePriceSpec(a, b, s, amp).value);
  }

  lemma FloorAbove(r: int, d: int, price: int, shares: int, quoted: int)
    requires r <= d && price >= 0 && shares > 0 && quoted == Floor(d * price, shares)
    ensures r * price < (quoted + 1) * shares
  {
    MulMono(r, d, price);
    FloorBounds(d * price, shares);
    assert (quoted + 1) * shares == quoted * shares + shares;
  }

  lemma BalancedStep(x: int, ann: int)
    requires x > 0 && ann >= 2
    ensures Floor((2 * x) * (2 * x), 2 * x) == 2 * x
    ensures (ann - 1) * (2 * x) + 3 * (2 * x) > 0
    ensures Floor((ann * (2 * x) + 2 * (2 * x)) * (2 * x), (ann - 1) * (2 * x) + 3 * (2 * x)) == 2 * x
  {
    var d, e := 2 * x, (ann + 2) * (2 * x);
    FloorUnique(d, d * d, d);
    MulMono(1, ann + 2, d);
    assert (ann - 1) * d + 3 * d == e && ann * d + 2 * d == e;
    FloorUnique(d, e * d, e) by { assert e * d == d * e; }
  }

  /** On equal reserves the solver stops at their sum, for every amplification. */
  lemma BalancedStableD(x: int, amp: int)
    requires Admitted(x, x, amp)
    ensures StableD(x, x, amp) == Ok(2 * x)
  {
    PoolOfValid(x, x, amp);
    BalancedNext(Pool(x, x, amp * N_COINS));
  }

  lemma BalancedNext(p: Pool)
    requires p.Valid() && p.small == p.large
    ensures StepFits(p, p.Sum()) && NextD(p, p.Sum()) == p.Sum()
  {
    BalancedStep(p.small, p.ann);
    BalancedFits(p.small, p.ann);
    assert FirstQuotient(p, p.Sum()) == p.Sum() && Dp(p, p.Sum()) == p.Sum();
  }

  lemma BalancedFits(x: int, ann: int)
    requires 0 < x <= MAX_NORMALIZED_RESERVE_WAD && 2 <= ann <= 2 * MAX_AMP
    ensures (2 * x) * (2 * x) <= U256_MAX && (ann * (2 * x) + 2 * (2 * x)) * (2 * x) <= U256_MAX
  {
    var d, m := 2 * x, 2 * MAX_NORMALIZED_RESERVE_WAD;
    MulMono(d, m, d);
    MulMono(d, m, m);
    MulMono(ann + 2, 2 * MAX_AMP + 2, d * d) by { MulNonNeg(d, d); }
    assert (ann * d + 2 * d) * d == (ann + 2) * (d * d);
  }

  /** A balanced pool is always priced, at the whole of both reserves at the cheaper price over the
      supply, floored once. */
  lemma BalancedStablePool(a: LpPrice.Leg, b: LpPrice.Leg, s: LpPrice.Supply, amp: int)
    requires LpPrice.Positive(a, b, s) && MIN_AMP <= amp <= MAX_AMP
    requires LpPrice.AmountToWad(a.reserve, a.decimals).Ok? && LpPrice.AmountToWad(s.totalShares, s.decimals).Ok?
    requires LpPrice.AmountToWad(a.reserve, a.decimals) == LpPrice.AmountToWad(b.reserve, b.decimals)
    requires LpPrice.AmountToWad(a.reserve, a.decimals).value <= MAX_NORMALIZED_RESERVE_WAD
    ensures var reserves := 2 * LpPrice.AmountToWad(a.reserve, a.decimals).value;
      var shares := LpPrice.AmountToWad(s.totalShares, s.decimals).value;
      shares > 0 && StablePriceSpec(a, b, s, amp) == LpPrice.PriceOf(Floor(reserves * Min(a.priceWad, b.priceWad), shares))
  {
    AmountPositive(a.reserve, a.decimals);
    AmountPositive(s.totalShares, s.decimals);
    BalancedStableD(LpPrice.AmountToWad(a.reserve, a.decimals).value, amp);
  }

  lemma AmountPositive(amount: i128, decimals: nat)
    requires amount > 0 && LpPrice.AmountToWad(amount, decimals).Ok?
    ensures LpPrice.AmountToWad(amount, decimals).value > 0
  {
    MulMono(1, Pow10(WAD_DECIMALS - decimals), amount);
  }
}
