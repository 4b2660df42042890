/** The StableSwap solver converges: from the sum of the reserves its iterates fall towards the root by
    at least a third of the distance a step, so the loop ends well within its 255 turns, and the solver
    fails exactly where its very first step does not fit the 256-bit word. */
module StableConvergence {
  import opened Numbers
  import opened Rounding
  import opened StableSwap
  import LpPrice

  // ----- smaller iterates fit

  lemma FitsBelow(p: Pool, d: int, n: int)
    requires p.Valid() && 0 < n <= d && StepFits(p, d)
    ensures StepFits(p, n)
  {
    var f, g := FirstQuotient(p, n), FirstQuotient(p, d);
    MulMono(n, d, n);
    MulMono(n, d, d);
    FloorMono(n * n, d * d, 2 * p.small);
    MulNonNeg(n, n);
    FloorNonNeg(n * n, 2 * p.small);
    MulMono(f, g, n);
    MulMono(n, d, g);
    FloorMono(f * n, g * d, 2 * p.large);
    DpBounds(p, n);
    NumeratorMono(p.ann * p.Sum() + 2 * Dp(p, n), p.ann * p.Sum() + 2 * Dp(p, d), n, d) by { MulNonNeg(p.ann, p.Sum()); }
  }

  lemma NumeratorMono(x: int, y: int, n: int, d: int)
    requires 0 <= x <= y && 0 <= n <= d
    ensures x * n <= y * d
  {
    MulMono(x, y, n);
    MulMono(n, d, y);
  }

  // ----- the iteration never turns back up by more than one

  /** Below any point above the root every point is above it: the polynomial increases. */
  lemma RootMono(p: Pool, x: int, y: int)
    requires p.Valid() && x <= y && BelowRoot(p, y)
    ensures BelowRoot(p, x)
  {
    ProductPositive(p);
    CubeMono(x, y);
    MulNonNeg(p.Product(), p.ann - 1);
    MulMono(x, y, p.Product() * (p.ann - 1));
  }

  /** `d >= 7`: a step of two or more upwards would put the root above `d + 1`. */
  lemma UpByTwo(P: int, B: int, T: int, q: int, w: int, d: int)
    requires P > 0 && B >= 1 && q >= 0 && 0 < w <= d && 7 <= d && P <= d * d + 2 * d
    requires (d + 2) * (B * d + 3 * q) <= (T + 2 * q) * d
    requires d * d * d + d - w * d + w - P <= P * q
    ensures (d + 1) * (d + 1) * (d + 1) + P * B * (d + 1) <= P * T
  {
    UpRate(B, T, q, d);
    MulMono((B * (d + 2)) * d + (d + 6) * q, T * d, P);
    MulMono(d * d * d + d - w * d + w - P, P * q, d + 6);
    MulMono(1, B, P * d) by { MulNonNeg(P, d); }
    RateTimes(P, B, q, d);
    Pull(P, T, d);
    ShortfallBySix(P, w, d);
    CubeTimes(d, P * B * (d + 1));
    UpTwoResidue(P, w, d);
    UpTwoLinear((P * B * (d + 1)) * d, B * (P * d), (d + 6) * (P * q), (P * T) * d, d * d * d * d, d * d * d, d * d, d,
                w * (d * d), w * d, w, P * d, P);
    CancelLe((d + 1) * (d + 1) * (d + 1) + P * B * (d + 1), P * T, d);
  }

  lemma UpTwoLinear(X: int, Y: int, Z: int, W: int, d4: int, d3: int, d2: int, d: int, wd2: int, wd: int, w: int, Pd: int, P: int)
    requires X + Y + Z <= W && Pd <= Y && d4 + 6 * d3 + d2 + 6 * d - wd2 - 5 * wd + 6 * w - Pd - 6 * P <= Z
    requires wd2 + 5 * wd + 6 * P + 2 * d2 <= 3 * d3 + 5 * d + 6 * w
    ensures d4 + 3 * d3 + 3 * d2 + d + X <= W
  {
  }

  lemma UpRate(B: int, T: int, q: int, d: int)
    requires (d + 2) * (B * d + 3 * q) <= (T + 2 * q) * d
    ensures (B * (d + 2)) * d + (d + 6) * q <= T * d
  {
    assert (d + 2) * (B * d + 3 * q) == (B * (d + 2)) * d + 3 * (d * q) + 6 * q;
    assert (T + 2 * q) * d == T * d + 2 * (d * q);
    assert (d + 6) * q == d * q + 6 * q;
  }

  lemma RateTimes(P: int, B: int, q: int, d: int)
    ensures P * ((B * (d + 2)) * d + (d + 6) * q) == (P * B * (d + 1)) * d + B * (P * d) + (d + 6) * (P * q)
  {
    assert P * ((B * (d + 2)) * d) == (P * B * (d + 2)) * d by { Pull(P, B * (d + 2), d); Pull(P, B, d + 2); }
    assert P * B * (d + 2) == P * B * (d + 1) + P * B;
    assert (P * B * (d + 1) + P * B) * d == (P * B * (d + 1)) * d + B * (P * d);
    assert P * ((d + 6) * q) == (d + 6) * (P * q);
  }

  lemma ShortfallBySix(P: int, w: int, d: int)
    ensures (d + 6) * (d * d * d + d - w * d + w - P)
         == d * d * d * d + 6 * (d * d * d) + d * d + 6 * d - w * (d * d) - 5 * (w * d) + 6 * w - P * d - 6 * P
  {
  }

  lemma CubeTimes(d: int, x: int)
    ensures ((d + 1) * (d + 1) * (d + 1) + x) * d == d * d * d * d + 3 * (d * d * d) + 3 * (d * d) + d + x * d
  {
    assert (d + 1) * (d + 1) * (d + 1) == d * d * d + 3 * (d * d) + 3 * d + 1;
  }

  lemma UpTwoResidue(P: int, w: int, d: int)
    requires 0 < w <= d && 7 <= d && P <= d * d + 2 * d
    ensures w * (d * d) + 5 * (w * d) + 6 * P + 2 * (d * d) <= 3 * (d * d * d) + 5 * d + 6 * w
  {
    SquareNonNeg(d);
    MulMono(w, d, d * d);
    MulMono(w, d, d);
    MulMono(7, d, d);
    MulMono(7 * d, d * d, d);
    assert (d * d) * d == d * d * d && (7 * d) * d == 7 * (d * d);
  }

  /** A step of two or more upwards and its consequence, with the products of the pool named. */
  predicate StepsUpByTwo(S: int, q: int, A: int, d: int) {
    (d + 2) * ((A - 1) * d + 3 * q) <= (A * S + 2 * q) * d
  }

  predicate RootAbove(P: int, S: int, A: int, d: int) {
    (d + 1) * (d + 1) * (d + 1) + P * (A - 1) * (d + 1) <= P * (A * S)
  }

  lemma UpFromTwo(P: int, S: int, q: int, A: int)
    requires 2 <= A
    requires (P == 4 && S == 2 && q == 2)
          || (P == 8 && S == 3 && q == 1)
    ensures StepsUpByTwo(S, q, A, 2) ==> RootAbove(P, S, A, 2)
  {
  }

  lemma UpFromThree(P: int, S: int, q: int, A: int)
    requires 2 <= A
    requires (P == 8 && S == 3 && q == 3)
          || (P == 12 && S == 4 && q == 2)
    ensures StepsUpByTwo(S, q, A, 3) ==> RootAbove(P, S, A, 3)
  {
  }

  lemma UpFromFour(P: int, S: int, q: int, A: int)
    requires 2 <= A
    requires (P == 12 && S == 4 && q == 5)
          || (P == 16 && S == 5 && q == 4)
          || (P == 20 && S == 6 && q == 3)
          || (P == 24 && S == 7 && q == 2)
          || (P == 16 && S == 4 && q == 4)
          || (P == 24 && S == 5 && q == 2)
    ensures StepsUpByTwo(S, q, A, 4) ==> RootAbove(P, S, A, 4)
  {
  }

  lemma UpFromFive(P: int, S: int, q: int, A: int)
    requires 2 <= A
    requires (P == 16 && S == 5 && q == 7)
          || (P == 20 && S == 6 && q == 6)
          || (P == 24 && S == 7 && q == 5)
          || (P == 28 && S == 8 && q == 4)
          || (P == 32 && S == 9 && q == 3)
          || (P == 24 && S == 5 && q == 5)
          || (P == 32 && S == 6 && q == 3)
    ensures StepsUpByTwo(S, q, A, 5) ==> RootAbove(P, S, A, 5)
  {
  }

  lemma UpFromSix(P: int, S: int, q: int, A: int)
    requires 2 <= A
    requires (P == 20 && S == 6 && q == 10)
          || (P == 24 && S == 7 && q == 9)
          || (P == 28 && S == 8 && q == 7)
          || (P == 32 && S == 9 && q == 6)
          || (P == 36 && S == 10 && q == 6)
          || (P == 40 && S == 11 && q == 5)
          || (P == 44 && S == 12 && q == 4)
          || (P == 48 && S == 13 && q == 4)
          || (P == 32 && S == 6 && q == 6)
          || (P == 40 && S == 7 && q == 5)
          || (P == 48 && S == 8 && q == 4)
          || (P == 36 && S == 6 && q == 6)
          || (P == 48 && S == 7 && q == 4)
    ensures StepsUpByTwo(S, q, A, 6) ==> RootAbove(P, S, A, 6)
  {
  }

  /** The few points below seven: the reserves are bounded, and all is linear in the amplification. */
  lemma SmallUpByTwo(p: Pool, d: int)
    requires p.Valid() && d <= 6 && Grounded(p, d) && d <= p.Sum()
    ensures StepsUpByTwo(p.Sum(), Dp(p, d), p.ann, d) ==> RootAbove(p.Product(), p.Sum(), p.ann, d)
  {
    var a, b := p.small, p.large;
    SmallReserves(a, b, d);
    var P, S, q := p.Product(), p.Sum(), Dp(p, d);
    if d == 2 {
      assert (a == 1 && b == 1) || (a == 1 && b == 2);
      UpFromTwo(P, S, q, p.ann);
    } else if d == 3 {
      assert (a == 1 && b == 2) || (a == 1 && b == 3);
      UpFromThree(P, S, q, p.ann);
    } else if d == 4 {
      assert (a == 1 && b == 3) || (a == 1 && b == 4) || (a == 1 && b == 5) || (a == 1 && b == 6) || (a == 2 && b == 2) || (a == 2 && b == 3);
      UpFromFour(P, S, q, p.ann);
    } else if d == 5 {
      assert (a == 1 && b == 4) || (a == 1 && b == 5) || (a == 1 && b == 6) || (a == 1 && b == 7) || (a == 1 && b == 8) || (a == 2 && b == 3) || (a == 2 && b == 4);
      UpFromFive(P, S, q, p.ann);
    } else {
      SmallSix(p);
    }
  }

  lemma SmallSix(p: Pool)
    requires p.Valid() && Grounded(p, 6) && 6 <= p.Sum()
    ensures StepsUpByTwo(p.Sum(), Dp(p, 6), p.ann, 6) ==> RootAbove(p.Product(), p.Sum(), p.ann, 6)
  {
    var a, b := p.small, p.large;
    SmallReserves(a, b, 6);
    assert (a == 1 && b == 5) || (a == 1 && b == 6) || (a == 1 && b == 7) || (a == 1 && b == 8) || (a == 1 && b == 9) || (a == 1 && b == 10) || (a == 1 && b == 11) || (a == 1 && b == 12) || (a == 2 && b == 4) || (a == 2 && b == 5) || (a == 2 && b == 6) || (a == 3 && b == 3) || (a == 3 && b == 4);
    UpFromSix(p.Product(), p.Sum(), Dp(p, 6), p.ann);
  }

  lemma SmallReserves(a: int, b: int, d: int)
    requires 1 <= a <= b && 2 * a <= d <= 6 && 4 * a * b < (d + 1) * (d + 1)
    ensures a <= 3 && b <= 12 && 2 <= d && 4 * a * b <= d * d + 2 * d
  {
    MulMono(1, a, b);
    assert 4 * a * b == 4 * (a * b);
    assert (d + 1) * (d + 1) == d * d + 2 * d + 1;
    MulMono(d, 6, d);
  }

  /** A step never moves up by more than one from a point whose successor is above the root. */
  lemma NeverUpByTwo(p: Pool, d: int)
    requires p.Valid() && 0 < d <= p.Sum() && Grounded(p, d) && !BelowRoot(p, d + 1)
    ensures NextD(p, d) <= d + 1
  {
    Positive(p, d);
    DpBounds(p, d);
    DpShortfall(p, d);
    FloorGe(d + 2, Numerator(p, d), Denominator(p, d));
    if d <= 6 { SmallUpByTwo(p, d); }
    NeverUpAt(p, d, Dp(p, d));
  }

  lemma NeverUpAt(p: Pool, d: int, q: int)
    requires p.Valid() && 0 < d && Grounded(p, d) && !BelowRoot(p, d + 1) && 0 <= q
    requires d * d * d + d - 2 * p.small * d + 2 * p.small - p.Product() <= p.Product() * q
    requires d <= 6 ==> (StepsUpByTwo(p.Sum(), q, p.ann, d) ==> RootAbove(p.Product(), p.Sum(), p.ann, d))
    ensures !StepsUpByTwo(p.Sum(), q, p.ann, d)
  {
    if d > 6 && StepsUpByTwo(p.Sum(), q, p.ann, d) {
      ProductPositive(p);
      assert (d + 1) * (d + 1) == d * d + 2 * d + 1;
      UpByTwo(p.Product(), p.ann - 1, p.ann * p.Sum(), q, 2 * p.small, d);
    }
  }

  // ----- each step takes at least a third of the way

  /** With `e = r + 1` above the root and at most `d`: a third of the distance, less two. */
  lemma ThirdOfTheWay(P: int, B: int, T: int, q: int, w: int, b: int, d: int, e: int)
    requires P == w * (2 * b) && B >= 1 && q >= 0 && 0 < w <= d && 0 < e <= d && e <= 2 * b && 0 < b
    requires P * T < e * e * e + P * B * e
    requires d * d * d + d - w * d + w - P <= P * q
    ensures (d - e - 6) * (B * d + 3 * q) <= 3 * (d * (B * d + q - T))
  {
    MulMono(1, 2 * b, w);
    MulNonNeg(P, q);
    RootTimes(P, B, T, d, e);
    ScaledWay(P * B * d, P * q, P * T, P, w, b, d, e);
    Unscaled(P, B, T, q, d, d - e - 6);
    CancelLe((d - e - 6) * (B * d + 3 * q), 3 * (d * (B * d + q - T)), P);
  }

  lemma RootTimes(P: int, B: int, T: int, d: int, e: int)
    requires P > 0 && B >= 1 && d > 0 && P * T < e * e * e + P * B * e
    ensures P * d <= P * B * d && (P * T) * d <= d * (e * e * e) + (P * B * d) * e
  {
    MulNonNeg(P, d);
    MulMono(1, B, P * d);
    assert B * (P * d) == P * B * d;
    MulMono(P * T, e * e * e + P * B * e, d);
    assert (e * e * e + P * B * e) * d == d * (e * e * e) + (P * B * d) * e;
  }

  lemma Unscaled(P: int, B: int, T: int, q: int, d: int, k: int)
    ensures (k * (B * d + 3 * q)) * P == k * (P * B * d + 3 * (P * q))
    ensures (3 * (d * (B * d + q - T))) * P == 3 * (d * (P * B * d + P * q - P * T))
  {
    assert (B * d + 3 * q) * P == P * B * d + 3 * (P * q);
    assert (B * d + q - T) * P == P * B * d + P * q - P * T;
    Pull(k, B * d + 3 * q, P);
    Pull(3 * d, B * d + q - T, P);
  }

  lemma Pull(k: int, x: int, P: int)
    ensures (k * x) * P == k * (x * P)
  {
  }

  /** The same with everything multiplied by the product of the reserves: `z`, `Q` and `U` for
      `P * B * d`, `P * q` and `P * T`. */
  lemma ScaledWay(z: int, Q: int, U: int, P: int, w: int, b: int, d: int, e: int)
    requires P == w * (2 * b) && 0 < w && 0 < b && 0 < e <= d && e <= 2 * b && 0 <= Q && P * d <= z
    requires U * d <= d * (e * e * e) + z * e && d * d * d + d - w * d + w - P <= Q
    ensures (d - e - 6) * (z + 3 * Q) <= 3 * (d * (z + Q - U))
  {
    MulNonNeg(e, d);
    MulNonNeg(e, w);
    WidthBounds(P, w, b, d, e);
    MulMono(e, d, z);
    ShortfallBound(P, w, d, e, Q);
    CubesApart(d, e);
    WayIdentities(z, Q, U, d, e);
    WayLinear(z * d, z * e, z, Q * d, Q * e, Q, U * d, d * (e * e * e), e * (d * d * d), e * d, e * w, (w * d) * e, P * e, P * d);
  }

  lemma WidthBounds(P: int, w: int, b: int, d: int, e: int)
    requires P == w * (2 * b) && 0 < w && 0 < b && 0 < e <= d && e <= 2 * b
    ensures P * e <= P * d && (w * d) * e <= P * d && 0 <= P * d
  {
    MulNonNeg(w, 2 * b);
    MulNonNeg(w, d);
    MulNonNeg(P, d);
    MulMono(e, d, P);
    MulMono(e, 2 * b, w * d);
    assert (w * d) * (2 * b) == P * d;
  }

  lemma ShortfallBound(P: int, w: int, d: int, e: int, Q: int)
    requires 0 < e && d * d * d + d - w * d + w - P <= Q
    ensures e * (d * d * d) + e * d - (w * d) * e + e * w - P * e <= Q * e
  {
    MulMono(d * d * d + d - w * d + w - P, Q, e);
    ShortfallTimes(P, w, d, e);
  }

  lemma CubesApart(d: int, e: int)
    requires 0 < e <= d
    ensures d * (e * e * e) <= e * (d * d * d)
  {
    MulMono(e, d, e);
    MulMono(e, d, d);
    MulMono(e * e, d * d, e * d) by { MulNonNeg(e, d); }
    assert d * (e * e * e) == (e * e) * (e * d) && e * (d * d * d) == (d * d) * (e * d);
  }

  lemma WayIdentities(z: int, Q: int, U: int, d: int, e: int)
    ensures (d - e - 6) * (z + 3 * Q) == z * d - z * e - 6 * z + 3 * (Q * d) - 3 * (Q * e) - 18 * Q
    ensures 3 * (d * (z + Q - U)) == 3 * (z * d) + 3 * (Q * d) - 3 * (U * d)
  {
  }

  lemma ShortfallTimes(P: int, w: int, d: int, e: int)
    ensures e * (d * d * d + d - w * d + w - P) == e * (d * d * d) + e * d - (w * d) * e + e * w - P * e
  {
  }

  lemma WayLinear(x: int, y: int, z: int, Qd: int, Qe: int, Q: int, Td: int, de: int, ed: int, dd: int, ew: int, wde: int, Pe: int, Pd: int)
    requires Td <= de + y && ed + dd - wde + ew - Pe <= Qe && y <= x && Pd <= z && de <= ed && Pe <= Pd && wde <= Pd
    requires 0 <= Q && 0 <= dd && 0 <= ew
    ensures x - y - 6 * z + 3 * Qd - 3 * Qe - 18 * Q <= 3 * x + 3 * Qd - 3 * Td
  {
  }

  /** From `d` down to the root's integer part `r`: past six units a step keeps at most two thirds of
      the distance to `r + 1`. */
  lemma Contracts(p: Pool, d: int, r: int)
    requires p.Valid() && 0 < d <= p.Sum() && Grounded(p, d) && 0 < r <= d && !BelowRoot(p, r + 1)
    ensures 3 * (NextD(p, d) - r - 7) <= 2 * (d - r - 7)
  {
    if d == r {
      NeverUpByTwo(p, d);
    } else {
      Positive(p, d);
      WayOf(p, d, r + 1);
      FloorBounds(Numerator(p, d), Denominator(p, d));
      ContractScalars(NextD(p, d), Numerator(p, d), Denominator(p, d), p.ann - 1, p.ann * p.Sum(), Dp(p, d), d, r + 1);
    }
  }

  lemma WayOf(p: Pool, d: int, e: int)
    requires p.Valid() && 0 < e <= d <= p.Sum() && Grounded(p, d) && !BelowRoot(p, e)
    ensures (d - e - 6) * ((p.ann - 1) * d + 3 * Dp(p, d)) <= 3 * (d * ((p.ann - 1) * d + Dp(p, d) - p.ann * p.Sum()))
  {
    DpBounds(p, d);
    DpShortfall(p, d);
    WayAt(p, d, e, Dp(p, d));
  }

  lemma WayAt(p: Pool, d: int, e: int, q: int)
    requires p.Valid() && 0 < e <= d <= p.Sum() && 2 * p.small <= d && !BelowRoot(p, e) && 0 <= q
    requires d * d * d + d - 2 * p.small * d + 2 * p.small - p.Product() <= p.Product() * q
    ensures (d - e - 6) * ((p.ann - 1) * d + 3 * q) <= 3 * (d * ((p.ann - 1) * d + q - p.ann * p.Sum()))
  {
    ProductIs(p);
    ThirdOfTheWay(p.Product(), p.ann - 1, p.ann * p.Sum(), q, 2 * p.small, p.large, d, e);
  }

  lemma ProductIs(p: Pool)
    ensures p.Product() == (2 * p.small) * (2 * p.large)
  {
  }

  lemma ContractScalars(n: int, num: int, den: int, B: int, T: int, q: int, d: int, e: int)
    requires den > 0 && n * den <= num && num == (T + 2 * q) * d && den == B * d + 3 * q
    requires (d - e - 6) * (B * d + 3 * q) <= 3 * (d * (B * d + q - T))
    ensures 3 * (n - e - 6) <= 2 * (d - e - 6)
  {
    assert d * (B * d + q - T) == d * den - num by {
      assert d * (B * d + 3 * q) == d * (B * d) + 3 * (d * q);
      assert (T + 2 * q) * d == T * d + 2 * (d * q);
      assert d * (B * d + q - T) == d * (B * d) + d * q - T * d;
    }
    assert (3 * (d - n)) * den == 3 * (d * den) - 3 * (n * den);
    CancelLe(d - e - 6, 3 * (d - n), den);
  }

  // ----- the integer part of the root

  ghost function FloorRoot(p: Pool, x: nat): (r: int)
    requires p.Valid() && 0 < x && !BelowRoot(p, x + 1)
    ensures 0 < r <= x && BelowRoot(p, r) && !BelowRoot(p, r + 1)
  {
    OneIsBelowRoot(p);
    if BelowRoot(p, x) then x else FloorRoot(p, x - 1)
  }

  // ----- the loop

  const STEPS: nat := 200

  function Pow(b: int, k: nat): (r: int)
    requires b > 0
    ensures r > 0
  {
    if k == 0 then 1 else b * Pow(b, k - 1)
  }

  /** How far the iterate may be from the root's integer part after `n` steps. */
  ghost predicate OnTrack(p: Pool, d: int, r: int, n: nat) {
    && Pow(3, n) * (d - r - 7) <= Pow(2, n) * p.Sum()
    && (STEPS <= n ==> d - r <= 7 - 2 * (n - STEPS))
  }

  lemma StepOnTrack(p: Pool, d: int, r: int, n: nat, next: int)
    requires p.Valid() && OnTrack(p, d, r, n) && 3 * (next - r - 7) <= 2 * (d - r - 7) && next <= d - 2
    ensures OnTrack(p, next, r, n + 1)
  {
    TrackScalars(Pow(3, n), Pow(2, n), p.Sum(), next - r - 7, d - r - 7);
    if n + 1 == STEPS { CloseAfterSteps(p, next - r - 7); }
  }

  lemma TrackScalars(x: int, y: int, sum: int, next: int, gap: int)
    requires 0 < x && x * gap <= y * sum && 3 * next <= 2 * gap
    ensures (3 * x) * next <= (2 * y) * sum
  {
    MulMono(3 * next, 2 * gap, x);
    assert (3 * x) * next == x * (3 * next) && (2 * y) * sum == 2 * (y * sum) && x * (2 * gap) == 2 * (x * gap);
  }

  lemma {:induction false} PowAdds(b: int, i: nat, j: nat)
    requires b > 0
    ensures Pow(b, i) * Pow(b, j) == Pow(b, i + j)
  {
    if i > 0 {
      PowAdds(b, i - 1, j);
      assert (b * Pow(b, i - 1)) * Pow(b, j) == b * (Pow(b, i - 1) * Pow(b, j));
    }
  }

  /** Ten steps shrink the distance by more than 57 times. */
  lemma {:induction false} Tens(k: nat)
    ensures Pow(57, k) * Pow(2, 10 * k) <= Pow(3, 10 * k)
  {
    if k > 0 {
      Tens(k - 1);
      PowAdds(2, 10, 10 * (k - 1));
      PowAdds(3, 10, 10 * (k - 1));
      assert Pow(2, 10) == 1_024 && Pow(3, 10) == 59_049;
      TensScalars(Pow(57, k - 1), Pow(2, 10 * (k - 1)), Pow(3, 10 * (k - 1)));
    }
  }

  lemma TensScalars(x: int, y: int, z: int)
    requires 0 < x && 0 < y && 0 < z && x * y <= z
    ensures (57 * x) * (1_024 * y) <= 59_049 * z
  {
    assert (57 * x) * (1_024 * y) == 58_368 * (x * y);
  }

  lemma CloseAfterSteps(p: Pool, gap: int)
    requires p.Valid() && Pow(3, STEPS) * gap <= Pow(2, STEPS) * p.Sum()
    ensures gap <= 0
  {
    Tens(20);
    Big();
    GapScalars(Pow(3, STEPS), Pow(2, STEPS), Pow(57, 20), p.Sum(), gap);
  }

  lemma GapScalars(x: int, y: int, f: int, sum: int, gap: int)
    requires 0 < y && 0 < x && f * y <= x && sum < f && x * gap <= y * sum
    ensures gap <= 0
  {
    MulMono(sum + 1, f, y);
    assert (sum + 1) * y == y * sum + y;
    if gap >= 1 { MulMono(1, gap, x); }
  }

  lemma Big()
    ensures 2 * MAX_NORMALIZED_RESERVE_WAD < Pow(57, 20)
  {
    PowAdds(57, 10, 10);
    PowAdds(57, 5, 5);
    assert Pow(57, 5) == 601_692_057;
  }

  /** Every run of the loop that starts on track and fits ends with an answer. */
  lemma {:induction false} LoopEnds(p: Pool, d: int, r: int, n: nat)
    requires p.Valid() && 0 < d <= p.Sum() && Grounded(p, d) && 0 < r <= d && BelowRoot(p, r) && !BelowRoot(p, r + 1)
    requires n <= STEPS + 3 && OnTrack(p, d, r, n) && StepFits(p, d)
    ensures Iterate(p, d, MAX_D_ITERATIONS - n).Ok?
    decreases STEPS + 4 - n
  {
    var next := NextD(p, d);
    if !Near(next, d) {
      if BelowRoot(p, d + 1) { RootMono(p, r + 1, d + 1); }
      NeverUpByTwo(p, d);
      Contracts(p, d, r);
      StepStaysAboveRoot(p, d, r);
      StepIsGrounded(p, d);
      FitsBelow(p, d, next);
      StepOnTrack(p, d, r, n, next);
      LoopEnds(p, next, r, n + 1);
    }
  }

  predicate FirstStepFits(xa: int, xb: int, amp: int) {
    Admitted(xa, xb, amp) && PoolOf(xa, xb, amp).Valid() && StepFits(PoolOf(xa, xb, amp), xa + xb)
  }

  /** The solver answers exactly when the reserves and the amplification are in range and the first step,
      from the sum of the reserves, fits 256 bits: the iteration limit never stops it. */
  lemma StableDIff(xa: int, xb: int, amp: int)
    ensures StableD(xa, xb, amp).Ok? <==> FirstStepFits(xa, xb, amp)
  {
    if Admitted(xa, xb, amp) { PoolOfValid(xa, xb, amp); }
    if FirstStepFits(xa, xb, amp) {
      var p := PoolOf(xa, xb, amp);
      PoolOfValid(xa, xb, amp);
      if BelowRoot(p, p.Sum() + 1) { SumAboveRoot(p, p.Sum() + 1); }
      LoopEnds(p, p.Sum(), FloorRoot(p, p.Sum()), 0);
    }
  }

  predicate PriceFits(d: Result<int>, price: int, shares: int) {
    d.Ok? ==> d.value * price < (I128_MAX + 1) * shares
  }

  /** So the stable LP price exists exactly when its inputs are positive and in range, that first step
      fits, and the price itself fits. */
  lemma StablePriceIff(a: LpPrice.Leg, b: LpPrice.Leg, s: LpPrice.Supply, amp: int)
    ensures StablePriceSpec(a, b, s, amp).Ok? <==>
      && LpPrice.Positive(a, b, s)
      && LpPrice.AmountToWad(a.reserve, a.decimals).Ok? && LpPrice.AmountToWad(b.reserve, b.decimals).Ok?
      && LpPrice.AmountToWad(s.totalShares, s.decimals).Ok?
      && var xa, xb := LpPrice.AmountToWad(a.reserve, a.decimals).value, LpPrice.AmountToWad(b.reserve, b.decimals).value;
      && FirstStepFits(xa, xb, amp)
      && PriceFits(StableD(xa, xb, amp), Min(a.priceWad, b.priceWad), LpPrice.AmountToWad(s.totalShares, s.decimals).value)
  {
    if LpPrice.Positive(a, b, s) && LpPrice.AmountToWad(a.reserve, a.decimals).Ok? && LpPrice.AmountToWad(b.reserve, b.decimals).Ok?
       && LpPrice.AmountToWad(s.totalShares, s.decimals).Ok? {
      var xa, xb := LpPrice.AmountToWad(a.reserve, a.decimals).value, LpPrice.AmountToWad(b.reserve, b.decimals).value;
      AmountPositive(s.totalShares, s.decimals);
      StableDIff(xa, xb, amp);
      var shares := LpPrice.AmountToWad(s.totalShares, s.decimals).value;
      if StableD(xa, xb, amp).Ok? { FloorGe(I128_MAX + 1, StableD(xa, xb, amp).value * Min(a.priceWad, b.priceWad), shares); }
    }
  }
}
