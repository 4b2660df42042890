/** Model of `compound_interest`: a rounded Taylor loop on raw ray integers, its distance from the
    exact series, and what chunking an interval costs. */
module Compound {
  import opened Numbers
  import opened Rounding
  import opened Exponential
  import FixedPoint

  const TERMS: nat := 7

  /** The loop's divisors: the factorials of 2 to 8. */
  function Divisor(i: nat): (d: int)
    requires i < TERMS
    ensures d >= 2
  {
    if i == 0 then 2 else if i == 1 then 6 else if i == 2 then 24 else if i == 3 then 120
    else if i == 4 then 720 else if i == 5 then 5_040 else 40_320
  }

  /** One pass of the loop: the next power and the next sum. */
  function Pass(x: int, pow: int, sum: int, i: nat): Result<(int, int)>
    requires i < TERMS
  {
    var next :- FixedPoint.MulHalfUp(pow, x, RAY);
    var total :- Narrow(sum + FixedPoint.Nearest(next, Divisor(i)));
    Ok((next, total))
  }

  /** The loop from iteration `i` on; any step outside `i128` is a panic. */
  function Accumulate(x: int, pow: int, sum: int, i: nat): Result<int>
    requires i <= TERMS
    decreases TERMS - i
  {
    if i == TERMS then Ok(sum)
    else
      match Pass(x, pow, sum, i)
      case Err(e) => Err(e)
      case Ok(state) => Accumulate(x, state.0, state.1, i + 1)
  }

  function CompoundSpec(rate: int, deltaMs: nat): Result<int> {
    if deltaMs == 0 then Ok(RAY)
    else
      var x :- Narrow(rate * deltaMs);
      var sum :- Narrow(RAY + x);
      Accumulate(x, x, sum, 0)
  }

  method CompoundInterest(rate: i128, deltaMs: nat) returns (r: Result<int>)
    ensures r == CompoundSpec(rate, deltaMs)
  {
    if deltaMs == 0 {
      return Ok(RAY);
    }
    var x :- Narrow(rate * deltaMs);
    var sum :- Narrow(RAY + x);
    var pow := x;
    for i := 0 to TERMS
      invariant Accumulate(x, pow, sum, i) == CompoundSpec(rate, deltaMs)
    {
      ghost var pass := Pass(x, pow, sum, i);
      pow :- FixedPoint.MulHalfUp(pow, x, RAY);
      sum :- Narrow(sum + FixedPoint.Nearest(pow, Divisor(i)));
      assert pass == Ok((pow, sum));
    }
    return Ok(sum);
  }

  // ----- the loop without its overflow exits

  /** `x^k` in ray arithmetic, rounded after every multiplication. */
  function RoundedPower(x: int, k: nat): int
    requires k >= 1
  {
    if k == 1 then x else HalfUp(RoundedPower(x, k - 1) * x, RAY)
  }

  /** The running sum once the power `k` has been added. */
  function Factor(x: int, k: nat): int
    requires 1 <= k <= DEGREE
  {
    if k == 1 then RAY + x
    else Factor(x, k - 1) + FixedPoint.Nearest(RoundedPower(x, k), Divisor(k - 2))
  }

  lemma {:induction false} PowerBounds(x: int, k: nat)
    requires 0 <= x <= 2 * RAY && k >= 1
    ensures 0 <= RoundedPower(x, k) <= Power(2, k) * RAY
  {
    if k > 1 {
      PowerBounds(x, k - 1);
      var p := RoundedPower(x, k - 1);
      MulNonNeg(p, x);
      FloorNonNeg(p * x, RAY);
      MulMono(x, 2 * RAY, p);
      HalfUpLe(2 * p, p * x, RAY);
    }
  }

  lemma NearestBounds(p: int, d: int)
    requires p >= 0 && d >= 1
    ensures 0 <= FixedPoint.Nearest(p, d) <= p
    ensures -d <= 2 * (FixedPoint.Nearest(p, d) * d - p) <= d
  {
    FloorNonNeg(p, d);
    HalfUpBounds(p, d);
    var t := HalfUp(p, d);
    assert 2 * t * d == 2 * (t * d);
    MulMono(1, d, p);
    HalfUpLe(p, p, d);
  }

  lemma TwoPowers()
    ensures Power(2, 1) == 2 && Power(2, 2) == 4 && Power(2, 3) == 8 && Power(2, 4) == 16
    ensures Power(2, 5) == 32 && Power(2, 6) == 64 && Power(2, 7) == 128 && Power(2, 8) == 256
  {
  }

  lemma {:induction false} FactorBounds(x: int, k: nat)
    requires 0 <= x <= 2 * RAY && 1 <= k <= DEGREE
    ensures RAY + x <= Factor(x, k) <= 256 * k * RAY
  {
    if k > 1 {
      FactorBounds(x, k - 1);
      PowerBounds(x, k);
      TwoPowers();
      NearestBounds(RoundedPower(x, k), Divisor(k - 2));
    }
  }

  lemma {:induction false} LoopIsFactor(x: int, i: nat)
    requires 0 <= x <= 2 * RAY && i <= TERMS
    ensures Accumulate(x, RoundedPower(x, i + 1), Factor(x, i + 1), i) == Ok(Factor(x, DEGREE))
    decreases TERMS - i
  {
    if i < TERMS {
      PowerBounds(x, i + 1);
      PowerBounds(x, i + 2);
      TwoPowers();
      FactorBounds(x, i + 2);
      assert Pass(x, RoundedPower(x, i + 1), Factor(x, i + 1), i) == Ok((RoundedPower(x, i + 2), Factor(x, i + 2)));
      LoopIsFactor(x, i + 1);
    }
  }

  /** Exponents up to two never panic. */
  lemma CompoundIsFactor(rate: int, deltaMs: nat)
    requires 0 <= rate * deltaMs <= 2 * RAY
    ensures CompoundSpec(rate, deltaMs) == Ok(Factor(rate * deltaMs, DEGREE))
  {
    if deltaMs == 0 {
      FactorAtZero(DEGREE);
    } else {
      LoopIsFactor(rate * deltaMs, 0);
    }
  }

  lemma {:induction false} PowerAtZero(k: nat)
    requires k >= 1
    ensures RoundedPower(0, k) == 0
  {
    if k > 1 { PowerAtZero(k - 1); }
  }

  lemma {:induction false} FactorAtZero(k: nat)
    requires 1 <= k <= DEGREE
    ensures Factor(0, k) == RAY
  {
    if k > 1 {
      FactorAtZero(k - 1);
      PowerAtZero(k);
      NearestBounds(0, Divisor(k - 2));
    }
  }

  // ----- error

  /** Each rounded power is off by at most `(2^(k-1) - 1) / 2` raw units. */
  lemma {:induction false} PowerError(x: int, k: nat)
    requires 0 <= x <= 2 * RAY && k >= 1
    ensures var r := Power(RAY, k - 1);
      -((Power(2, k - 1) - 1) * r) <= 2 * (RoundedPower(x, k) * r - Power(x, k)) <= (Power(2, k - 1) - 1) * r
  {
    if k > 1 {
      PowerError(x, k - 1);
      var p, q, r := RoundedPower(x, k - 1), RoundedPower(x, k), Power(RAY, k - 2);
      HalfUpBounds(p * x, RAY);
      PowerNonNeg(RAY, k - 2);
      PowerNonNeg(2, k - 2);
      PowerErrorStep(p, q, r, Power(x, k - 1), x, Power(2, k - 2));
    }
  }

  lemma PowerErrorStep(p: int, q: int, r: int, X: int, x: int, t: int)
    requires 0 <= x <= 2 * RAY && r >= 0 && t >= 1
    requires -RAY <= 2 * (q * RAY) - 2 * (p * x) <= RAY
    requires -((t - 1) * r) <= 2 * (p * r - X) <= (t - 1) * r
    ensures -((2 * t - 1) * (RAY * r)) <= 2 * (q * (RAY * r) - x * X) <= (2 * t - 1) * (RAY * r)
  {
    var a, b, e := q * RAY - p * x, p * r - X, (t - 1) * r;
    MulMono(-RAY, 2 * a, r); MulMono(2 * a, RAY, r);
    MulMono(-e, 2 * b, x); MulMono(2 * b, e, x);
    MulNonNeg(t - 1, r);
    MulMono(x, 2 * RAY, e);
    SplitError(p, q, r, X, x, t);
    ErrorsAdd(a * r, b * x, RAY * r, e * x, e);
  }

  lemma ErrorsAdd(ar: int, bx: int, unit: int, ex: int, e: int)
    requires -unit <= 2 * ar <= unit && -ex <= 2 * bx <= ex <= 2 * RAY * e
    ensures -(unit + 2 * RAY * e) <= 2 * (ar + bx) <= unit + 2 * RAY * e
  {
  }

  lemma SplitError(p: int, q: int, r: int, X: int, x: int, t: int)
    ensures q * (RAY * r) - x * X == (q * RAY - p * x) * r + (p * r - X) * x
    ensures (2 * t - 1) * (RAY * r) == RAY * r + 2 * RAY * ((t - 1) * r)
  {
  }

  /** Error budget after power `k`, in units of `RAY^7 / 2`. */
  function Budget(k: nat): int
    requires 1 <= k <= DEGREE
  {
    if k == 1 then 0 else Budget(k - 1) + 40_320 + (Power(2, k - 1) - 1) * Ratio(k)
  }

  lemma BudgetTotal()
    ensures Budget(DEGREE) == 341_727
  {
    RatioValues();
    TwoPowers();
    assert Budget(2) == 60_480;
    assert Budget(3) == 120_960;
    assert Budget(4) == 173_040;
    assert Budget(5) == 218_400;
    assert Budget(6) == 260_456;
    assert Budget(7) == 301_280;
  }

  lemma {:induction false} PowerSplits(b: int, i: nat, j: nat)
    ensures Power(b, i) * Power(b, j) == Power(b, i + j)
  {
    if i > 0 {
      PowerSplits(b, i - 1, j);
      assert (b * Power(b, i - 1)) * Power(b, j) == b * (Power(b, i - 1) * Power(b, j));
    }
  }

  lemma DivisorRatio(k: nat)
    requires 2 <= k <= DEGREE
    ensures Divisor(k - 2) * Ratio(k) == 40_320 && Ratio(k) > 0 && Divisor(k - 2) > 0
  {
    RatioValues();
  }

  lemma TermError(x: int, k: nat)
    requires 0 <= x <= 2 * RAY && 2 <= k <= DEGREE
    ensures var gap := FixedPoint.Nearest(RoundedPower(x, k), Divisor(k - 2)) * UNIT - Term(x, k);
      var bound := (40_320 + (Power(2, k - 1) - 1) * Ratio(k)) * Power(RAY, 7);
      -bound <= 2 * gap <= bound
  {
    PowerBounds(x, k);
    PowerError(x, k);
    DivisorRatio(k);
    NearestBounds(RoundedPower(x, k), Divisor(k - 2));
    PowerSplits(RAY, k - 1, DEGREE - k);
    PowerNonNeg(RAY, k - 1);
    PowerNonNeg(RAY, DEGREE - k);
    TermErrorScalars(FixedPoint.Nearest(RoundedPower(x, k), Divisor(k - 2)), RoundedPower(x, k), Divisor(k - 2),
                     Ratio(k), Power(RAY, k - 1), Power(RAY, DEGREE - k), Power(x, k), Power(2, k - 1) - 1);
  }

  lemma TermErrorScalars(t: int, p: int, d: int, c: int, r: int, s: int, X: int, e: int)
    requires r >= 0 && s >= 0 && c >= 0 && d * c == 40_320
    requires -d <= 2 * (t * d - p) <= d
    requires -(e * r) <= 2 * (p * r - X) <= e * r
    ensures -((40_320 + e * c) * (r * s)) <= 2 * (t * (40_320 * (r * s)) - X * s * c) <= (40_320 + e * c) * (r * s)
  {
    TermErrorAdds(t, p, d, r, X, e);
    MulNonNeg(s, c);
    Sandwich(d * r + e * r, t * d * r - X, s * c);
    TermErrorIdentity(t, d, c, r, s, X, e);
  }

  lemma Sandwich(a: int, w: int, k: int)
    requires -a <= 2 * w <= a && k >= 0
    ensures -(a * k) <= 2 * (w * k) <= a * k
  {
    MulMono(-a, 2 * w, k);
    MulMono(2 * w, a, k);
  }

  lemma TermErrorAdds(t: int, p: int, d: int, r: int, X: int, e: int)
    requires r >= 0 && -d <= 2 * (t * d - p) <= d && -(e * r) <= 2 * (p * r - X) <= e * r
    ensures -(d * r + e * r) <= 2 * (t * d * r - X) <= d * r + e * r
  {
    var m := t * d - p;
    MulMono(-d, 2 * m, r);
    MulMono(2 * m, d, r);
    assert t * d * r == m * r + p * r;
  }

  lemma TermErrorIdentity(t: int, d: int, c: int, r: int, s: int, X: int, e: int)
    requires d * c == 40_320
    ensures (t * d * r - X) * (s * c) == t * (40_320 * (r * s)) - X * s * c
    ensures (d * r + e * r) * (s * c) == (40_320 + e * c) * (r * s)
  {
    assert (t * d * r) * (s * c) == t * ((d * c) * (r * s));
    assert (d * r) * (s * c) == (d * c) * (r * s);
    assert (e * r) * (s * c) == (e * c) * (r * s);
  }

  lemma {:induction false} FactorError(x: int, k: nat)
    requires 0 <= x <= 2 * RAY && 1 <= k <= DEGREE
    ensures -(Budget(k) * Power(RAY, 7)) <= 2 * (Factor(x, k) * UNIT - Sum(Terms(x), k)) <= Budget(k) * Power(RAY, 7)
  {
    if k == 1 {
      FirstTermsExact(x);
    } else {
      FactorError(x, k - 1);
      TermError(x, k);
      assert Sum(Terms(x), k) == Sum(Terms(x), k - 1) + Term(x, k);
      AddErrors(Factor(x, k - 1), FixedPoint.Nearest(RoundedPower(x, k), Divisor(k - 2)), UNIT,
                Sum(Terms(x), k - 1), Term(x, k),
                Budget(k - 1), 40_320 + (Power(2, k - 1) - 1) * Ratio(k), Power(RAY, 7));
    }
  }

  lemma AddErrors(f: int, t: int, u: int, s: int, v: int, b: int, c: int, r: int)
    requires -(b * r) <= 2 * (f * u - s) <= b * r
    requires -(c * r) <= 2 * (t * u - v) <= c * r
    ensures -((b + c) * r) <= 2 * ((f + t) * u - (s + v)) <= (b + c) * r
  {
    assert (f + t) * u == f * u + t * u && (b + c) * r == b * r + c * r;
  }

  lemma FirstTermsExact(x: int)
    ensures (RAY + x) * UNIT == Sum(Terms(x), 1)
  {
    RatioValues();
    TermZero(x);
    var r := Power(RAY, 7);
    assert Power(x, 1) == x;
    assert Term(x, 1) == x * r * 40_320;
    assert Sum(Terms(x), 1) == Term(x, 0) + Term(x, 1);
    assert (RAY + x) * (40_320 * r) == (40_320 * r) * RAY + x * r * 40_320;
  }

  /** Over the whole domain the loop is within five raw units of the exact degree-eight factor. */
  lemma CompoundError(rate: int, deltaMs: nat)
    requires 0 <= rate * deltaMs <= 2 * RAY
    ensures CompoundSpec(rate, deltaMs).Ok?
    ensures -5 * UNIT <= CompoundSpec(rate, deltaMs).value * UNIT - Series(rate * deltaMs) <= 5 * UNIT
  {
    CompoundIsFactor(rate, deltaMs);
    FactorError(rate * deltaMs, DEGREE);
    BudgetTotal();
    PowerNonNeg(RAY, 7);
  }

  // ----- monotonicity and range

  lemma {:induction false} PowerMono(x: int, z: int, k: nat)
    requires 0 <= x <= z <= 2 * RAY && k >= 1
    ensures RoundedPower(x, k) <= RoundedPower(z, k)
  {
    if k > 1 {
      PowerMono(x, z, k - 1);
      PowerBounds(x, k - 1);
      MulMono(RoundedPower(x, k - 1), RoundedPower(z, k - 1), x);
      MulMono(x, z, RoundedPower(z, k - 1));
      HalfUpMono(RoundedPower(x, k - 1) * x, RoundedPower(z, k - 1) * z, RAY);
    }
  }

  lemma {:induction false} FactorMono(x: int, z: int, k: nat)
    requires 0 <= x <= z <= 2 * RAY && 1 <= k <= DEGREE
    ensures Factor(x, k) <= Factor(z, k)
  {
    if k > 1 {
      FactorMono(x, z, k - 1);
      PowerMono(x, z, k);
      PowerBounds(x, k);
      HalfUpMono(RoundedPower(x, k), RoundedPower(z, k), Divisor(k - 2));
    }
  }

  /** More rate or more time never lowers the factor. */
  lemma CompoundMonotone(rate: int, deltaMs: nat, rate': int, deltaMs': nat)
    requires 0 <= rate <= rate' && deltaMs <= deltaMs' && rate' * deltaMs' <= 2 * RAY
    ensures CompoundSpec(rate, deltaMs).Ok? && CompoundSpec(rate', deltaMs').Ok?
    ensures CompoundSpec(rate, deltaMs).value <= CompoundSpec(rate', deltaMs').value
  {
    MulNonNeg(rate, deltaMs);
    MulMono(rate, rate', deltaMs);
    MulMono(deltaMs, deltaMs', rate');
    CompoundIsFactor(rate, deltaMs);
    CompoundIsFactor(rate', deltaMs');
    FactorMono(rate * deltaMs, rate' * deltaMs', DEGREE);
  }

  lemma SeriesAtTwo()
    ensures Series(2 * RAY) == 297_856 * Power(RAY, 8)
  {
    var f, r := Terms(2 * RAY), Power(RAY, 8);
    TermAtTwo(0); TermAtTwo(1); TermAtTwo(2); TermAtTwo(3); TermAtTwo(4);
    TermAtTwo(5); TermAtTwo(6); TermAtTwo(7); TermAtTwo(8);
    RatioValues();
    TwoPowers();
    EightSummands(f);
  }

  lemma EightSummands(f: seq<int>)
    requires |f| == 9
    ensures Sum(f, 8) == f[0] + f[1] + f[2] + f[3] + f[4] + f[5] + f[6] + f[7] + f[8]
  {
    assert Sum(f, 1) == f[0] + f[1];
    assert Sum(f, 2) == Sum(f, 1) + f[2];
    assert Sum(f, 4) == Sum(f, 2) + f[3] + f[4];
    assert Sum(f, 6) == Sum(f, 4) + f[5] + f[6];
  }

  lemma TermAtTwo(k: nat)
    requires k <= DEGREE
    ensures Term(2 * RAY, k) == (Power(2, k) * Ratio(k)) * Power(RAY, 8)
  {
    PowerOfProduct(2, RAY, k);
    PowerSplits(RAY, k, DEGREE - k);
    Regroup(Power(2, k), Power(RAY, k), Power(RAY, DEGREE - k), Ratio(k));
  }

  lemma Regroup(a: int, b: int, c: int, d: int)
    ensures (a * b) * c * d == (a * d) * (b * c)
  {
  }

  lemma {:induction false} PowerOfProduct(a: int, b: int, k: nat)
    ensures Power(a * b, k) == Power(a, k) * Power(b, k)
  {
    if k > 0 {
      PowerOfProduct(a, b, k - 1);
      FourFactors(a, b, Power(a, k - 1), Power(b, k - 1));
    }
  }

  lemma FourFactors(a: int, b: int, p: int, q: int)
    ensures (a * b) * (p * q) == (a * p) * (b * q)
  {
  }

  /** At least simple interest, and never above 7.4 times the principal. */
  lemma CompoundRange(rate: int, deltaMs: nat)
    requires 0 <= rate * deltaMs <= 2 * RAY
    ensures CompoundSpec(rate, deltaMs).Ok?
    ensures RAY + rate * deltaMs <= CompoundSpec(rate, deltaMs).value
    ensures 10 * CompoundSpec(rate, deltaMs).value < 74 * RAY
  {
    var x := rate * deltaMs;
    CompoundIsFactor(rate, deltaMs);
    FactorBounds(x, DEGREE);
    FactorMono(x, 2 * RAY, DEGREE);
    FactorBelow(2 * RAY);
  }

  lemma FactorBelow(x: int)
    requires x == 2 * RAY
    ensures 10 * Factor(x, DEGREE) < 74 * RAY
  {
    FactorError(x, DEGREE);
    BudgetTotal();
    SeriesAtTwo();
    PowerNonNeg(RAY, 7);
    var r := Power(RAY, 7);
    assert Power(RAY, 8) == RAY * r;
    CancelLe(Factor(x, DEGREE) * 40_320, 297_856 * RAY + 5 * 40_320, r);
  }

  /** A factor that does not panic is at least one, whatever the rate and the interval. */
  lemma CompoundAtLeastOne(rate: int, deltaMs: nat)
    requires CompoundSpec(rate, deltaMs).Ok?
    ensures CompoundSpec(rate, deltaMs).value >= RAY
  {
    if deltaMs > 0 {
      var x := rate * deltaMs;
      if x >= 0 { AccumulateGrows(x, x, RAY + x, 0); }
    }
  }

  lemma {:induction false} AccumulateGrows(x: int, pow: int, sum: int, i: nat)
    requires x >= 0 && pow >= 0 && i <= TERMS && Accumulate(x, pow, sum, i).Ok?
    ensures Accumulate(x, pow, sum, i).value >= sum
    decreases TERMS - i
  {
    if i < TERMS {
      var state := Pass(x, pow, sum, i).value;
      MulNonNeg(pow, x);
      FloorNonNeg(pow * x, RAY);
      NearestBounds(state.0, Divisor(i));
      AccumulateGrows(x, state.0, state.1, i + 1);
    }
  }

  // ----- chunked accrual

  /** Compounding `d1` and then `d2` at one rate charges at least the whole interval's factor, less
      at most 47 raw units of rounding. */
  lemma SplitNeverUndercharges(rate: int, d1: nat, d2: nat)
    requires rate >= 0 && rate * (d1 + d2) <= 2 * RAY
    ensures CompoundSpec(rate, d1).Ok? && CompoundSpec(rate, d2).Ok? && CompoundSpec(rate, d1 + d2).Ok?
    ensures HalfUp(CompoundSpec(rate, d1).value * CompoundSpec(rate, d2).value, RAY)
         >= CompoundSpec(rate, d1 + d2).value - 47
  {
    var x, z := rate * d1, rate * d2;
    MulNonNeg(rate, d1); MulNonNeg(rate, d2);
    assert rate * (d1 + d2) == x + z;
    CompoundIsFactor(rate, d1); CompoundIsFactor(rate, d2); CompoundIsFactor(rate, d1 + d2);
    FactorSplit(x, z);
  }

  lemma FactorSplit(x: int, z: int)
    requires 0 <= x && 0 <= z && x + z <= 2 * RAY
    ensures HalfUp(Factor(x, DEGREE) * Factor(z, DEGREE), RAY) >= Factor(x + z, DEGREE) - 47
  {
    var f, g, h := Factor(x, DEGREE), Factor(z, DEGREE), Factor(x + z, DEGREE);
    SeriesOfSum(x, z);
    SeriesLower(x); SeriesLower(z);
    FactorNear(x); FactorNear(z); FactorNear(x + z);
    PowerNonNeg(RAY, 7);
    ChunkScalars(f, g, h, Series(x), Series(z), Series(x + z), UNIT);
    FinalRounding(f, g, h);
  }

  lemma FactorNear(x: int)
    requires 0 <= x <= 2 * RAY
    ensures -5 * UNIT <= Factor(x, DEGREE) * UNIT - Series(x) <= 5 * UNIT
    ensures 10 * Factor(x, DEGREE) < 74 * RAY
  {
    FactorError(x, DEGREE);
    BudgetTotal();
    PowerNonNeg(RAY, 7);
    FactorMono(x, 2 * RAY, DEGREE);
    FactorBelow(2 * RAY);
  }

  lemma SeriesLower(x: int)
    requires x >= 0
    ensures Series(x) >= UNIT * RAY
  {
    TermsAreExponential(x);
    SumMono(Terms(x), 0, DEGREE);
  }

  lemma ChunkScalars(f: int, g: int, h: int, s: int, t: int, v: int, u: int)
    requires u > 0 && s >= u * RAY && t >= u * RAY && (u * RAY) * v <= s * t
    requires s - 5 * u <= f * u && t - 5 * u <= g * u
    requires h * u - 5 * u <= v <= h * u + 5 * u && 10 * h < 74 * RAY
    ensures (h - 47) * RAY <= f * g
  {
    ChunkProduct(f * u, g * u, s, t, u);
    ChunkSum(s, t, u, u * RAY);
    ChunkRegroup(f, g, u);
    ChunkGather(s * t, (f * u) * (g * u), u * s + u * t, (u * RAY) * (u * RAY));
    ChunkCancel((f * g) * u, s * t, v, u * RAY);
    ChunkFinish(f * g, h, v, u, u * RAY);
  }

  lemma ChunkRegroup(f: int, g: int, u: int)
    ensures RAY * ((f * u) * (g * u)) == ((f * g) * u) * (u * RAY)
  {
  }

  lemma ChunkGather(st: int, fg: int, cross: int, cc: int)
    requires st - 5 * cross <= fg && RAY * cross <= st + cc
    ensures (RAY - 5) * st - 5 * cc <= RAY * fg
  {
  }

  lemma ChunkProduct(fu: int, gu: int, s: int, t: int, u: int)
    requires u > 0 && s >= 5 * u && t >= 5 * u && s - 5 * u <= fu && t - 5 * u <= gu
    ensures s * t - 5 * (u * s + u * t) <= fu * gu
  {
    MulMono(s - 5 * u, fu, t - 5 * u);
    MulMono(t - 5 * u, gu, fu);
    assert (s - 5 * u) * (t - 5 * u) == s * t - 5 * (u * s + u * t) + 25 * (u * u);
    SquareNonNeg(u);
  }

  /** `(s - c)(t - c) >= 0` bounds the cross terms by the product itself. */
  lemma ChunkSum(s: int, t: int, u: int, c: int)
    requires c == u * RAY && s >= c && t >= c
    ensures RAY * (u * s + u * t) <= s * t + c * c
  {
    MulNonNeg(s - c, t - c);
    assert (s - c) * (t - c) == s * t - c * s - c * t + c * c;
    assert c * s == RAY * (u * s) && c * t == RAY * (u * t);
  }

  lemma ChunkCancel(f: int, st: int, v: int, c: int)
    requires c > 0 && c * v <= st && (RAY - 5) * st - 5 * (c * c) <= f * c
    ensures (RAY - 5) * v - 5 * c <= f
  {
    MulMono(c * v, st, RAY - 5);
    assert ((RAY - 5) * v - 5 * c) * c == (RAY - 5) * (c * v) - 5 * (c * c);
    CancelLe((RAY - 5) * v - 5 * c, f, c);
  }

  lemma ChunkFinish(fg: int, h: int, v: int, u: int, c: int)
    requires u > 0 && c == u * RAY && (RAY - 5) * v - 5 * c <= fg * u
    requires h * u - 5 * u <= v && 10 * h < 74 * RAY
    ensures (h - 47) * RAY <= fg
  {
    MulMono(10 * h, 74 * RAY, u);
    assert (10 * h) * u == 10 * (h * u) && (74 * RAY) * u == 74 * c;
    assert ((h - 47) * RAY) * u == RAY * (h * u) - 47 * c;
    CancelLe((h - 47) * RAY, fg, u);
  }

  lemma FinalRounding(f: int, g: int, h: int)
    requires (h - 47) * RAY <= f * g
    ensures HalfUp(f * g, RAY) >= h - 47
  {
    HalfUpGe(h - 47, f * g, RAY);
  }
}
