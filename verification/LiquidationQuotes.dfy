/** What a liquidation quote is, branch by branch and from both sides: the curve's bonus against its
    exact line, the maximum against the blended threshold, and the quoted repayment against the target. */
module LiquidationQuotes {
  import opened Numbers
  import opened Rounding
  import opened Liquidation

  // ----- the bonus curve

  /** On the sloped part, the bonus is within three halves of a BPS of the line from the base at the
      target to the base plus the factored range at the saturation point. */
  lemma BonusFollowsLine(hf: int, bounds: Bounds, curve: Curve)
    requires LinearBonus(hf, bounds, curve).Ok? && curve.hfForMaxBonus <= hf < curve.targetHf
    requires 0 <= bounds.max - bounds.base <= WAD && 0 <= curve.bonusFactor <= BPS
    ensures var run, gain := curve.targetHf - curve.hfForMaxBonus, LinearBonus(hf, bounds, curve).value - bounds.base;
      var line := (bounds.max - bounds.base) * (curve.targetHf - hf) * curve.bonusFactor;
      -3 * (BPS * run) <= 2 * (gain * BPS * run) - 2 * line <= 3 * (BPS * run)
  {
    var run, above, range := curve.targetHf - curve.hfForMaxBonus, curve.targetHf - hf, bounds.max - bounds.base;
    var scale := HalfUp(above * WAD, run);
    var increment := HalfUp(range * scale, WAD);
    MulMono(above, run, WAD);
    HalfUpLe(WAD, above * WAD, run);
    assert BonusScale(curve, hf) == Ok(scale);
    HalfUpBounds(above * WAD, run);
    HalfUpBounds(range * scale, WAD);
    HalfUpBounds(increment * curve.bonusFactor, BPS);
    LineScalars(HalfUp(increment * curve.bonusFactor, BPS), increment, scale, range, above, run, curve.bonusFactor, WAD, BPS);
  }

  lemma LineScalars(gain: int, inc: int, scale: int, range: int, above: int, run: int, factor: int, w: int, b: int)
    requires 0 < w && 0 < b && 0 < run && 0 <= range <= w && 0 <= factor <= b
    requires 2 * scale * run - run <= 2 * (above * w) < 2 * scale * run + run
    requires 2 * inc * w - w <= 2 * (range * scale) < 2 * inc * w + w
    requires 2 * gain * b - b <= 2 * (inc * factor) < 2 * gain * b + b
    ensures -3 * (b * run) <= 2 * (gain * b * run) - 2 * (range * above * factor) <= 3 * (b * run)
  {
    var ft, unit := factor * run, b * run;
    MulNonNeg(range, factor);
    MulNonNeg(factor, run);
    MulMono(range, w, ft);
    MulMono(factor, b, run);
    MulMono(ft, unit, w);
    RoundGap(scale, above * w, run, range * factor);
    RoundGap(inc, range * scale, w, ft);
    RoundGap(gain, inc * factor, b, run);
    LineIdentities(gain, inc, scale, range, above, run, factor, w, b);
    LineFinish(gain * b * run, inc * ft, range * above * factor, (range * scale) * ft, unit, w, w * (inc * ft),
               w * (range * above * factor), w * ft, w * unit);
  }

  /** A rounding of `n / d` to `q`, weighted by `k`. */
  lemma RoundGap(q: int, n: int, d: int, k: int)
    requires 2 * q * d - d <= 2 * n < 2 * q * d + d && 0 <= k
    ensures -(d * k) <= (2 * (q * d) - 2 * n) * k <= d * k
  {
    assert 2 * q * d == 2 * (q * d);
    Distance(2 * (q * d) - 2 * n, d, k);
  }

  lemma Distance(gap: int, unit: int, k: int)
    requires -unit <= gap <= unit && 0 <= k
    ensures -(unit * k) <= gap * k <= unit * k
  {
    MulMono(-unit, gap, k);
    MulMono(gap, unit, k);
  }

  lemma LineIdentities(gain: int, inc: int, scale: int, range: int, above: int, run: int, factor: int, w: int, b: int)
    ensures (2 * (scale * run) - 2 * (above * w)) * (range * factor)
         == 2 * ((range * scale) * (factor * run)) - 2 * (w * (range * above * factor))
    ensures (2 * (inc * w) - 2 * (range * scale)) * (factor * run)
         == 2 * (w * (inc * (factor * run))) - 2 * ((range * scale) * (factor * run))
    ensures (2 * (gain * b) - 2 * (inc * factor)) * run == 2 * (gain * b * run) - 2 * (inc * (factor * run))
    ensures run * (range * factor) == range * (factor * run)
  {
  }

  lemma LineFinish(gain: int, inc: int, line: int, mid: int, unit: int, w: int, winc: int, wline: int, wft: int, wunit: int)
    requires 0 < w && winc == w * inc && wline == w * line && wunit == w * unit && -unit <= 2 * gain - 2 * inc <= unit
    requires -wft <= 2 * winc - 2 * mid <= wft <= wunit && -wft <= 2 * mid - 2 * wline <= wft
    ensures -3 * unit <= 2 * gain - 2 * line <= 3 * unit
  {
    assert (inc - line) * w == winc - wline && unit * w == wunit && (-unit) * w == -wunit;
    CancelLe(inc - line, unit, w);
    CancelLe(-unit, inc - line, w);
  }

  /** Outside the slope: the base from the target up, the whole factored range from saturation down. */
  lemma BonusAtEnds(hf: int, bounds: Bounds, curve: Curve)
    requires LinearBonus(hf, bounds, curve).Ok? && 0 <= bounds.max - bounds.base
    ensures hf >= curve.targetHf ==> LinearBonus(hf, bounds, curve).value == bounds.base
    ensures hf <= curve.hfForMaxBonus && hf < curve.targetHf ==>
      LinearBonus(hf, bounds, curve).value == bounds.base + HalfUp((bounds.max - bounds.base) * curve.bonusFactor, BPS)
  {
    if hf <= curve.hfForMaxBonus && hf < curve.targetHf {
      var run, above, range := curve.targetHf - curve.hfForMaxBonus, curve.targetHf - hf, bounds.max - bounds.base;
      if run > 0 {
        MulMono(run, above, WAD);
        HalfUpGe(WAD, above * WAD, run);
      }
      assert BonusScale(curve, hf) == Ok(WAD);
      HalfUpUnique(range, range * WAD, WAD);
    }
  }

  /** The maximum is the largest bonus at which a unit repaid seizes no more than its worth of weighted
      collateral at the ceiled threshold, and so none at which it would at the exact proportion. */
  lemma MaxBonusIs(proportion: int)
    requires 0 < proportion <= WAD && MaxBonus(proportion).Ok?
    ensures var max, threshold := MaxBonus(proportion).value, Ceil(proportion * BPS, WAD);
      && threshold * (BPS + max) <= BPS * BPS < threshold * (BPS + max + 1)
      && proportion * (BPS + max) <= WAD * BPS
  {
    var max, threshold := MaxBonus(proportion).value, Ceil(proportion * BPS, WAD);
    CeilBounds(proportion * BPS, WAD);
    CeilLe(BPS, proportion * BPS, WAD);
    CeilLe(0, proportion * BPS, WAD);
    FloorBounds(BPS * (BPS - threshold), threshold);
    FloorNonNeg(BPS * (BPS - threshold), threshold);
    MaxScalars(proportion, threshold, max);
  }

  lemma MaxScalars(proportion: int, threshold: int, max: int)
    requires 0 < threshold <= BPS && 0 <= max && proportion * BPS <= threshold * WAD
    requires max * threshold <= BPS * (BPS - threshold) < max * threshold + threshold
    ensures threshold * (BPS + max) <= BPS * BPS < threshold * (BPS + max + 1)
    ensures proportion * (BPS + max) <= WAD * BPS
  {
    assert threshold * (BPS + max) == BPS * threshold + max * threshold;
    assert threshold * (BPS + max + 1) == BPS * threshold + max * threshold + threshold;
    MulMono(proportion * BPS, threshold * WAD, BPS + max);
    assert (proportion * BPS) * (BPS + max) == (proportion * (BPS + max)) * BPS;
    assert (threshold * WAD) * (BPS + max) == WAD * (threshold * (BPS + max));
  }

  // ----- the quoted repayment

  /** What a target-health quote solves: target times the debt left against the weighted collateral
      left, from both sides up to one rounding of each. */
  predicate SolvesTarget(s: Snapshot, repay: int, rate: int, targetHf: int) {
    var gap := targetHf * (s.debt - repay) - (WAD * s.weighted - repay * rate);
    -(targetHf - rate) - WAD <= 2 * gap <= (targetHf - rate) + WAD
  }

  /** A covered book with a cap at or above the base: the smaller of curve and cap, and either the
      target repayment, leaving a debt worth liquidating, or the whole debt because it would not. */
  lemma CoveredQuoteIs(s: Snapshot, bounds: Bounds, curve: Curve, cap: int)
    requires s.debt <= s.collateral && HealthCap(s) == Some(cap) && bounds.base <= cap && Estimate(s, bounds, curve).Ok?
    ensures LinearBonus(s.hf, bounds, curve).Ok?
    ensures var quote := Estimate(s, bounds, curve).value;
      && quote.bonus == Min(LinearBonus(s.hf, bounds, curve).value, cap)
      && AtTarget(s, quote.bonus, curve.targetHf).Ok?
      && (if s.debt - AtTarget(s, quote.bonus, curve.targetHf).value < BAD_DEBT_USD_THRESHOLD then quote.ideal == s.debt
          else s.debt - quote.ideal >= BAD_DEBT_USD_THRESHOLD && quote.ideal == AtTarget(s, quote.bonus, curve.targetHf).value)
  {
    var bonus := Estimate(s, bounds, curve).value.bonus;
    AtTargetAtMostDebt(s, bonus, curve.targetHf);
  }

  lemma AtTargetAtMostDebt(s: Snapshot, bonus: int, targetHf: int)
    ensures AtTarget(s, bonus, targetHf).Ok? ==> AtTarget(s, bonus, targetHf).value <= s.debt
  {
  }

  /** At a bonus up to the cap the weighted collateral taken per unit repaid is at most the health
      factor, hence below any target above one. */
  lemma RateBelowHealth(s: Snapshot, bonus: int, cap: int)
    requires HealthCap(s) == Some(cap) && 0 <= s.hf && 0 <= bonus <= cap && SeizureRate(s, bonus).Ok?
    ensures SeizureRate(s, bonus).value <= s.hf
  {
    HalfUpUnique(bonus * (WAD / BPS), bonus * WAD, BPS);
    FloorNonNeg(s.hf * BPS, s.proportion);
    FloorBounds(s.hf * BPS, s.proportion);
    RateScalars(s.hf, s.proportion, bonus, cap);
  }

  lemma RateScalars(hf: int, q: int, bonus: int, cap: int)
    requires 0 < q && 0 <= bonus <= cap && (BPS + cap) * q <= hf * BPS
    ensures HalfUp(q * ((BPS + bonus) * (WAD / BPS)), WAD) <= hf
  {
    MulMono(BPS + bonus, BPS + cap, q);
    assert q * ((BPS + bonus) * (WAD / BPS)) == ((BPS + bonus) * q) * (WAD / BPS);
    HalfUpLe(hf, q * ((BPS + bonus) * (WAD / BPS)), WAD);
  }

  /** A quote for less than the debt and less than the backing solves the target equation. */
  lemma PartialQuoteSolves(b: Book, bounds: Bounds, curve: Curve)
    requires Liquidatable(b) && 0 <= bounds.base <= CapOf(b) && curve.targetHf > WAD
    requires SnapshotOf(b).Ok? && Estimate(SnapshotOf(b).value, bounds, curve).Ok?
    ensures var s, quote := SnapshotOf(b).value, Estimate(SnapshotOf(b).value, bounds, curve).value;
      && OnePlus(quote.bonus).Ok? && OnePlus(quote.bonus).value > 0 && SeizureRate(s, quote.bonus).Ok?
      && (quote.ideal == b.debt || b.debt - quote.ideal >= BAD_DEBT_USD_THRESHOLD)
      && (quote.ideal < b.debt && quote.ideal < HalfUp(b.collateral * WAD, OnePlus(quote.bonus).value)
          ==> SolvesTarget(s, quote.ideal, SeizureRate(s, quote.bonus).value, curve.targetHf))
  {
    var s, quote := SnapshotOf(b).value, Estimate(SnapshotOf(b).value, bounds, curve).value;
    FloorNonNeg(b.weighted * WAD, b.debt);
    FloorNonNeg(s.hf * BPS, s.proportion);
    CoveredQuoteIs(s, bounds, curve, CapOf(b));
    QuoteAtMostCurve(s, bounds, curve, CapOf(b));
    RateBelowHealth(s, quote.bonus, CapOf(b));
    HalfUpUnique(quote.bonus * (WAD / BPS), quote.bonus * WAD, BPS);
    TargetAboveWeighted(b, curve.targetHf);
    TargetSolved(s, quote.bonus, curve.targetHf);
  }

  lemma TargetAboveWeighted(b: Book, targetHf: int)
    requires Covered(b) && targetHf > WAD
    ensures HalfUp(targetHf * b.debt, WAD) > b.weighted
  {
    ProportionBounds(b);
    MulMono(WAD, targetHf, b.debt);
    HalfUpGe(b.debt, targetHf * b.debt, WAD);
  }

  /** At a bonus up to the cap a covered book backs its debt but for a ten-billionth and two units. */
  lemma BackingNearDebt(b: Book, bonus: int)
    requires Liquidatable(b) && 0 <= bonus <= CapOf(b)
    ensures SLACK * (b.debt - HalfUp(b.collateral * WAD, (BPS + bonus) * (WAD / BPS))) <= b.debt + 2 * SLACK
  {
    var seize, onePlus := Seizure(b.debt, bonus), (BPS + bonus) * (WAD / BPS);
    SeizureNearNeutral(b, b.debt, bonus);
    NeutralClose(seize, b.debt, b.collateral);
    FloorBounds(b.debt * (BPS + bonus), BPS);
    HalfUpBounds(b.collateral * WAD, onePlus);
    BackingScalars(HalfUp(b.collateral * WAD, onePlus), seize, b.debt, b.collateral, BPS + bonus);
  }

  lemma NeutralClose(seize: int, d: int, c: int)
    requires d > 0 && SLACK * (seize * d - d * c) <= d * d
    ensures SLACK * (seize - c) <= d
  {
    assert (SLACK * (seize - c)) * d == SLACK * (seize * d - d * c);
    CancelLe(SLACK * (seize - c), d, d);
  }

  lemma BackingScalars(most: int, seize: int, d: int, c: int, k: int)
    requires k >= BPS && d > 0 && SLACK * (seize - c) <= d && d * k < seize * BPS + BPS
    requires 2 * (c * WAD) < 2 * most * (k * (WAD / BPS)) + k * (WAD / BPS)
    ensures SLACK * (d - most) <= d + 2 * SLACK
  {
    assert 2 * most * (k * (WAD / BPS)) == (2 * (most * k)) * (WAD / BPS);
    MulMono(BPS, k, d);
    BackingLinear(d * k, most * k, seize, c, d, k);
    assert (d + 2 * SLACK) * k == d * k + 2 * SLACK * k;
    assert (SLACK * (d - most)) * k == SLACK * (d * k) - SLACK * (most * k);
    CancelLe(SLACK * (d - most), d + 2 * SLACK, k);
  }

  lemma BackingLinear(dk: int, mk: int, seize: int, c: int, d: int, k: int)
    requires k >= BPS && SLACK * (seize - c) <= d && dk < seize * BPS + BPS && 2 * (c * BPS) < 2 * mk + k && d * BPS <= dk
    ensures SLACK * dk - SLACK * mk <= dk + 2 * SLACK * k
  {
  }

  /** Below fifty billion USD of debt every quote for less than the debt solves the target equation. */
  lemma PartialQuoteSolvesTarget(b: Book, bounds: Bounds, curve: Curve)
    requires Liquidatable(b) && 0 <= bounds.base <= CapOf(b) && curve.targetHf > WAD
    requires SnapshotOf(b).Ok? && Estimate(SnapshotOf(b).value, bounds, curve).Ok?
    requires Estimate(SnapshotOf(b).value, bounds, curve).value.ideal < b.debt < SLACK * (BAD_DEBT_USD_THRESHOLD - 2)
    ensures var s, quote := SnapshotOf(b).value, Estimate(SnapshotOf(b).value, bounds, curve).value;
      && SeizureRate(s, quote.bonus).Ok?
      && SolvesTarget(s, quote.ideal, SeizureRate(s, quote.bonus).value, curve.targetHf)
  {
    var s, quote := SnapshotOf(b).value, Estimate(SnapshotOf(b).value, bounds, curve).value;
    FloorNonNeg(b.weighted * WAD, b.debt);
    FloorNonNeg(s.hf * BPS, s.proportion);
    PartialQuoteSolves(b, bounds, curve);
    QuoteAtMostCurve(s, bounds, curve, CapOf(b));
    CoveredQuoteIs(s, bounds, curve, CapOf(b));
    HalfUpUnique(quote.bonus * (WAD / BPS), quote.bonus * WAD, BPS);
    BackingNearDebt(b, quote.bonus);
  }

  /** Collateral below debt: the base bonus on the largest repayment that the collateral backs at it. */
  lemma InsolventQuoteIs(s: Snapshot, bounds: Bounds, curve: Curve)
    requires 0 <= s.collateral < s.debt && HealthCap(s).Some? && 0 <= bounds.base && Estimate(s, bounds, curve).Ok?
    ensures var quote := Estimate(s, bounds, curve).value;
      && quote.bonus == bounds.base
      && quote.ideal * (BPS + bounds.base) <= s.collateral * BPS < (quote.ideal + 1) * (BPS + bounds.base)
  {
    var base := bounds.base;
    HalfUpUnique(base * (WAD / BPS), base * WAD, BPS);
    var backed := Floor(s.collateral * WAD, (BPS + base) * (WAD / BPS));
    FloorBounds(s.collateral * WAD, (BPS + base) * (WAD / BPS));
    BackedScalars(backed, s.collateral, BPS + base);
  }

  lemma BackedScalars(backed: int, c: int, k: int)
    requires k >= BPS && 0 <= c
    requires backed * (k * (WAD / BPS)) <= c * WAD < backed * (k * (WAD / BPS)) + k * (WAD / BPS)
    ensures backed * k <= c * BPS < (backed + 1) * k && backed <= c
  {
    assert backed * (k * (WAD / BPS)) == (backed * k) * (WAD / BPS);
    assert (backed + 1) * k == backed * k + k;
    if backed > c { MulMono(c + 1, backed, k); MulMono(BPS, k, c + 1); }
  }
}
