/** Liquidation quotes on an account's totals, and what a chain of partial liquidations keeps. */
module Liquidation {
  import opened Numbers
  import opened Rounding
  import FixedPoint

  const BAD_DEBT_USD_THRESHOLD: int := 5 * WAD

  /** Repayment per raw unit of coverage lost to rounding the seizure proportion. */
  const SLACK: int := 10_000_000_000

  /** Account totals in WAD USD. */
  datatype Book = Book(debt: int, collateral: int, weighted: int)

  datatype Snapshot = Snapshot(debt: int, collateral: int, weighted: int, proportion: int, hf: int)
  datatype Bounds = Bounds(base: int, max: int)
  datatype Curve = Curve(targetHf: int, hfForMaxBonus: int, bonusFactor: int)
  datatype Quote = Quote(ideal: int, bonus: int)

  function SnapshotOf(b: Book): Result<Snapshot> {
    var proportion :- if b.collateral > 0 then FixedPoint.MulHalfUp(b.weighted, WAD, b.collateral) else Ok(0);
    var hf :- FixedPoint.MulFloor(b.weighted, WAD, b.debt);
    Ok(Snapshot(b.debt, b.collateral, b.weighted, proportion, hf))
  }

  // ----- the bonus curve

  function BonusScale(curve: Curve, hf: int): Result<int> {
    if curve.targetHf <= curve.hfForMaxBonus then Ok(WAD)
    else
      var above :- CheckedSub(curve.targetHf, hf);
      var range :- CheckedSub(curve.targetHf, curve.hfForMaxBonus);
      var scale :- FixedPoint.MulHalfUp(above, WAD, range);
      Ok(Min(scale, WAD))
  }

  /** The bonus at which a unit repaid seizes all the weighted collateral it frees, for a blended
      threshold ceiled to whole BPS. */
  function MaxBonus(proportion: int): Result<int> {
    if proportion <= 0 then Ok(0)
    else
      var ceiled :- FixedPoint.MulCeil(proportion, BPS, WAD);
      var threshold := Max(1, Min(ceiled, BPS));
      var numerator :- Narrow(BPS * (BPS - threshold));
      Ok(Floor(numerator, threshold))
  }

  /** The configured bonus `raw` of the collateral mix, clamped to the maximum. */
  function BoundsOf(proportion: int, raw: int): Result<Bounds> {
    var max :- MaxBonus(proportion);
    Ok(Bounds(Min(raw, max), max))
  }

  function LinearBonus(hf: int, bounds: Bounds, curve: Curve): Result<int> {
    if hf >= curve.targetHf then Ok(bounds.base)
    else
      var scale :- BonusScale(curve, hf);
      var range :- CheckedSub(bounds.max, bounds.base);
      var increment :- FixedPoint.MulHalfUp(range, scale, WAD);
      var scaled :- FixedPoint.MulHalfUp(increment, curve.bonusFactor, BPS);
      Narrow(bounds.base + scaled)
  }

  /** The largest bonus that leaves the health factor where it is; none without a seizure
      proportion or on a healthy account. */
  function HealthCap(s: Snapshot): Option<int> {
    if s.proportion <= 0 || s.hf >= WAD then None
    else Some(FixedPoint.Trunc(s.hf * BPS, s.proportion) - BPS)
  }

  function OnePlus(bonus: int): Result<int> {
    var wad :- FixedPoint.MulHalfUp(bonus, WAD, BPS);
    Narrow(WAD + wad)
  }

  /** Repayment that lifts the account to the target health factor, capped by backing and debt. */
  function AtTarget(s: Snapshot, bonus: int, targetHf: int): Result<int> {
    var onePlus :- OnePlus(bonus);
    var most :- FixedPoint.MulHalfUp(s.collateral, WAD, onePlus);
    var rate :- FixedPoint.MulHalfUp(s.proportion, onePlus, WAD);
    var targetDebt :- FixedPoint.MulHalfUp(targetHf, s.debt, WAD);
    if targetHf <= rate || targetDebt <= s.weighted then Ok(Min(most, s.debt))
    else
      var numerator :- CheckedSub(targetDebt, s.weighted);
      var denominator :- CheckedSub(targetHf, rate);
      var solved :- FixedPoint.MulHalfUp(numerator, WAD, denominator);
      Ok(Min(Min(solved, most), s.debt))
  }

  function QuoteAt(s: Snapshot, bonus: int, curve: Curve): Result<Quote> {
    var ideal :- AtTarget(s, bonus, curve.targetHf);
    var remaining :- CheckedSub(s.debt, ideal);
    Ok(Quote(if 0 < remaining < BAD_DEBT_USD_THRESHOLD then s.debt else ideal, bonus))
  }

  function Estimate(s: Snapshot, bounds: Bounds, curve: Curve): Result<Quote> {
    var scaled :- LinearBonus(s.hf, bounds, curve);
    match HealthCap(s)
    case None => QuoteAt(s, scaled, curve)
    case Some(cap) =>
      if s.collateral < s.debt then
        var onePlus :- OnePlus(bounds.base);
        var backed :- FixedPoint.MulFloor(s.collateral, WAD, onePlus);
        Ok(Quote(Min(backed, s.debt), bounds.base))
      else if cap < bounds.base then Ok(Quote(s.debt, Max(cap, 0)))
      else QuoteAt(s, Min(scaled, cap), curve)
  }

  lemma ScaledDown(n: int, part: int, whole: int)
    requires 0 <= n && 0 <= part <= whole && whole > 0
    ensures 0 <= HalfUp(n * part, whole) <= n
  {
    MulNonNeg(n, part);
    FloorNonNeg(n * part, whole);
    MulMono(part, whole, n);
    HalfUpLe(n, n * part, whole);
  }

  /** The bonus lies between the base and the maximum for every health factor. */
  lemma BonusInRange(hf: int, bounds: Bounds, curve: Curve)
    requires bounds.base <= bounds.max && 0 <= curve.bonusFactor <= BPS && LinearBonus(hf, bounds, curve).Ok?
    ensures bounds.base <= LinearBonus(hf, bounds, curve).value <= bounds.max
  {
    if hf < curve.targetHf {
      var range, scale := bounds.max - bounds.base, BonusScale(curve, hf).value;
      ScaleInRange(curve, hf);
      ScaledDown(range, scale, WAD);
      ScaledDown(HalfUp(range * scale, WAD), curve.bonusFactor, BPS);
    }
  }

  lemma ScaleInRange(curve: Curve, hf: int)
    requires hf <= curve.targetHf && BonusScale(curve, hf).Ok?
    ensures 0 <= BonusScale(curve, hf).value <= WAD
  {
    if curve.targetHf > curve.hfForMaxBonus {
      var above, range := curve.targetHf - hf, curve.targetHf - curve.hfForMaxBonus;
      MulNonNeg(above, WAD);
      FloorNonNeg(above * WAD, range);
    }
  }

  lemma BonusAtLeastBase(hf: int, bounds: Bounds, curve: Curve)
    requires LinearBonus(hf, bounds, curve).Ok?
    ensures bounds.base <= LinearBonus(hf, bounds, curve).value
  {
    if hf < curve.targetHf {
      var range, scale := bounds.max - bounds.base, BonusScale(curve, hf).value;
      var increment := HalfUp(range * scale, WAD);
      MulNonNeg(increment, curve.bonusFactor);
      FloorNonNeg(increment * curve.bonusFactor, BPS);
    }
  }

  /** The less healthy account, or the one with the larger maximum, is never quoted the smaller bonus. */
  lemma BonusFallsWithHealth(hf: int, hf': int, bounds: Bounds, bounds': Bounds, curve: Curve)
    requires hf <= hf' && bounds'.base == bounds.base && bounds'.max <= bounds.max
    requires LinearBonus(hf, bounds, curve).Ok? && LinearBonus(hf', bounds', curve).Ok?
    ensures LinearBonus(hf', bounds', curve).value <= LinearBonus(hf, bounds, curve).value
  {
    BonusAtLeastBase(hf, bounds, curve);
    if hf' < curve.targetHf {
      ScaleFallsWithHealth(curve, hf, hf');
      ScaleInRange(curve, hf');
      IncrementFalls(bounds.max - bounds.base, bounds'.max - bounds.base, BonusScale(curve, hf).value,
                     BonusScale(curve, hf').value, curve.bonusFactor);
    }
  }

  lemma IncrementFalls(range: int, range': int, scale: int, scale': int, factor: int)
    requires 0 <= range' <= range && 0 <= scale' <= scale && 0 <= factor
    ensures HalfUp(HalfUp(range' * scale', WAD) * factor, BPS) <= HalfUp(HalfUp(range * scale, WAD) * factor, BPS)
  {
    MulMono(scale', scale, range);
    MulMono(range', range, scale');
    HalfUpMono(range' * scale', range * scale, WAD);
    MulMono(HalfUp(range' * scale', WAD), HalfUp(range * scale, WAD), factor);
    HalfUpMono(HalfUp(range' * scale', WAD) * factor, HalfUp(range * scale, WAD) * factor, BPS);
  }

  lemma MaxBonusFalls(proportion: int, proportion': int)
    requires 0 < proportion <= proportion' && MaxBonus(proportion).Ok? && MaxBonus(proportion').Ok?
    ensures 0 <= MaxBonus(proportion').value <= MaxBonus(proportion).value
  {
    CeilMono(proportion * BPS, proportion' * BPS, WAD);
    var e, e' := Max(1, Min(Ceil(proportion * BPS, WAD), BPS)), Max(1, Min(Ceil(proportion' * BPS, WAD), BPS));
    var m := Floor(BPS * (BPS - e'), e');
    FloorNonNeg(BPS * (BPS - e'), e');
    FloorBounds(BPS * (BPS - e'), e');
    MulMono(e, e', m);
    FloorGe(m, BPS * (BPS - e), e);
  }

  /** On one collateral mix a healthier account with no smaller a proportion is not quoted more. */
  lemma BonusFallsOnTerms(hf: int, hf': int, proportion: int, proportion': int, raw: int, curve: Curve)
    requires hf <= hf' && 0 < proportion <= proportion' && 0 <= raw
    requires BoundsOf(proportion, raw).Ok? && LinearBonus(hf, BoundsOf(proportion, raw).value, curve).Ok?
    requires BoundsOf(proportion', raw).Ok? && LinearBonus(hf', BoundsOf(proportion', raw).value, curve).Ok?
    ensures BoundsOf(proportion', raw).value.base <= BoundsOf(proportion, raw).value.base
    ensures LinearBonus(hf', BoundsOf(proportion', raw).value, curve).value
         <= LinearBonus(hf, BoundsOf(proportion, raw).value, curve).value
  {
    var bounds, bounds' := BoundsOf(proportion, raw).value, BoundsOf(proportion', raw).value;
    MaxBonusFalls(proportion, proportion');
    BonusAtLeastBase(hf, bounds, curve);
    if bounds'.base == bounds.base {
      BonusFallsWithHealth(hf, hf', bounds, bounds', curve);
    } else {
      NoRangeNoIncrement(hf', bounds', curve);
    }
  }

  lemma NoRangeNoIncrement(hf: int, bounds: Bounds, curve: Curve)
    requires bounds.base == bounds.max && LinearBonus(hf, bounds, curve).Ok?
    ensures LinearBonus(hf, bounds, curve).value == bounds.base
  {
  }

  lemma ScaleFallsWithHealth(curve: Curve, hf: int, hf': int)
    requires hf <= hf' < curve.targetHf && BonusScale(curve, hf).Ok? && BonusScale(curve, hf').Ok?
    ensures BonusScale(curve, hf').value <= BonusScale(curve, hf).value
  {
    if curve.targetHf > curve.hfForMaxBonus {
      HalfUpMono((curve.targetHf - hf') * WAD, (curve.targetHf - hf) * WAD, curve.targetHf - curve.hfForMaxBonus);
    }
  }

  /** Weighted collateral taken per unit repaid, in WAD. */
  function SeizureRate(s: Snapshot, bonus: int): Result<int> {
    var onePlus :- OnePlus(bonus);
    FixedPoint.MulHalfUp(s.proportion, onePlus, WAD)
  }

  /** A repayment that neither the backing nor the debt caps is the solution of the target equation:
      target times the debt left equals the weighted collateral left, up to a rounding of each side. */
  lemma TargetSolved(s: Snapshot, bonus: int, targetHf: int)
    requires AtTarget(s, bonus, targetHf).Ok? && targetHf > SeizureRate(s, bonus).value
    requires HalfUp(targetHf * s.debt, WAD) > s.weighted
    ensures var repay, rate := AtTarget(s, bonus, targetHf).value, SeizureRate(s, bonus).value;
      var gap := targetHf * (s.debt - repay) - (WAD * s.weighted - repay * rate);
      && repay <= s.debt
      && 2 * gap >= -(targetHf - rate) - WAD
      && (repay < s.debt && repay < HalfUp(s.collateral * WAD, OnePlus(bonus).value) ==> 2 * gap <= (targetHf - rate) + WAD)
  {
    var onePlus, rate := OnePlus(bonus).value, SeizureRate(s, bonus).value;
    var targetDebt, repay := HalfUp(targetHf * s.debt, WAD), AtTarget(s, bonus, targetHf).value;
    var n, d := targetDebt - s.weighted, targetHf - rate;
    HalfUpBounds(targetHf * s.debt, WAD);
    HalfUpBounds(n * WAD, d);
    TargetScalars(targetHf, s.debt, s.weighted, rate, repay, HalfUp(n * WAD, d), targetDebt);
  }

  lemma TargetScalars(target: int, debt: int, weighted: int, rate: int, repay: int, solved: int, targetDebt: int)
    requires repay <= solved && target > rate
    requires 2 * targetDebt * WAD - WAD <= 2 * (target * debt) < 2 * targetDebt * WAD + WAD
    requires 2 * solved * (target - rate) - (target - rate) <= 2 * ((targetDebt - weighted) * WAD)
    requires 2 * ((targetDebt - weighted) * WAD) < 2 * solved * (target - rate) + (target - rate)
    ensures var gap := target * (debt - repay) - (WAD * weighted - repay * rate);
      && 2 * gap >= -(target - rate) - WAD && (repay == solved ==> 2 * gap <= (target - rate) + WAD)
  {
    MulMono(repay, solved, target - rate);
    assert target * (debt - repay) - (WAD * weighted - repay * rate) == target * debt - WAD * weighted - repay * (target - rate);
    assert 2 * solved * (target - rate) == 2 * (solved * (target - rate));
  }

  // ----- one partial liquidation

  function Seizure(repay: int, bonus: int): int {
    Floor(repay * (BPS + bonus), BPS)
  }

  /** The book after a partial: seizure is pro rata, so the weighted total falls in proportion. */
  function After(b: Book, repay: int, bonus: int): Book
    requires b.collateral > 0
  {
    var seize := Seizure(repay, bonus);
    Book(b.debt - repay, b.collateral - seize, b.weighted - Floor(seize * b.weighted, b.collateral))
  }

  /** A book the plan accepts: unhealthy, with a seizure proportion. */
  predicate Open(b: Book) {
    && 0 < b.debt && 0 < b.weighted <= b.collateral
    && HalfUp(b.weighted * WAD, b.collateral) > 0
    && Floor(b.weighted * WAD, b.debt) < WAD
  }

  predicate Covered(b: Book) {
    Open(b) && b.debt <= b.collateral
  }

  /** A covered book with a blended threshold of a BPS or more. */
  predicate Liquidatable(b: Book) {
    Covered(b) && HalfUp(b.weighted * WAD, b.collateral) >= WAD / BPS
  }

  function CapOf(b: Book): int
    requires Covered(b)
  {
    Floor(Floor(b.weighted * WAD, b.debt) * BPS, HalfUp(b.weighted * WAD, b.collateral)) - BPS
  }

  lemma QuoteOfSnapshot(s: Snapshot, bounds: Bounds, curve: Curve, cap: int)
    requires s.debt <= s.collateral && HealthCap(s) == Some(cap) && Estimate(s, bounds, curve).Ok?
    ensures var quote := Estimate(s, bounds, curve).value;
      quote.bonus <= Max(cap, 0) && (cap < bounds.base ==> quote == Quote(s.debt, Max(cap, 0)))
  {
  }

  /** Every covered quote is the curve's bonus or the cap floored at zero, and never above the curve. */
  lemma QuoteAtMostCurve(s: Snapshot, bounds: Bounds, curve: Curve, cap: int)
    requires s.debt <= s.collateral && HealthCap(s) == Some(cap) && 0 <= bounds.base && Estimate(s, bounds, curve).Ok?
    ensures LinearBonus(s.hf, bounds, curve).Ok?
    ensures var bonus, scaled := Estimate(s, bounds, curve).value.bonus, LinearBonus(s.hf, bounds, curve).value;
      0 <= bonus <= scaled && (bonus == Max(cap, 0) || bonus == scaled)
  {
    BonusAtLeastBase(s.hf, bounds, curve);
  }

  /** On a covered book every quote is at most the health-preserving cap, floored at zero, whatever
      the bonus bounds and the curve; a cap below the base bonus is quoted outright. */
  lemma QuoteAtMostCap(b: Book, bounds: Bounds, curve: Curve)
    requires Covered(b)
    ensures SnapshotOf(b).Ok? && Estimate(SnapshotOf(b).value, bounds, curve).Ok? ==>
      var quote := Estimate(SnapshotOf(b).value, bounds, curve).value;
      && quote.bonus <= Max(CapOf(b), 0)
      && (CapOf(b) < bounds.base ==> quote == Quote(b.debt, Max(CapOf(b), 0)))
  {
    if SnapshotOf(b).Err? || Estimate(SnapshotOf(b).value, bounds, curve).Err? { return; }
    var hf, proportion := Floor(b.weighted * WAD, b.debt), HalfUp(b.weighted * WAD, b.collateral);
    FloorNonNeg(b.weighted * WAD, b.debt);
    FloorNonNeg(hf * BPS, proportion);
    QuoteOfSnapshot(SnapshotOf(b).value, bounds, curve, CapOf(b));
  }

  // ----- the seizure never beats the coverage rate

  /** Half-up proportion `q` of a book, as bounds on `2 * q * c` around `2 * w * WAD`. */
  lemma ProportionBounds(b: Book)
    requires Covered(b)
    ensures var p := 2 * HalfUp(b.weighted * WAD, b.collateral) * b.collateral;
      p - b.collateral <= 2 * (b.weighted * WAD) < p + b.collateral
    ensures b.weighted < b.debt
  {
    HalfUpBounds(b.weighted * WAD, b.collateral);
    FloorGe(WAD, b.weighted * WAD, b.debt);
  }

  /** A blended threshold of at least one BPS bounds the coverage of an unhealthy book. */
  lemma CoverageBounded(b: Book)
    requires Liquidatable(b)
    ensures SLACK * b.collateral <= 2 * HalfUp(b.weighted * WAD, b.collateral) * b.debt
    ensures b.collateral <= 2 * BPS * b.debt
  {
    var q := HalfUp(b.weighted * WAD, b.collateral);
    ProportionBounds(b);
    MulMono(2 * (WAD / BPS) - 1, 2 * q - 1, b.collateral);
    assert (2 * q - 1) * b.collateral == 2 * q * b.collateral - b.collateral;
    MulMono(2 * (WAD / BPS), 2 * q, b.debt);
  }

  lemma RateScalars(seize: int, repay: int, k: int, q: int, hf: int)
    requires q > 0 && repay >= 0 && seize * BPS <= repay * k && k * q <= hf * BPS
    ensures seize * q <= repay * hf
  {
    MulMono(seize * BPS, repay * k, q);
    MulMono(k * q, hf * BPS, repay);
    assert (seize * BPS) * q == (seize * q) * BPS;
    assert (repay * k) * q == repay * (k * q);
    assert repay * (hf * BPS) == (repay * hf) * BPS;
    CancelLe(seize * q, repay * hf, BPS);
  }

  /** `seize * d` against `repay * c`, both scaled by `2 * q * c`. */
  lemma CrossScalars(seize: int, repay: int, q: int, hf: int, c: int, d: int, w: int)
    requires repay >= 0 && c > 0 && d > 0 && seize * q <= repay * hf && hf * d <= w
    requires 2 * w <= 2 * q * c + c
    ensures (seize * d - repay * c) * (2 * q * c) <= (repay * c) * c
  {
    MulMono(seize * q, repay * hf, 2 * (c * d));
    MulMono(hf * d, w, 2 * (repay * c));
    MulMono(2 * w, 2 * q * c + c, repay * c);
    CrossIdentities(seize, repay, q, hf, c, d, w);
  }

  lemma CrossIdentities(seize: int, repay: int, q: int, hf: int, c: int, d: int, w: int)
    ensures (2 * (c * d)) * (seize * q) == (seize * d) * (2 * q * c)
    ensures (2 * (c * d)) * (repay * hf) == (2 * (repay * c)) * (hf * d)
    ensures (2 * (repay * c)) * w == (repay * c) * (2 * w)
    ensures (repay * c) * (2 * q * c + c) == (repay * c) * (2 * q * c) + (repay * c) * c
    ensures (seize * d - repay * c) * (2 * q * c) == (seize * d) * (2 * q * c) - (repay * c) * (2 * q * c)
  {
  }

  lemma SlackScalars(excess: int, repay: int, q: int, c: int, d: int)
    requires repay >= 0 && c > 0 && q > 0 && excess * (2 * q * c) <= (repay * c) * c && SLACK * c <= 2 * q * d
    ensures SLACK * excess <= repay * d
  {
    MulMono(SLACK * c, 2 * q * d, repay * c);
    assert (repay * c) * (SLACK * c) == SLACK * ((repay * c) * c);
    assert (repay * c) * (2 * q * d) == (repay * d) * (2 * q * c);
    assert (SLACK * excess) * (2 * q * c) == SLACK * (excess * (2 * q * c));
    MulNonNeg(q, c);
    assert 2 * q * c == 2 * (q * c) && q * c >= 1 by { MulMono(1, q, c); }
    CancelLe(SLACK * excess, repay * d, 2 * q * c);
  }

  /** Collateral seized at a bonus up to the cap, against the coverage rate `collateral / debt`: it
      exceeds `repay * collateral / debt` by at most `repay / SLACK`. */
  lemma SeizureNearNeutral(b: Book, repay: int, bonus: int)
    requires Liquidatable(b) && repay >= 0 && bonus <= Max(CapOf(b), 0)
    ensures SLACK * (Seizure(repay, bonus) * b.debt - repay * b.collateral) <= repay * b.debt
  {
    var seize, k := Seizure(repay, bonus), BPS + bonus;
    FloorBounds(repay * k, BPS);
    if CapOf(b) <= 0 {
      SeizureAtPar(b, repay, bonus);
    } else {
      var q, hf := HalfUp(b.weighted * WAD, b.collateral), Floor(b.weighted * WAD, b.debt);
      ProportionBounds(b);
      CoverageBounded(b);
      FloorBounds(b.weighted * WAD, b.debt);
      FloorGe(k, hf * BPS, q);
      RateScalars(seize, repay, k, q, hf);
      CrossScalars(seize, repay, q, hf, b.collateral, b.debt, b.weighted * WAD);
      SlackScalars(seize * b.debt - repay * b.collateral, repay, q, b.collateral, b.debt);
    }
  }

  lemma SeizureAtPar(b: Book, repay: int, bonus: int)
    requires Liquidatable(b) && repay >= 0 && bonus <= 0
    ensures SLACK * (Seizure(repay, bonus) * b.debt - repay * b.collateral) <= repay * b.debt
  {
    var seize := Seizure(repay, bonus);
    FloorBounds(repay * (BPS + bonus), BPS);
    MulMono(BPS + bonus, BPS, repay);
    assert seize <= repay;
    MulMono(seize, repay, b.debt);
    MulMono(b.debt, b.collateral, repay);
    MulNonNeg(repay, b.debt);
  }

  // ----- what one partial keeps

  /** Coverage and health after a partial at any quoted bonus: `C1 / D1` against `C0 / D0` and
      `W1 / D1` against `W0 / D0`, each short by at most `repay / SLACK` in units of `1 / D1`. */
  lemma PartialKeepsCoverage(b: Book, repay: int, bonus: int)
    requires Liquidatable(b) && 0 < repay <= b.debt && bonus <= Max(CapOf(b), 0)
    ensures var next := After(b, repay, bonus);
      && SLACK * (b.collateral * next.debt) <= SLACK * (next.collateral * b.debt) + repay * b.debt
      && SLACK * (b.weighted * next.debt) <= SLACK * (next.weighted * b.debt) + repay * b.debt
      && Ceil(b.collateral * next.debt, b.debt) <= next.collateral + repay / SLACK + 2
  {
    var next, seize := After(b, repay, bonus), Seizure(repay, bonus);
    SeizureNearNeutral(b, repay, bonus);
    Removed(b.collateral, b.debt, seize, repay);
    WholeUnits(b.collateral * next.debt, next.collateral, b.debt, repay);
    FloorBounds(seize * b.weighted, b.collateral);
    WeightedScalars(b, seize, repay, Floor(seize * b.weighted, b.collateral));
    Removed(b.weighted, b.debt, Floor(seize * b.weighted, b.collateral), repay);
  }

  lemma Removed(c: int, d: int, seize: int, repay: int)
    ensures c * (d - repay) == c * d - repay * c
    ensures (c - seize) * d == c * d - seize * d
  {
  }

  lemma WholeUnits(kept: int, left: int, d: int, repay: int)
    requires d > 0 && repay > 0 && SLACK * kept <= SLACK * (left * d) + repay * d
    ensures Ceil(kept, d) <= left + repay / SLACK + 2
  {
    var u := repay / SLACK + 1;
    MulMono(repay, SLACK * u, d);
    assert (SLACK * u) * d == SLACK * (u * d);
    assert (left + u) * d == left * d + u * d;
    CeilLe(left + u, kept, d);
  }

  lemma WeightedScalars(b: Book, seize: int, repay: int, out: int)
    requires Liquidatable(b) && repay > 0 && out * b.collateral <= seize * b.weighted
    requires SLACK * (seize * b.debt - repay * b.collateral) <= repay * b.debt
    ensures SLACK * (out * b.debt - repay * b.weighted) <= repay * b.debt
  {
    var c, d, w := b.collateral, b.debt, b.weighted;
    MulMono(out * c, seize * w, d);
    MulMono(SLACK * (seize * d - repay * c), repay * d, w);
    MulNonNeg(repay, d);
    MulMono(w, c, repay * d);
    WeightedIdentities(seize, repay, out, c, d, w);
    CancelLe(SLACK * (out * d - repay * w), repay * d, c);
  }

  lemma WeightedIdentities(seize: int, repay: int, out: int, c: int, d: int, w: int)
    ensures (out * c) * d == (out * d) * c
    ensures (seize * w) * d == (seize * d) * w
    ensures (SLACK * (seize * d - repay * c)) * w == SLACK * ((seize * d) * w) - SLACK * ((repay * w) * c)
    ensures (SLACK * (out * d - repay * w)) * c == SLACK * ((out * d) * c) - SLACK * ((repay * w) * c)
  {
  }
}
