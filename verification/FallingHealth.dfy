/** Two partials of which the first lowers the health factor: how far the next quote can rise, and
    exactly when the two seize no more than one close of their sum. */
module FallingHealth {
  import opened Numbers
  import opened Rounding
  import opened Liquidation
  import opened LiquidationChains

  function HealthOf(b: Book): int
    requires b.debt > 0
  {
    Floor(b.weighted * WAD, b.debt)
  }

  function ProportionOf(b: Book): int
    requires b.collateral > 0
  {
    HalfUp(b.weighted * WAD, b.collateral)
  }

  /** A book priced for a slice on the terms, covered or not. */
  predicate Priced(b: Book, slice: Slice, terms: Terms) {
    && Open(b) && QuoteFor(b, slice).Ok? && slice.curve == terms.curve
    && BoundsOf(ProportionOf(b), terms.raw) == Ok(slice.bounds)
  }

  /** The curve reaches its maximum at a health factor that is not vanishingly small. */
  predicate Saturates(curve: Curve) {
    500_000_000_000 <= curve.hfForMaxBonus < curve.targetHf && 0 <= curve.bonusFactor <= BPS
  }

  /** Blended thresholds below one BPS are admitted on such a curve; the others on any. */
  predicate Regular(b: Book, curve: Curve)
    requires Open(b)
  {
    ProportionOf(b) >= WAD / BPS || Saturates(curve)
  }

  // ----- the cap across a partial

  lemma CapFalls(hf: int, q: int, hf': int, q': int)
    requires 0 <= hf' <= hf && 0 < q <= q'
    ensures Floor(hf' * BPS, q') <= Floor(hf * BPS, q)
  {
    var f := Floor(hf' * BPS, q');
    FloorNonNeg(hf' * BPS, q');
    FloorBounds(hf' * BPS, q');
    MulMono(q, q', f);
    FloorGe(f, hf * BPS, q);
  }

  // ----- slices below the cap, at any proportion

  lemma MaxBonusBelow(proportion: int)
    requires MaxBonus(proportion).Ok?
    ensures MaxBonus(proportion).value <= BPS * (BPS - 1)
  {
    if proportion > 0 {
      var e := Max(1, Min(Ceil(proportion * BPS, WAD), BPS));
      FloorBounds(BPS * (BPS - e), e);
      MulMono(1, e, BPS * BPS);
      FloorGe(BPS * (BPS - 1) + 1, BPS * (BPS - e), e);
      MulMono(1, e, BPS * (BPS - 1) + 1);
    }
  }

  /** At a thin proportion coverage is so large that no bonus the curve can ask for reaches it. */
  lemma ThinCoverage(c: int, d: int, w: int, q: int, hf: int)
    requires c > 0 && d > 0 && q > 0 && hf >= 500_000_000_000 && hf * d <= w && 2 * w < 2 * q * c + c
    requires BPS * c > 2 * q * d
    ensures (BPS * BPS) * d <= BPS * c
  {
    if 2 * q >= BPS * BPS {
      MulMono(BPS * BPS, 2 * q, d);
    } else {
      MulMono(2 * q + 1, BPS * BPS, c);
      assert (2 * q + 1) * c == 2 * q * c + c;
      MulMono(500_000_000_000, hf, d);
    }
  }

  lemma ThinSeizure(seize: int, repay: int, k: int, c: int, d: int)
    requires 0 <= repay && 0 < d && seize * BPS <= repay * k && k <= BPS * BPS && (BPS * BPS) * d <= BPS * c
    ensures seize * d <= repay * c
  {
    MulMono(seize * BPS, repay * k, d);
    MulMono(k, BPS * BPS, repay * d) by { MulNonNeg(repay, d); }
    MulMono((BPS * BPS) * d, BPS * c, repay);
    ThinIdentities(seize, repay, k, c, d);
    CancelLe(seize * d, repay * c, BPS);
  }

  lemma ThinIdentities(seize: int, repay: int, k: int, c: int, d: int)
    ensures (seize * BPS) * d == (seize * d) * BPS && (repay * k) * d == k * (repay * d)
    ensures repay * ((BPS * BPS) * d) == (BPS * BPS) * (repay * d) && repay * (BPS * c) == (repay * c) * BPS
  {
  }

  /** Below the cap and above the curve's saturation point a slice seizes at most the neutral share. */
  lemma BelowCapIsNeutral(b: Book, repay: int, bonus: int)
    requires Covered(b) && 0 <= repay && bonus < Max(CapOf(b), 0) && bonus <= BPS * (BPS - 1)
    requires HealthOf(b) >= 500_000_000_000
    ensures Seizure(repay, bonus) * b.debt <= repay * b.collateral
  {
    var q := ProportionOf(b);
    if BPS * b.collateral <= 2 * q * b.debt {
      BelowCapSeizure(b, repay, bonus);
    } else {
      ProportionBounds(b);
      FloorBounds(b.weighted * WAD, b.debt);
      FloorBounds(repay * (BPS + bonus), BPS);
      ThinCoverage(b.collateral, b.debt, b.weighted * WAD, q, HealthOf(b));
      ThinSeizure(Seizure(repay, bonus), repay, BPS + bonus, b.collateral, b.debt);
    }
  }

  /** Under the saturation point the curve asks for the same share of the range at every health. */
  lemma SaturatedScale(curve: Curve, hf: int)
    requires hf < curve.hfForMaxBonus < curve.targetHf && BonusScale(curve, hf).Ok?
    ensures BonusScale(curve, hf).value == WAD
  {
    var above, range := curve.targetHf - hf, curve.targetHf - curve.hfForMaxBonus;
    MulMono(range, above, WAD);
    HalfUpGe(WAD, above * WAD, range);
  }

  lemma SaturatedBonus(hf: int, hf': int, bounds: Bounds, curve: Curve)
    requires hf' < hf < curve.hfForMaxBonus < curve.targetHf
    requires BonusScale(curve, hf).Ok? && BonusScale(curve, hf').Ok?
    ensures LinearBonus(hf', bounds, curve) == LinearBonus(hf, bounds, curve)
  {
    SaturatedScale(curve, hf);
    SaturatedScale(curve, hf');
  }

  // ----- the next quote of a covered book

  lemma CurveInRange(b: Book, slice: Slice, terms: Terms)
    requires Quoted(b, slice, terms) && 0 <= terms.raw && Saturates(terms.curve)
    ensures CurveBonus(b, slice) <= BPS * (BPS - 1)
  {
    FirstQuote(b, slice, terms);
    BonusInRange(HealthOf(b), slice.bounds, slice.curve);
    MaxBonusBelow(ProportionOf(b));
  }

  /** A partial quoted below the cap lowers the health factor only where the curve is flat. */
  lemma BelowCapFallsFlat(b: Book, slice: Slice, next: Book, terms: Terms)
    requires Quoted(b, slice, terms) && 0 <= terms.raw && 0 < slice.repay && Regular(b, terms.curve)
    requires next == After(b, slice.repay, BonusFor(b, slice).value) && next.debt > 0 && HealthOf(next) < HealthOf(b)
    requires BonusFor(b, slice).value < Max(CapOf(b), 0)
    ensures Saturates(terms.curve) && HealthOf(b) < terms.curve.hfForMaxBonus
  {
    var bonus := BonusFor(b, slice).value;
    if Liquidatable(b) {
      BelowCapKeepsHealth(b, slice.repay, bonus);
      RatioFloors(b.weighted, b.debt, next.weighted, next.debt);
    } else if HealthOf(b) >= terms.curve.hfForMaxBonus {
      FirstQuote(b, slice, terms);
      CurveInRange(b, slice, terms);
      BelowCapIsNeutral(b, slice.repay, bonus);
      NeutralKeepsHealth(b, slice.repay, bonus);
      RatioFloors(b.weighted, b.debt, next.weighted, next.debt);
    }
  }

  lemma FlatCurve(b: Book, slice: Slice, next: Book, later: Slice, terms: Terms)
    requires Quoted(b, slice, terms) && Quoted(next, later, terms) && 0 <= terms.raw
    requires HealthOf(next) < HealthOf(b) < terms.curve.hfForMaxBonus < terms.curve.targetHf && ProportionOf(b) <= ProportionOf(next)
    ensures CurveBonus(next, later) <= CurveBonus(b, slice)
  {
    var hf, hf' := HealthOf(b), HealthOf(next);
    FirstQuote(b, slice, terms);
    FirstQuote(next, later, terms);
    SaturatedBonus(hf, hf', slice.bounds, terms.curve);
    BonusFallsOnTerms(hf', hf', ProportionOf(b), ProportionOf(next), terms.raw, terms.curve);
  }

  /** While the book stays covered, a partial that lowers the health factor is followed by no larger a
      bonus: either the first was at the cap, which falls with health, or the curve is flat there. */
  lemma CoveredBonusNeverRises(b: Book, slice: Slice, next: Book, later: Slice, terms: Terms)
    requires Quoted(b, slice, terms) && Quoted(next, later, terms) && 0 <= terms.raw && 0 < slice.repay && Regular(b, terms.curve)
    requires next == After(b, slice.repay, BonusFor(b, slice).value) && HealthOf(next) < HealthOf(b)
    ensures BonusFor(next, later).value <= BonusFor(b, slice).value
  {
    var bonus := BonusFor(b, slice).value;
    ProportionNeverFalls(b, slice.repay, bonus);
    RatioHalfUps(b.weighted, b.collateral, next.weighted, next.collateral);
    FloorNonNeg(next.weighted * WAD, next.debt);
    CapFalls(HealthOf(b), ProportionOf(b), HealthOf(next), ProportionOf(next));
    FirstQuote(b, slice, terms);
    FirstQuote(next, later, terms);
    if bonus < Max(CapOf(b), 0) {
      BelowCapFallsFlat(b, slice, next, terms);
      FlatCurve(b, slice, next, later, terms);
    }
  }

  // ----- two partials against one close

  /** What the first seizure rounded away is there for the second. */
  lemma SplitByCarry(repay: int, repaid: int, bonus: int)
    ensures Seizure(repay + repaid, bonus)
         == Seizure(repay, bonus) + Floor((repay * (BPS + bonus)) % BPS + repaid * (BPS + bonus), BPS)
  {
    assert (repay + repaid) * (BPS + bonus) == repay * (BPS + bonus) + repaid * (BPS + bonus);
  }

  /** A partial, and the book it leaves priced on the same terms. */
  predicate Pair(b: Book, first: Slice, second: Slice, terms: Terms) {
    && Priced(b, first, terms) && 0 < first.repay < b.debt
    && var bonus := QuoteFor(b, first).value.bonus;
    && Seizure(first.repay, bonus) < b.collateral
    && Priced(After(b, first.repay, bonus), second, terms)
  }

  /** A first partial that lowers the health factor, and a second on the book it leaves. */
  predicate FallingPair(b: Book, first: Slice, second: Slice, terms: Terms) {
    && Pair(b, first, second, terms) && 0 < second.repay
    && HealthOf(After(b, first.repay, QuoteFor(b, first).value.bonus)) < HealthOf(b)
  }

  /** The first partial makes the book insolvent, and the base bonus it then pays is above the first. */
  predicate CrossesUp(b: Book, first: Slice, second: Slice, terms: Terms)
    requires FallingPair(b, first, second, terms)
  {
    var bonus := QuoteFor(b, first).value.bonus;
    var next := After(b, first.repay, bonus);
    b.debt <= b.collateral && next.collateral < next.debt && bonus < second.bounds.base
  }

  lemma PricedBonus(b: Book, slice: Slice, terms: Terms)
    requires Priced(b, slice, terms) && 0 <= terms.raw
    ensures BonusFor(b, slice) == Ok(QuoteFor(b, slice).value.bonus) && 0 <= QuoteFor(b, slice).value.bonus
    ensures b.debt <= b.collateral ==> Quoted(b, slice, terms)
    ensures b.collateral < b.debt ==> Insolvent(b) && QuoteFor(b, slice).value.bonus == slice.bounds.base
  {
    MaxBonusFalls(ProportionOf(b), ProportionOf(b));
    if b.debt <= b.collateral {
      FirstQuote(b, slice, terms);
    } else {
      InsolventQuote(b, slice);
    }
  }

  /** Unless the pair crosses up, the second bonus is at most the first. */
  lemma SecondBonus(b: Book, first: Slice, second: Slice, terms: Terms)
    requires FallingPair(b, first, second, terms) && 0 <= terms.raw && Regular(b, terms.curve)
    ensures var bonus := QuoteFor(b, first).value.bonus;
      var bonus' := QuoteFor(After(b, first.repay, bonus), second).value.bonus;
      if CrossesUp(b, first, second, terms) then bonus' == second.bounds.base else bonus' <= bonus
  {
    var bonus := QuoteFor(b, first).value.bonus;
    var next := After(b, first.repay, bonus);
    PricedBonus(b, first, terms);
    PricedBonus(next, second, terms);
    if b.collateral < b.debt {
      ErosionKeeps(b, first.repay, bonus);
      MaxBonusFalls(ProportionOf(b), ProportionOf(next));
    } else if next.debt <= next.collateral {
      CoveredBonusNeverRises(b, first, next, second, terms);
    }
  }

  /** Two re-quoted partials with falling health seize no more than one close of their sum if and only
      if they do not cross into insolvency at a larger base bonus, or the second seizure at that bonus
      fits what the first rate leaves for it. */
  lemma FallingPairIff(b: Book, first: Slice, second: Slice, terms: Terms)
    requires FallingPair(b, first, second, terms) && 0 <= terms.raw && Regular(b, terms.curve)
    ensures var bonus := QuoteFor(b, first).value.bonus;
      var bonus' := QuoteFor(After(b, first.repay, bonus), second).value.bonus;
      Seizure(first.repay, bonus) + Seizure(second.repay, bonus') <= Seizure(first.repay + second.repay, bonus)
      <==> (CrossesUp(b, first, second, terms) ==>
              Seizure(second.repay, second.bounds.base)
              <= Floor((first.repay * (BPS + bonus)) % BPS + second.repay * (BPS + bonus), BPS))
  {
    var bonus := QuoteFor(b, first).value.bonus;
    SecondBonus(b, first, second, terms);
    SplitAtBonus(first.repay, second.repay, bonus, QuoteFor(After(b, first.repay, bonus), second).value.bonus,
                 CrossesUp(b, first, second, terms));
  }

  lemma SplitAtBonus(repay: int, repaid: int, bonus: int, bonus': int, rises: bool)
    requires 0 <= repaid && (rises || bonus' <= bonus)
    ensures Seizure(repay, bonus) + Seizure(repaid, bonus') <= Seizure(repay + repaid, bonus)
      <==> (rises ==> Seizure(repaid, bonus') <= Floor((repay * (BPS + bonus)) % BPS + repaid * (BPS + bonus), BPS))
  {
    if rises { SplitByCarry(repay, repaid, bonus); } else { TwoParts(repay, repaid, bonus, bonus'); }
  }

  // ----- how far the bonus can rise across a partial

  /** The cap is within a tenth of a BPS of the coverage, from below. */
  lemma CapBelowCoverage(b: Book)
    requires Liquidatable(b)
    ensures 10 * ((BPS + CapOf(b)) * b.debt) <= 10 * (BPS * b.collateral) + b.debt
  {
    var q, hf, k := ProportionOf(b), HealthOf(b), BPS + CapOf(b);
    ProportionBounds(b);
    CoverageBounded(b);
    FloorBounds(b.weighted * WAD, b.debt);
    FloorBounds(hf * BPS, q);
    CoverageScalars(k, q, hf, b.collateral, b.debt, b.weighted * WAD);
  }

  lemma CoverageScalars(k: int, q: int, hf: int, c: int, d: int, w: int)
    requires q > 0 && d > 0 && c > 0 && k * q <= hf * BPS && hf * d <= w && 2 * w <= 2 * q * c + c && SLACK * c <= 2 * q * d
    ensures 10 * (k * d) <= 10 * (BPS * c) + d
  {
    MulMono(k * q, hf * BPS, 2 * d);
    CoverageIdentities(k, q, hf, c, d);
    CancelLe(10 * (k * d), 10 * (BPS * c) + d, 2 * q);
  }

  lemma CoverageIdentities(k: int, q: int, hf: int, c: int, d: int)
    ensures (2 * d) * (k * q) == (k * d) * (2 * q) && (2 * d) * (hf * BPS) == 2 * BPS * (hf * d)
    ensures (10 * (BPS * c) + d) * (2 * q) == 10 * BPS * (2 * q * c) + 2 * q * d
    ensures (10 * (k * d)) * (2 * q) == 10 * ((k * d) * (2 * q))
  {
  }

  /** Coverage left after a slice at the rate `k - 1`, where `k` and a tenth cover the first. */
  lemma LeftScalars(c: int, d: int, c': int, d': int, repay: int, k: int)
    requires d > 0 && d' == d - repay && 10 * (BPS * (SLACK * c + d)) <= (SLACK * d) * (10 * k + 1)
    requires (c - c' + 1) * BPS > repay * (k - 1)
    ensures 10 * (BPS * c') <= 10 * (k * d') + d' + 11 * repay + 10 * BPS
  {
    assert (SLACK * d) * (10 * k + 1) == SLACK * (10 * (k * d) + d);
    assert k * d' == k * d - repay * k;
    assert repay * (k - 1) == repay * k - repay;
  }

  /** A rise that a BPS of the debt left exceeds must be paid for by the repayment. */
  lemma GainScalars(rate: int, k: int, c': int, d': int, repay: int)
    requires 0 < d' && 0 <= repay && 10 * (rate * d') <= 10 * (BPS * c') + d'
    requires 10 * (BPS * c') <= 10 * (k * d') + d' + 11 * repay + 10 * BPS
    ensures (rate - k) * d' <= 2 * (repay + BPS)
  {
    var gain := rate - k;
    assert gain * d' == rate * d' - k * d';
    if gain <= 0 {
      MulMono(gain, 0, d');
    } else {
      MulMono(1, gain, d');
    }
  }

  lemma CapGain(b: Book, repay: int)
    requires Liquidatable(b) && 0 < repay < b.debt
    requires var next := After(b, repay, Max(CapOf(b), 0)); Liquidatable(next)
    ensures var next := After(b, repay, Max(CapOf(b), 0));
      (CapOf(next) - Max(CapOf(b), 0) - 1) * next.debt <= 2 * (repay + BPS)
  {
    var bonus := Max(CapOf(b), 0);
    var next, k := After(b, repay, bonus), BPS + bonus + 1;
    CapCoversRate(b);
    CapBelowCoverage(next);
    FloorBounds(repay * (BPS + bonus), BPS);
    LeftScalars(b.collateral, b.debt, next.collateral, next.debt, repay, k);
    GainScalars(BPS + CapOf(next), k, next.collateral, next.debt, repay);
  }

  lemma CoveredGain(b: Book, first: Slice, second: Slice, terms: Terms)
    requires Pair(b, first, second, terms) && 0 <= terms.raw && ProportionOf(b) >= WAD / BPS && b.debt <= b.collateral
    requires var next := After(b, first.repay, QuoteFor(b, first).value.bonus); next.debt <= next.collateral
    ensures var bonus := QuoteFor(b, first).value.bonus;
      var next := After(b, first.repay, bonus);
      (QuoteFor(next, second).value.bonus - bonus - 1) * next.debt <= 2 * (first.repay + BPS)
  {
    var bonus := QuoteFor(b, first).value.bonus;
    var next := After(b, first.repay, bonus);
    var bonus' := QuoteFor(next, second).value.bonus;
    PricedBonus(b, first, terms);
    PricedBonus(next, second, terms);
    FirstQuote(b, first, terms);
    FirstQuote(next, second, terms);
    ProportionNeverFalls(b, first.repay, bonus);
    RatioHalfUps(b.weighted, b.collateral, next.weighted, next.collateral);
    if bonus < Max(CapOf(b), 0) {
      NextCurveBonus(b, first, next, second, terms);
      MulMono(bonus' - bonus - 1, 0, next.debt);
    } else if CapOf(next) <= 0 {
      MulMono(bonus' - bonus - 1, 0, next.debt);
    } else {
      CapGain(b, first.repay);
      MulMono(bonus' - bonus - 1, CapOf(next) - bonus - 1, next.debt);
    }
  }

  /** Across any partial, weighted by the debt left, the bonus gains at most two BPS of the repayment
      past one BPS: on covered books, on insolvent ones, and where the partial crosses over. */
  lemma BonusGainIsPaidFor(b: Book, first: Slice, second: Slice, terms: Terms)
    requires Pair(b, first, second, terms) && 0 <= terms.raw <= 100 * BPS && ProportionOf(b) >= WAD / BPS
    ensures var bonus := QuoteFor(b, first).value.bonus;
      var next := After(b, first.repay, bonus);
      (QuoteFor(next, second).value.bonus - bonus - 1) * next.debt <= 2 * (first.repay + BPS)
  {
    var bonus := QuoteFor(b, first).value.bonus;
    var next := After(b, first.repay, bonus);
    var bonus' := QuoteFor(next, second).value.bonus;
    PricedBonus(b, first, terms);
    PricedBonus(next, second, terms);
    if b.collateral < b.debt {
      ErosionKeeps(b, first.repay, bonus);
      MaxBonusFalls(ProportionOf(b), ProportionOf(next));
      MulMono(bonus' - bonus - 1, 0, next.debt);
    } else if next.debt <= next.collateral {
      CoveredGain(b, first, second, terms);
    } else {
      QuoteAtMostCap(b, first.bounds, first.curve);
      CrossingIsSmall(b, first.repay, bonus);
      MulMono(bonus' - bonus - 1, 100 * BPS - 1, next.debt);
    }
  }

  const DEFAULT_CURVE: Curve := Curve(1_100_000_000_000_000_000, 800_000_000_000_000_000, BPS)

  /** 100,000 USD of debt against a trace less than 100,010 at an 80% threshold and a base of 500 BPS.
      The first partial, at the capped bonus of one BPS, leaves a crumb of debt that its collateral no
      longer covers; the crumb is then paid the base bonus, and one close is out-seized. */
  lemma CrossingOutSeizesOneClose()
    ensures var terms := Terms(500, DEFAULT_CURVE);
      var b := Book(100_000 * WAD, 100_010 * WAD - 1000, 80_008 * WAD);
      var first := Slice(100_000 * WAD - 1_000_000, Bounds(500, 2500), DEFAULT_CURVE);
      var second := Slice(951_523, Bounds(500, 2498), DEFAULT_CURVE);
      var next := Book(1_000_000, 999_100, 799_281);
      && FallingPair(b, first, second, terms) && CrossesUp(b, first, second, terms)
      && QuoteFor(b, first) == Ok(Quote(b.debt, 1)) && After(b, first.repay, 1) == next
      && QuoteFor(next, second) == Ok(Quote(second.repay, 500))
      && Seizure(first.repay, 1) + Seizure(second.repay, 500) == Seizure(first.repay + second.repay, 1) + 47_481
  {
    CrossingFirst();
    CrossingSecond();
    assert Seizure(100_000 * WAD - 1_000_000, 1) == 100_009_999_999_999_998_999_900;
    assert Seizure(951_523, 500) == 999_099;
    assert Seizure(100_000 * WAD - 1_000_000 + 951_523, 1) == 100_009_999_999_999_999_951_518;
  }

  lemma CrossingFirst()
    ensures var b := Book(100_000 * WAD, 100_010 * WAD - 1000, 80_008 * WAD);
      && Open(b) && ProportionOf(b) == 800_000_000_000_000_000 && HealthOf(b) == 800_080_000_000_000_000
      && BoundsOf(ProportionOf(b), 500) == Ok(Bounds(500, 2500))
      && QuoteFor(b, Slice(100_000 * WAD - 1_000_000, Bounds(500, 2500), DEFAULT_CURVE)) == Ok(Quote(b.debt, 1))
      && After(b, 100_000 * WAD - 1_000_000, 1) == Book(1_000_000, 999_100, 799_281)
  {
    var b := Book(100_000 * WAD, 100_010 * WAD - 1000, 80_008 * WAD);
    assert SnapshotOf(b) == Ok(Snapshot(b.debt, b.collateral, b.weighted, 800_000_000_000_000_000, 800_080_000_000_000_000));
    UncrossedBounds();
    UncrossedCurve();
    assert Seizure(100_000 * WAD - 1_000_000, 1) == 100_009_999_999_999_998_999_900;
  }

  lemma UncrossedBounds()
    ensures MaxBonus(800_000_000_000_000_000) == Ok(2500)
  {
    assert Ceil(800_000_000_000_000_000 * BPS, WAD) == 8000;
  }

  lemma UncrossedCurve()
    ensures LinearBonus(800_080_000_000_000_000, Bounds(500, 2500), DEFAULT_CURVE) == Ok(2499)
  {
    assert HalfUp(299_920_000_000_000_000 * WAD, 300_000_000_000_000_000) == 999_733_333_333_333_333;
    assert BonusScale(DEFAULT_CURVE, 800_080_000_000_000_000) == Ok(999_733_333_333_333_333);
    assert HalfUp(2000 * 999_733_333_333_333_333, WAD) == 1999 && HalfUp(1999 * BPS, BPS) == 1999;
  }

  lemma CrossingSecond()
    ensures var b := Book(1_000_000, 999_100, 799_281);
      && Open(b) && ProportionOf(b) == 800_001_000_900_810_730 && HealthOf(b) == 799_281_000_000_000_000
      && BoundsOf(ProportionOf(b), 500) == Ok(Bounds(500, 2498))
      && QuoteFor(b, Slice(951_523, Bounds(500, 2498), DEFAULT_CURVE)) == Ok(Quote(951_523, 500))
  {
    var b := Book(1_000_000, 999_100, 799_281);
    assert SnapshotOf(b) == Ok(Snapshot(b.debt, b.collateral, b.weighted, 800_001_000_900_810_730, 799_281_000_000_000_000));
    CrossingBounds();
    CrossingCurve();
    assert OnePlus(500) == Ok(1_050_000_000_000_000_000);
  }

  lemma CrossingBounds()
    ensures MaxBonus(800_001_000_900_810_730) == Ok(2498)
  {
    assert Ceil(800_001_000_900_810_730 * BPS, WAD) == 8001;
  }

  lemma CrossingCurve()
    ensures LinearBonus(799_281_000_000_000_000, Bounds(500, 2498), DEFAULT_CURVE) == Ok(2498)
  {
    assert HalfUp(300_719_000_000_000_000 * WAD, 300_000_000_000_000_000) == 1_002_396_666_666_666_667;
    assert BonusScale(DEFAULT_CURVE, 799_281_000_000_000_000) == Ok(WAD);
    assert HalfUp(1998 * WAD, WAD) == 1998 && HalfUp(1998 * BPS, BPS) == 1998;
  }
}
