/** Chains of partial liquidations, each quoted afresh on the book the last one left: what they keep,
    and that splitting a close is not more profitable. */
module LiquidationChains {
  import opened Numbers
  import opened Rounding
  import opened Liquidation

  // ----- chains of partials

  /** One partial of a chain: its repayment, and the bounds and curve in force when it is quoted. */
  datatype Slice = Slice(repay: int, bounds: Bounds, curve: Curve)

  function BonusFor(b: Book, slice: Slice): Result<int> {
    var s :- SnapshotOf(b);
    var quote :- Estimate(s, slice.bounds, slice.curve);
    Ok(quote.bonus)
  }

  /** Every book along the way is liquidatable and covered and is quoted; a slice that repays the
      whole debt is the last. */
  ghost predicate Feasible(b: Book, slices: seq<Slice>)
    decreases |slices|
  {
    slices != [] ==>
      && Liquidatable(b) && 0 < slices[0].repay <= b.debt && BonusFor(b, slices[0]).Ok?
      && Feasible(After(b, slices[0].repay, BonusFor(b, slices[0]).value), slices[1..])
  }

  ghost function Final(b: Book, slices: seq<Slice>): Book
    requires Feasible(b, slices)
    decreases |slices|
  {
    if slices == [] then b
    else Final(After(b, slices[0].repay, BonusFor(b, slices[0]).value), slices[1..])
  }

  /** From `b` to `end`, coverage and health fall by at most the repayment over `SLACK`. */
  predicate KeptTo(b: Book, end: Book) {
    && 0 <= end.debt <= b.debt
    && SLACK * (b.collateral * end.debt) <= SLACK * (end.collateral * b.debt) + (b.debt - end.debt) * b.debt
    && SLACK * (b.weighted * end.debt) <= SLACK * (end.weighted * b.debt) + (b.debt - end.debt) * b.debt
  }

  lemma KeptOn(b: Book, next: Book, end: Book)
    requires KeptTo(b, next) && KeptTo(next, end) && 0 < next.debt < b.debt
    ensures KeptTo(b, end)
  {
    Telescope(b.collateral, b.debt, next.collateral, next.debt, end.collateral, end.debt);
    Telescope(b.weighted, b.debt, next.weighted, next.debt, end.weighted, end.debt);
  }

  /** Over a whole chain the losses telescope to the summed repayment over `SLACK`. */
  lemma {:induction false} ChainKeepsCoverage(b: Book, slices: seq<Slice>)
    requires b.debt > 0 && Feasible(b, slices)
    ensures KeptTo(b, Final(b, slices))
    decreases |slices|
  {
    if slices != [] {
      var repay, bonus := slices[0].repay, BonusFor(b, slices[0]).value;
      var next := After(b, repay, bonus);
      QuoteAtMostCap(b, slices[0].bounds, slices[0].curve);
      PartialKeepsCoverage(b, repay, bonus);
      if next.debt > 0 {
        ChainKeepsCoverage(next, slices[1..]);
        KeptOn(b, next, Final(b, slices));
      }
    }
  }

  lemma Telescope(c0: int, d0: int, c1: int, d1: int, c2: int, d2: int)
    requires 0 <= d2 <= d1 < d0 && 0 < d1
    requires SLACK * (c0 * d1) <= SLACK * (c1 * d0) + (d0 - d1) * d0
    requires SLACK * (c1 * d2) <= SLACK * (c2 * d1) + (d1 - d2) * d1
    ensures SLACK * (c0 * d2) <= SLACK * (c2 * d0) + (d0 - d2) * d0
  {
    MulMono(SLACK * (c0 * d1), SLACK * (c1 * d0) + (d0 - d1) * d0, d2);
    MulMono(SLACK * (c1 * d2), SLACK * (c2 * d1) + (d1 - d2) * d1, d0);
    MulNonNeg(d0 - d1, d0);
    MulMono(d2, d1, (d0 - d1) * d0);
    TelescopeIdentities(c0, d0, c1, d1, c2, d2);
    CancelLe(SLACK * (c0 * d2), SLACK * (c2 * d0) + (d0 - d2) * d0, d1);
  }

  lemma TelescopeIdentities(c0: int, d0: int, c1: int, d1: int, c2: int, d2: int)
    ensures (SLACK * (c0 * d1)) * d2 == (SLACK * (c0 * d2)) * d1
    ensures (SLACK * (c1 * d0) + (d0 - d1) * d0) * d2 == SLACK * (c1 * d2) * d0 + ((d0 - d1) * d0) * d2
    ensures (SLACK * (c2 * d1) + (d1 - d2) * d1) * d0 == (SLACK * (c2 * d0)) * d1 + ((d1 - d2) * d0) * d1
    ensures (SLACK * (c2 * d0) + (d0 - d2) * d0) * d1
         == (SLACK * (c2 * d0)) * d1 + ((d1 - d2) * d0) * d1 + ((d0 - d1) * d0) * d1
  {
  }

  // ----- splitting a close is not more profitable

  lemma CapScalars(k: int, q: int, hf: int, c: int, d: int, w: int)
    requires c > 0 && d > 0 && k >= 0 && hf * BPS < k * q && w < hf * d + d && 2 * q * c <= 2 * w + c
    ensures BPS * c * (2 * w - 2 * d) <= (k * d) * (2 * w + c)
  {
    MulMono(w, hf * d + d, 2 * (BPS * c));
    MulMono(hf * BPS, k * q, 2 * (c * d));
    MulMono(2 * q * c, 2 * w + c, k * d);
    CapIdentities(k, q, hf, c, d, w);
  }

  lemma CapIdentities(k: int, q: int, hf: int, c: int, d: int, w: int)
    ensures (2 * (BPS * c)) * w == BPS * c * (2 * w)
    ensures (2 * (BPS * c)) * (hf * d + d) == (2 * (c * d)) * (hf * BPS) + BPS * c * (2 * d)
    ensures (2 * (c * d)) * (k * q) == (k * d) * (2 * q * c)
    ensures BPS * c * (2 * w - 2 * d) == BPS * c * (2 * w) - BPS * c * (2 * d)
  {
  }

  /** The neutral rate plus its slack is below the floored cap plus eleven tenths of a BPS. */
  lemma RateBelowCap(k: int, c: int, d: int, w: int)
    requires 0 < d <= c <= 2 * BPS * d && 100_000_000_000_000 * c <= 2 * w
    requires BPS * c * (2 * w - 2 * d) <= (k * d) * (2 * w + c)
    ensures 10 * (BPS * (SLACK * c + d)) <= (SLACK * d) * (10 * k + 1)
  {
    var n := 2 * w;
    MulNonNeg(c, d);
    MulMono(c, 2 * BPS * d, c);
    MulMono(100_000_000_000_000 * c, n, d);
    RateIdentities(k, c, d, n);
    MulMono(1, n + c, 1);
    CancelLe(10 * (BPS * (SLACK * c + d)), (SLACK * d) * (10 * k + 1), n + c);
  }

  lemma RateIdentities(k: int, c: int, d: int, n: int)
    ensures c * (2 * BPS * d) == 2 * BPS * (c * d)
    ensures d * (100_000_000_000_000 * c) == 100_000_000_000_000 * (c * d)
    ensures BPS * c * (n - 2 * d) == BPS * (c * n) - 2 * BPS * (c * d)
    ensures (10 * (BPS * (SLACK * c + d))) * (n + c)
         == 10 * (SLACK * BPS * (c * n) + SLACK * BPS * (c * c) + BPS * (d * n) + BPS * (c * d))
    ensures ((SLACK * d) * (10 * k + 1)) * (n + c)
         == 10 * SLACK * ((k * d) * (n + c)) + SLACK * (d * n) + SLACK * (c * d)
  {
  }

  /** A chain of quoted partials that starts at the cap. */
  lemma ChainFromCap(b: Book, slices: seq<Slice>)
    requires slices != [] && Feasible(b, slices) && BonusFor(b, slices[0]).value == Max(CapOf(b), 0)
    ensures AtRate(b.collateral - Final(b, slices).collateral, b.debt - Final(b, slices).debt, BonusFor(b, slices[0]).value)
  {
    var end := Final(b, slices);
    ChainKeepsCoverage(b, slices);
    CapCoversRate(b);
    ChainScalars(b.collateral, b.debt, b.collateral - end.collateral, b.debt - end.debt, BPS + Max(CapOf(b), 0) + 1);
  }

  lemma CapCoversRate(b: Book)
    requires Liquidatable(b)
    ensures 10 * (BPS * (SLACK * b.collateral + b.debt)) <= (SLACK * b.debt) * (10 * (BPS + Max(CapOf(b), 0) + 1) + 1)
  {
    var c, d, w := b.collateral, b.debt, b.weighted * WAD;
    var q, hf, k := HalfUp(w, c), Floor(w, d), BPS + Max(CapOf(b), 0) + 1;
    ProportionBounds(b);
    CoverageBounded(b);
    FloorBounds(w, d);
    FloorBounds(hf * BPS, q);
    AboveFloor(BPS + CapOf(b), k, q, hf * BPS);
    CapScalars(k, q, hf, c, d, w);
    HeavyWeight(q, c, w);
    RateBelowCap(k, c, d, w);
  }

  lemma AboveFloor(f: int, k: int, q: int, n: int)
    requires q > 0 && n < f * q + q && f + 1 <= k
    ensures n < k * q
  {
    MulMono(f + 1, k, q);
    assert (f + 1) * q == f * q + q;
  }

  lemma HeavyWeight(q: int, c: int, w: int)
    requires q >= WAD / BPS && c > 0 && 2 * q * c - c <= 2 * w
    ensures 100_000_000_000_000 * c <= 2 * w
  {
    MulMono(100_000_000_000_000, 2 * q - 1, c);
    assert (2 * q - 1) * c == 2 * q * c - c;
  }

  lemma ChainScalars(c: int, d: int, seized: int, repaid: int, k: int)
    requires d > 0 && repaid >= 0 && 10 * (BPS * (SLACK * c + d)) <= (SLACK * d) * (10 * k + 1)
    requires SLACK * (c * (d - repaid)) <= SLACK * ((c - seized) * d) + repaid * d
    ensures 10 * (seized * BPS) <= repaid * (10 * k + 1)
  {
    MulMono(10 * (BPS * (SLACK * c + d)), (SLACK * d) * (10 * k + 1), repaid);
    ChainIdentities(c, d, seized, repaid, k);
    CancelLe(10 * (seized * BPS), repaid * (10 * k + 1), SLACK * d);
  }

  lemma ChainIdentities(c: int, d: int, seized: int, repaid: int, k: int)
    ensures c * (d - repaid) == c * d - repaid * c && (c - seized) * d == c * d - seized * d
    ensures repaid * (10 * (BPS * (SLACK * c + d))) == 10 * BPS * (SLACK * (repaid * c) + repaid * d)
    ensures repaid * ((SLACK * d) * (10 * k + 1)) == (repaid * (10 * k + 1)) * (SLACK * d)
    ensures (10 * (seized * BPS)) * (SLACK * d) == 10 * BPS * (SLACK * (seized * d))
  {
  }

  // ----- slices below the cap

  lemma BelowCapScalars(seize: int, repay: int, k: int, q: int, hf: int, c: int, d: int, w: int)
    requires repay >= 0 && c > 0 && d > 0 && q > 0 && seize * BPS <= repay * (k - 1) && k * q <= hf * BPS
    requires hf * d <= w && 2 * w <= 2 * q * c + c && BPS * c <= 2 * q * d
    ensures seize * d <= repay * c
  {
    MulMono(seize * BPS, repay * (k - 1), 2 * (q * d));
    MulMono(k * q, hf * BPS, 2 * (repay * d));
    MulMono(hf * d, w, 2 * (BPS * repay));
    MulMono(2 * w, 2 * q * c + c, BPS * repay);
    MulMono(BPS * c, 2 * q * d, repay);
    BelowCapIdentities(seize, repay, k, q, hf, c, d, w);
    MulMono(1, q, 1);
    CancelLe(seize * d, repay * c, 2 * BPS * q);
  }

  lemma BelowCapIdentities(seize: int, repay: int, k: int, q: int, hf: int, c: int, d: int, w: int)
    ensures (2 * (q * d)) * (seize * BPS) == (seize * d) * (2 * BPS * q)
    ensures (2 * (q * d)) * (repay * (k - 1)) == (2 * (repay * d)) * (k * q) - repay * (2 * q * d)
    ensures (2 * (repay * d)) * (hf * BPS) == (2 * (BPS * repay)) * (hf * d)
    ensures (2 * (BPS * repay)) * w == (BPS * repay) * (2 * w)
    ensures (BPS * repay) * (2 * q * c + c) == (repay * c) * (2 * BPS * q) + repay * (BPS * c)
  {
  }

  /** A whole BPS below the cap outweighs the rounding of the proportion: the seizure is at most the
      neutral one, so neither coverage nor health falls. */
  lemma BelowCapKeepsHealth(b: Book, repay: int, bonus: int)
    requires Liquidatable(b) && 0 <= repay && bonus < Max(CapOf(b), 0)
    ensures var next := After(b, repay, bonus);
      && b.weighted * next.debt <= next.weighted * b.debt
      && b.weighted * next.collateral <= next.weighted * b.collateral
  {
    CoverageBounded(b);
    BelowCapSeizure(b, repay, bonus);
    NeutralKeepsHealth(b, repay, bonus);
    ProportionNeverFalls(b, repay, bonus);
  }

  /** The weighted total that leaves with a seizure is floored, so the proportion never falls. */
  lemma ProportionNeverFalls(b: Book, repay: int, bonus: int)
    requires b.collateral > 0
    ensures b.weighted * After(b, repay, bonus).collateral <= After(b, repay, bonus).weighted * b.collateral
  {
    var seize := Seizure(repay, bonus);
    FloorBounds(seize * b.weighted, b.collateral);
    Removed(b.weighted, b.collateral, Floor(seize * b.weighted, b.collateral), seize);
  }

  lemma NeutralKeepsHealth(b: Book, repay: int, bonus: int)
    requires b.collateral > 0 && b.debt > 0 && b.weighted > 0 && Seizure(repay, bonus) * b.debt <= repay * b.collateral
    ensures b.weighted * After(b, repay, bonus).debt <= After(b, repay, bonus).weighted * b.debt
  {
    var seize, out := Seizure(repay, bonus), Floor(Seizure(repay, bonus) * b.weighted, b.collateral);
    FloorBounds(seize * b.weighted, b.collateral);
    ProRataOut(b.collateral, b.debt, b.weighted, seize, out, repay);
    Removed(b.weighted, b.debt, out, repay);
  }


  lemma ProRataOut(c: int, d: int, w: int, seize: int, out: int, repay: int)
    requires c > 0 && d > 0 && w > 0 && out * c <= seize * w && seize * d <= repay * c
    ensures out * d <= repay * w
  {
    MulMono(out * c, seize * w, d);
    MulMono(seize * d, repay * c, w);
    ProRataIdentities(c, d, w, seize, out, repay);
    CancelLe(out * d, repay * w, c);
  }

  lemma ProRataIdentities(c: int, d: int, w: int, seize: int, out: int, repay: int)
    ensures (out * c) * d == (out * d) * c
    ensures (seize * w) * d == w * (seize * d)
    ensures w * (repay * c) == (repay * w) * c
  {
  }

  lemma BelowCapSeizure(b: Book, repay: int, bonus: int)
    requires Covered(b) && 0 <= repay && bonus < Max(CapOf(b), 0)
    requires BPS * b.collateral <= 2 * HalfUp(b.weighted * WAD, b.collateral) * b.debt
    ensures Seizure(repay, bonus) * b.debt <= repay * b.collateral
  {
    var seize := Seizure(repay, bonus);
    FloorBounds(repay * (BPS + bonus), BPS);
    if CapOf(b) <= 0 {
      MulMono(BPS + bonus, BPS, repay);
      MulMono(seize, repay, b.debt);
      MulMono(b.debt, b.collateral, repay);
    } else {
      var q, hf, k := HalfUp(b.weighted * WAD, b.collateral), Floor(b.weighted * WAD, b.debt), BPS + bonus + 1;
      ProportionBounds(b);
      FloorBounds(b.weighted * WAD, b.debt);
      FloorGe(k, hf * BPS, q);
      BelowCapScalars(seize, repay, k, q, hf, b.collateral, b.debt, b.weighted * WAD);
    }
  }

  lemma RatioFloors(w: int, d: int, w': int, d': int)
    requires d > 0 && d' > 0 && w * d' <= w' * d
    ensures Floor(w * WAD, d) <= Floor(w' * WAD, d')
  {
    var f := Floor(w * WAD, d);
    FloorBounds(w * WAD, d);
    MulMono(f * d, w * WAD, d');
    MulMono(w * d', w' * d, WAD);
    assert (f * d) * d' == (f * d') * d;
    assert (w * WAD) * d' == WAD * (w * d') && WAD * (w' * d) == (w' * WAD) * d;
    CancelLe(f * d', w' * WAD, d);
    FloorGe(f, w' * WAD, d');
  }

  lemma RatioHalfUps(w: int, c: int, w': int, c': int)
    requires c > 0 && c' > 0 && w * c' <= w' * c
    ensures HalfUp(w * WAD, c) <= HalfUp(w' * WAD, c')
  {
    var q := HalfUp(w * WAD, c);
    HalfUpGe(q, w * WAD, c);
    MulMono(2 * q * c, 2 * (w * WAD) + c, c');
    MulMono(w * c', w' * c, 2 * WAD);
    assert (2 * q * c) * c' == (2 * q * c') * c;
    assert (2 * (w * WAD) + c) * c' == (2 * WAD) * (w * c') + c' * c;
    assert (2 * (w' * WAD) + c') * c == (2 * WAD) * (w' * c) + c' * c;
    CancelLe(2 * q * c', 2 * (w' * WAD) + c', c);
    HalfUpGe(q, w' * WAD, c');
  }

  // ----- splitting a close on one set of terms

  /** What does not change along a chain: the mix's configured bonus, and the curve. */
  datatype Terms = Terms(raw: int, curve: Curve)

  /** Each slice is quoted on these terms, with the bounds its own book derives. */
  ghost predicate OnTerms(b: Book, slices: seq<Slice>, terms: Terms)
    decreases |slices|
  {
    slices != [] ==>
      && b.collateral > 0 && BonusFor(b, slices[0]).Ok? && slices[0].curve == terms.curve
      && BoundsOf(HalfUp(b.weighted * WAD, b.collateral), terms.raw) == Ok(slices[0].bounds)
      && OnTerms(After(b, slices[0].repay, BonusFor(b, slices[0]).value), slices[1..], terms)
  }

  /** The bonus the curve asks for, before the cap. */
  function CurveBonus(b: Book, slice: Slice): int
    requires b.debt > 0
  {
    var r := LinearBonus(Floor(b.weighted * WAD, b.debt), slice.bounds, slice.curve);
    if r.Ok? then r.value else 0
  }

  /** A book quoted for a slice on the terms. */
  predicate Quoted(b: Book, slice: Slice, terms: Terms) {
    && Covered(b) && BonusFor(b, slice).Ok? && slice.curve == terms.curve
    && BoundsOf(HalfUp(b.weighted * WAD, b.collateral), terms.raw) == Ok(slice.bounds)
  }

  lemma FirstQuote(b: Book, slice: Slice, terms: Terms)
    requires Quoted(b, slice, terms) && 0 <= terms.raw
    ensures LinearBonus(Floor(b.weighted * WAD, b.debt), slice.bounds, slice.curve).Ok?
    ensures var bonus := BonusFor(b, slice).value;
      && 0 <= bonus <= CurveBonus(b, slice) && bonus <= Max(CapOf(b), 0)
      && (bonus == Max(CapOf(b), 0) || bonus == CurveBonus(b, slice))
  {
    var q, hf := HalfUp(b.weighted * WAD, b.collateral), Floor(b.weighted * WAD, b.debt);
    MaxBonusFalls(q, q);
    FloorNonNeg(b.weighted * WAD, b.debt);
    FloorNonNeg(hf * BPS, q);
    QuoteAtMostCap(b, slice.bounds, slice.curve);
    QuoteAtMostCurve(SnapshotOf(b).value, slice.bounds, slice.curve, CapOf(b));
  }

  /** Below the cap the next slice is not asked a larger bonus. */
  lemma NextCurveBonus(b: Book, slice: Slice, next: Book, later: Slice, terms: Terms)
    requires Quoted(b, slice, terms) && Quoted(next, later, terms) && 0 <= terms.raw && 0 < slice.repay
    requires Liquidatable(b) && BonusFor(b, slice).value < Max(CapOf(b), 0) && next == After(b, slice.repay, BonusFor(b, slice).value)
    ensures CurveBonus(next, later) <= CurveBonus(b, slice)
  {
    BelowCapKeepsHealth(b, slice.repay, BonusFor(b, slice).value);
    RatioFloors(b.weighted, b.debt, next.weighted, next.debt);
    RatioHalfUps(b.weighted, b.collateral, next.weighted, next.collateral);
    FirstQuote(b, slice, terms);
    FirstQuote(next, later, terms);
    BonusFallsOnTerms(Floor(b.weighted * WAD, b.debt), Floor(next.weighted * WAD, next.debt),
                      HalfUp(b.weighted * WAD, b.collateral), HalfUp(next.weighted * WAD, next.collateral),
                      terms.raw, terms.curve);
  }

  lemma SliceRate(repay: int, bonus: int, top: int)
    requires 0 <= repay && bonus <= top
    ensures AtRate(Seizure(repay, bonus), repay, top)
  {
    FloorBounds(repay * (BPS + bonus), BPS);
    MulMono(10 * (BPS + bonus), 10 * (BPS + top) + 11, repay);
    assert (10 * (BPS + bonus)) * repay == 10 * (repay * (BPS + bonus));
  }

  /** `seized` collateral for `repaid` debt, within eleven tenths of a BPS of the rate `top`. */
  predicate AtRate(seized: int, repaid: int, top: int) {
    0 <= repaid && 10 * (seized * BPS) <= repaid * (10 * (BPS + top) + 11)
  }

  lemma LowerRate(seized: int, repaid: int, rate: int, top: int)
    requires AtRate(seized, repaid, rate) && rate <= top
    ensures AtRate(seized, repaid, top)
  {
    MulMono(10 * (BPS + rate) + 11, 10 * (BPS + top) + 11, repaid);
  }

  /** While slices are quoted below the cap each is paid at most the first rate; from the first slice
      at the cap on, the rest of the chain is near that slice's rate. */
  lemma {:induction false} ChainWithin(b: Book, slices: seq<Slice>, terms: Terms, top: int)
    requires slices != [] && Feasible(b, slices) && OnTerms(b, slices, terms) && 0 <= terms.raw
    requires CurveBonus(b, slices[0]) <= top
    ensures AtRate(b.collateral - Final(b, slices).collateral, b.debt - Final(b, slices).debt, top)
    decreases |slices|
  {
    var slice, rest, bonus := slices[0], slices[1..], BonusFor(b, slices[0]).value;
    var next, end := After(b, slice.repay, bonus), Final(b, slices);
    FirstQuote(b, slice, terms);
    if bonus == Max(CapOf(b), 0) {
      ChainFromCap(b, slices);
      LowerRate(b.collateral - end.collateral, b.debt - end.debt, bonus, top);
    } else {
      SliceRate(slice.repay, bonus, top);
      if rest != [] {
        NextCurveBonus(b, slice, next, rest[0], terms);
        ChainWithin(next, rest, terms, top);
        AddRates(b.collateral - next.collateral, next.collateral - end.collateral, slice.repay, next.debt - end.debt, top);
      }
    }
  }

  lemma AddRates(first: int, rest: int, repay: int, repaid: int, top: int)
    requires AtRate(first, repay, top) && AtRate(rest, repaid, top)
    ensures AtRate(first + rest, repay + repaid, top)
  {
    var k := 10 * (BPS + top) + 11;
    assert (repay + repaid) * k == repay * k + repaid * k;
  }

  lemma ChainAtFirstRate(b: Book, slices: seq<Slice>, terms: Terms)
    requires slices != [] && Feasible(b, slices) && OnTerms(b, slices, terms) && 0 <= terms.raw
    ensures AtRate(b.collateral - Final(b, slices).collateral, b.debt - Final(b, slices).debt, BonusFor(b, slices[0]).value)
  {
    FirstQuote(b, slices[0], terms);
    if BonusFor(b, slices[0]).value == Max(CapOf(b), 0) {
      ChainFromCap(b, slices);
    } else {
      ChainWithin(b, slices, terms, BonusFor(b, slices[0]).value);
    }
  }

  /** A chain of partials, each quoted afresh on the book the last one left, seizes at most what one
      close of the summed repayment at the first quote seizes, plus two BPS of it and one raw unit. */
  lemma ChainNeverOutSeizesOneClose(b: Book, slices: seq<Slice>, terms: Terms)
    requires slices != [] && Feasible(b, slices) && OnTerms(b, slices, terms) && 0 <= terms.raw
    ensures var end := Final(b, slices);
      var repaid := b.debt - end.debt;
      b.collateral - end.collateral <= Seizure(repaid, BonusFor(b, slices[0]).value) + 2 * repaid / BPS + 1
  {
    var end := Final(b, slices);
    ChainAtFirstRate(b, slices, terms);
    CloseUnits(b.collateral - end.collateral, b.debt - end.debt, BonusFor(b, slices[0]).value);
  }

  lemma CloseUnits(seized: int, repaid: int, bonus: int)
    requires AtRate(seized, repaid, bonus)
    ensures seized <= Seizure(repaid, bonus) + 2 * repaid / BPS + 1
  {
    FloorBounds(repaid * (BPS + bonus), BPS);
    assert repaid * (10 * (BPS + bonus) + 11) == 10 * (repaid * (BPS + bonus)) + 11 * repaid;
  }

  // ----- the insolvent branch

  lemma OnePlusExact(bonus: int)
    requires 0 <= bonus && OnePlus(bonus).Ok?
    ensures OnePlus(bonus).value == (BPS + bonus) * (WAD / BPS)
  {
    HalfUpUnique(bonus * (WAD / BPS), bonus * WAD, BPS);
  }

  lemma BackedSeizure(backed: int, repay: int, bonus: int, collateral: int)
    requires 0 <= bonus && repay <= backed == Floor(collateral * WAD, (BPS + bonus) * (WAD / BPS))
    ensures Seizure(repay, bonus) <= collateral
  {
    FloorBounds(collateral * WAD, (BPS + bonus) * (WAD / BPS));
    assert backed * ((BPS + bonus) * (WAD / BPS)) == (backed * (BPS + bonus)) * (WAD / BPS);
    MulMono(repay, backed, BPS + bonus);
    FloorMono(repay * (BPS + bonus), collateral * BPS, BPS);
    FloorUnique(collateral, collateral * BPS, BPS);
  }

  /** A book whose collateral is below its debt. */
  predicate Insolvent(b: Book) {
    0 < b.weighted <= b.collateral < b.debt && HalfUp(b.weighted * WAD, b.collateral) > 0
  }

  function QuoteFor(b: Book, slice: Slice): Result<Quote> {
    var s :- SnapshotOf(b);
    Estimate(s, slice.bounds, slice.curve)
  }

  /** Each slice is quoted afresh, pays at most its own quote, and leaves collateral for the next. */
  ghost predicate Eroding(b: Book, slices: seq<Slice>)
    decreases |slices|
  {
    slices != [] ==>
      && b.collateral > 0 && QuoteFor(b, slices[0]).Ok? && 0 < slices[0].repay <= QuoteFor(b, slices[0]).value.ideal
      && Eroding(After(b, slices[0].repay, QuoteFor(b, slices[0]).value.bonus), slices[1..])
  }

  ghost function Eroded(b: Book, slices: seq<Slice>): Book
    requires Eroding(b, slices)
    decreases |slices|
  {
    if slices == [] then b
    else Eroded(After(b, slices[0].repay, QuoteFor(b, slices[0]).value.bonus), slices[1..])
  }

  /** Below full coverage the quote is the base bonus on a backed repayment. */
  lemma InsolventQuote(b: Book, slice: Slice)
    requires Insolvent(b) && QuoteFor(b, slice).Ok? && 0 <= slice.bounds.base
    ensures var quote := QuoteFor(b, slice).value;
      && quote.bonus == slice.bounds.base && quote.ideal < b.debt
      && forall repay :: repay <= quote.ideal ==> Seizure(repay, quote.bonus) <= b.collateral
  {
    var base := slice.bounds.base;
    FloorNonNeg(b.weighted * WAD, b.debt);
    FloorGe(WAD, b.weighted * WAD, b.debt);
    OnePlusExact(base);
    var backed := Floor(b.collateral * WAD, OnePlus(base).value);
    forall repay | repay <= backed ensures Seizure(repay, base) <= b.collateral {
      BackedSeizure(backed, repay, base, b.collateral);
    }
    FloorBounds(b.collateral * WAD, OnePlus(base).value);
    BackedAtMost(b.collateral, backed, OnePlus(base).value);
  }

  lemma BackedAtMost(collateral: int, backed: int, onePlus: int)
    requires collateral >= 0 && onePlus >= WAD && backed * onePlus <= collateral * WAD
    ensures backed <= collateral
  {
    if backed > collateral { MulMono(collateral + 1, backed, onePlus); MulMono(WAD, onePlus, collateral + 1); }
  }

  /** A slice at a nonnegative bonus leaves an insolvent book insolvent, with no smaller a proportion. */
  lemma ErosionKeeps(b: Book, repay: int, bonus: int)
    requires Insolvent(b) && 0 <= repay && 0 <= bonus && Seizure(repay, bonus) < b.collateral
    ensures Insolvent(After(b, repay, bonus))
    ensures HalfUp(b.weighted * WAD, b.collateral)
         <= HalfUp(After(b, repay, bonus).weighted * WAD, After(b, repay, bonus).collateral)
  {
    var seize, out, next := Seizure(repay, bonus), Floor(Seizure(repay, bonus) * b.weighted, b.collateral), After(b, repay, bonus);
    MulMono(BPS, BPS + bonus, repay);
    FloorGe(repay, repay * (BPS + bonus), BPS);
    FloorBounds(seize * b.weighted, b.collateral);
    SharesOut(b.collateral, b.weighted, seize, out);
    Removed(b.weighted, b.collateral, out, seize);
    RatioHalfUps(b.weighted, b.collateral, next.weighted, next.collateral);
  }

  lemma SharesOut(c: int, w: int, seize: int, out: int)
    requires 0 < w <= c && 0 <= seize < c && out * c <= seize * w < out * c + c
    ensures out < w && w - out <= c - seize
  {
    MulMono(seize + 1, c, w);
    assert (seize + 1) * w == seize * w + w;
    CancelLt(out, w, c);
    MulMono(seize, c, c - w);
    assert seize * (c - w) == seize * c - seize * w;
    assert c * (c - w) == c * c - c * w;
    assert (seize - out - 1) * c == seize * c - out * c - c;
    CancelLt(seize - out - 1, c - w, c);
  }

  /** Two re-quoted parts against one close at the first, no smaller, bonus. */
  lemma TwoParts(repay: int, repaid: int, bonus: int, bonus': int)
    requires 0 <= repaid && bonus' <= bonus
    ensures Seizure(repay, bonus) + Seizure(repaid, bonus') <= Seizure(repay + repaid, bonus)
  {
    MulMono(BPS + bonus', BPS + bonus, repaid);
    FloorMono(repaid * (BPS + bonus'), repaid * (BPS + bonus), BPS);
    assert (repay + repaid) * (BPS + bonus) == repay * (BPS + bonus) + repaid * (BPS + bonus);
    FloorSplit(repay * (BPS + bonus), repaid * (BPS + bonus), BPS);
  }

  lemma SeizureNonNeg(repay: int, bonus: int)
    requires 0 <= repay && 0 <= bonus
    ensures 0 <= Seizure(repay, bonus)
  {
    MulNonNeg(repay, BPS + bonus);
    FloorNonNeg(repay * (BPS + bonus), BPS);
  }

  /** On an insolvent book and one set of terms. */
  predicate BaseQuoted(b: Book, slice: Slice, terms: Terms) {
    && Insolvent(b) && QuoteFor(b, slice).Ok?
    && BoundsOf(HalfUp(b.weighted * WAD, b.collateral), terms.raw) == Ok(slice.bounds)
  }

  lemma BaseQuote(b: Book, slice: Slice, terms: Terms)
    requires BaseQuoted(b, slice, terms) && 0 <= terms.raw && slice.repay <= QuoteFor(b, slice).value.ideal
    ensures var bonus := QuoteFor(b, slice).value.bonus;
      0 <= bonus == slice.bounds.base && slice.repay < b.debt && Seizure(slice.repay, bonus) <= b.collateral
  {
    MaxBonusFalls(HalfUp(b.weighted * WAD, b.collateral), HalfUp(b.weighted * WAD, b.collateral));
    InsolventQuote(b, slice);
  }

  /** The next quote is in the base branch again, at no larger a bonus. */
  lemma NextBaseQuote(b: Book, slice: Slice, next: Book, later: Slice, terms: Terms)
    requires BaseQuoted(b, slice, terms) && 0 <= terms.raw && 0 < slice.repay <= QuoteFor(b, slice).value.ideal
    requires next == After(b, slice.repay, QuoteFor(b, slice).value.bonus) && next.collateral > 0
    requires BoundsOf(HalfUp(next.weighted * WAD, next.collateral), terms.raw) == Ok(later.bounds) && QuoteFor(next, later).Ok?
    ensures BaseQuoted(next, later, terms) && QuoteFor(next, later).value.bonus <= QuoteFor(b, slice).value.bonus
  {
    BaseQuote(b, slice, terms);
    ErosionKeeps(b, slice.repay, QuoteFor(b, slice).value.bonus);
    MaxBonusFalls(HalfUp(b.weighted * WAD, b.collateral), HalfUp(next.weighted * WAD, next.collateral));
    InsolventQuote(next, later);
  }

  /** On an insolvent book no chain of re-quoted partials seizes more than one close of the summed
      repayment at the first quote, nor than the collateral: every quote stays in the base branch. */
  lemma {:induction false} InsolventChainIsBacked(b: Book, slices: seq<Slice>, terms: Terms)
    requires slices != [] && Insolvent(b) && Eroding(b, slices) && OnErodingTerms(b, slices, terms) && 0 <= terms.raw
    ensures var end := Eroded(b, slices);
      && 0 <= end.collateral <= b.collateral && end.debt <= b.debt
      && b.collateral - end.collateral <= Seizure(b.debt - end.debt, QuoteFor(b, slices[0]).value.bonus)
    decreases |slices|
  {
    var slice, rest, bonus := slices[0], slices[1..], QuoteFor(b, slices[0]).value.bonus;
    var next, end := After(b, slice.repay, bonus), Eroded(b, slices);
    BaseQuote(b, slice, terms);
    SeizureNonNeg(slice.repay, bonus);
    if rest != [] {
      NextBaseQuote(b, slice, next, rest[0], terms);
      InsolventChainIsBacked(next, rest, terms);
      TwoParts(slice.repay, next.debt - end.debt, bonus, QuoteFor(next, rest[0]).value.bonus);
    }
  }

  ghost predicate OnErodingTerms(b: Book, slices: seq<Slice>, terms: Terms)
    requires Eroding(b, slices)
    decreases |slices|
  {
    slices != [] ==>
      && slices[0].curve == terms.curve
      && BoundsOf(HalfUp(b.weighted * WAD, b.collateral), terms.raw) == Ok(slices[0].bounds)
      && OnErodingTerms(After(b, slices[0].repay, QuoteFor(b, slices[0]).value.bonus), slices[1..], terms)
  }

  // ----- chains that cross into insolvency

  /** A covered book that pays a bonus covers its debt by nearly a BPS. */
  lemma CoveredByABps(b: Book)
    requires Liquidatable(b) && CapOf(b) >= 1
    ensures 999_999 * b.debt <= 1_000_000 * (BPS * (b.collateral - b.debt))
  {
    var q, hf := HalfUp(b.weighted * WAD, b.collateral), Floor(b.weighted * WAD, b.debt);
    ProportionBounds(b);
    CoverageBounded(b);
    FloorBounds(b.weighted * WAD, b.debt);
    FloorGe(BPS + 1, hf * BPS, q);
    CoveredScalars(b.collateral, b.debt, q, hf, b.weighted * WAD);
  }

  lemma CoveredScalars(c: int, d: int, q: int, hf: int, w: int)
    requires c > 0 && d > 0 && q > 0 && (BPS + 1) * q <= hf * BPS && hf * d <= w && 2 * w <= 2 * q * c + c && SLACK * c <= 2 * q * d
    ensures 999_999 * d <= 1_000_000 * (BPS * (c - d))
  {
    MulMono((BPS + 1) * q, hf * BPS, 2 * d);
    CoveredIdentities(c, d, q, hf);
    CancelLe(999_999 * d, 1_000_000 * (BPS * (c - d)), 2 * q);
  }

  lemma CoveredIdentities(c: int, d: int, q: int, hf: int)
    ensures (2 * d) * ((BPS + 1) * q) == (BPS + 1) * (2 * q * d)
    ensures (2 * d) * (hf * BPS) == 2 * BPS * (hf * d)
    ensures (999_999 * d) * (2 * q) == 999_999 * (2 * q * d)
    ensures (1_000_000 * (BPS * (c - d))) * (2 * q) == 1_000_000 * BPS * (2 * q * c) - 1_000_000 * BPS * (2 * q * d)
  {
  }

  /** A partial can leave a covered book insolvent only by leaving less than a millionth of the
      repayment as debt. */
  lemma CrossingIsSmall(b: Book, repay: int, bonus: int)
    requires Liquidatable(b) && 0 < repay <= b.debt && bonus <= Max(CapOf(b), 0)
    requires After(b, repay, bonus).collateral < After(b, repay, bonus).debt
    ensures 999_999 * After(b, repay, bonus).debt <= repay
  {
    var next := After(b, repay, bonus);
    if CapOf(b) <= 0 {
      FloorBounds(repay * (BPS + bonus), BPS);
      MulMono(BPS + bonus, BPS, repay);
    } else {
      CoveredByABps(b);
      PartialKeepsCoverage(b, repay, bonus);
      CrossingScalars(b.collateral, b.debt, next.collateral, next.debt, repay);
    }
  }

  lemma CrossingScalars(c: int, d: int, c': int, d': int, repay: int)
    requires d > 0 && d' >= 0 && c' < d' && 999_999 * d <= 1_000_000 * (BPS * (c - d))
    requires SLACK * (c * d') <= SLACK * (c' * d) + repay * d
    ensures 999_999 * d' <= repay
  {
    MulMono(c', d', d);
    MulMono(999_999 * d, 1_000_000 * (BPS * (c - d)), d');
    assert (c - d) * d' == c * d' - d * d';
    assert d' * (1_000_000 * (BPS * (c - d))) == SLACK * ((c - d) * d');
    assert d' * (999_999 * d) == (999_999 * d') * d;
    CancelLe(999_999 * d', repay, d);
  }

  lemma {:induction false} ChainCrossingIsSmall(b: Book, slices: seq<Slice>)
    requires slices != [] && Feasible(b, slices) && Final(b, slices).collateral < Final(b, slices).debt
    ensures 999_999 * Final(b, slices).debt <= b.debt - Final(b, slices).debt
    decreases |slices|
  {
    var slice, rest, bonus := slices[0], slices[1..], BonusFor(b, slices[0]).value;
    QuoteAtMostCap(b, slice.bounds, slice.curve);
    if rest == [] {
      CrossingIsSmall(b, slice.repay, bonus);
    } else {
      ChainCrossingIsSmall(After(b, slice.repay, bonus), rest);
    }
  }

  /** The same bound for a chain whose covered part leaves an insolvent book that is then liquidated on. */
  lemma CrossingChainNeverOutSeizesOneClose(b: Book, slices: seq<Slice>, rest: seq<Slice>, terms: Terms)
    requires slices != [] && Feasible(b, slices) && OnTerms(b, slices, terms) && 0 <= terms.raw
    requires var middle := Final(b, slices);
      rest != [] && Insolvent(middle) && Eroding(middle, rest) && OnErodingTerms(middle, rest, terms)
    ensures var end := Eroded(Final(b, slices), rest);
      var repaid := b.debt - end.debt;
      b.collateral - end.collateral <= Seizure(repaid, BonusFor(b, slices[0]).value) + 2 * repaid / BPS + 1
  {
    var middle, bonus := Final(b, slices), BonusFor(b, slices[0]).value;
    var end := Eroded(middle, rest);
    ChainAtFirstRate(b, slices, terms);
    ChainCrossingIsSmall(b, slices);
    InsolventChainIsBacked(middle, rest, terms);
    FirstQuote(b, slices[0], terms);
    CrossingUnits(b.collateral - middle.collateral, b.debt - middle.debt, middle.collateral - end.collateral,
                  middle.debt - end.debt, middle.debt, bonus, b.debt - end.debt);
  }

  lemma CrossingUnits(seized: int, repaid: int, more: int, later: int, left: int, bonus: int, all: int)
    requires AtRate(seized, repaid, bonus) && 0 <= bonus && 0 <= later && more <= left && 999_999 * left <= repaid
    requires all == repaid + later
    ensures seized + more <= Seizure(all, bonus) + 2 * all / BPS + 1
  {
    MulNonNeg(later, bonus);
    assert (repaid + later) * (BPS + bonus) == repaid * (BPS + bonus) + later * BPS + later * bonus;
    assert repaid * (10 * (BPS + bonus) + 11) == 10 * (repaid * (BPS + bonus)) + 11 * repaid;
    FloorBounds((repaid + later) * (BPS + bonus), BPS);
  }
}
