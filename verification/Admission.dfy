/** When each ledger leg is admitted: its guards as inequalities between exact products, in both
    directions, and the values that have to fit the machine word. */
module Admission {
  import opened Numbers
  import opened Rounding
  import opened Scaling
  import opened Accrual
  import opened Ledger
  import opened LegEffects

  /** Suppliers' and protocol's claims in raw rays, rounded down. */
  function ClaimsRay(s: State): int {
    Floor(s.supplied * s.supplyIndex, RAY)
  }

  /** Borrowers' debt in raw rays, rounded up. */
  function DebtRay(s: State): int {
    Ceil(s.borrowed * s.borrowIndex, RAY)
  }

  lemma RaysNonNeg(s: State)
    requires s.Valid()
    ensures 0 <= ClaimsRay(s) && 0 <= DebtRay(s)
  {
    MulNonNeg(s.supplied, s.supplyIndex);
    MulNonNeg(s.borrowed, s.borrowIndex);
    FloorNonNeg(s.supplied * s.supplyIndex, RAY);
    CeilNonNeg(s.borrowed * s.borrowIndex, RAY);
  }

  // ----- the guards

  /** Debt over claims is at most the maximum utilisation, where that is below one. */
  predicate WithinUtilization(p: Params, s: State) {
    s.supplied == 0 || p.maxUtilization >= RAY
    || (FitsI128(DebtRay(s)) && (DebtRay(s) == 0 ||
        (FitsI128(ClaimsRay(s)) && 0 < ClaimsRay(s) && DebtRay(s) * RAY <= p.maxUtilization * ClaimsRay(s))))
  }

  lemma UtilizationIff(p: Params, s: State)
    requires s.Valid()
    ensures CheckUtilization(p, s).Ok? <==> WithinUtilization(p, s)
  {
    RaysNonNeg(s);
    var debt, claims := DebtRay(s), ClaimsRay(s);
    if claims > 0 {
      CeilLe(p.maxUtilization, debt * RAY, claims);
      MulNonNeg(debt, RAY);
      CeilNonNeg(debt * RAY, claims);
    }
  }

  /** Two percent of the supply, in asset units, stays in cash after drawing. */
  predicate WithinBuffer(p: Params, s: State, draw: int)
    requires p.Valid()
  {
    FitsI128(ClaimsRay(s)) && LIQUIDATION_BUFFER_BPS * Worth(s.supplied, s.supplyIndex, p.Unit()) <= BPS * (s.cash - draw)
  }

  lemma BufferIff(p: Params, s: State, draw: int)
    requires p.Valid() && s.Valid() && draw <= I128_MAX
    ensures CheckBuffer(p, s, draw).Ok? <==> WithinBuffer(p, s, draw)
  {
    RaysNonNeg(s);
    if FitsI128(ClaimsRay(s)) {
      var worth := Worth(s.supplied, s.supplyIndex, p.Unit());
      UnscaleFloorIs(s.supplied, s.supplyIndex, p.decimals);
      WorthBelowClaims(p, s);
      CeilLe(s.cash - draw, worth * LIQUIDATION_BUFFER_BPS, BPS);
      CeilLe(worth, worth * LIQUIDATION_BUFFER_BPS, BPS);
      CeilNonNeg(worth * LIQUIDATION_BUFFER_BPS, BPS);
    }
  }

  lemma WorthBelowClaims(p: Params, s: State)
    requires p.Valid() && s.Valid()
    ensures 0 <= Worth(s.supplied, s.supplyIndex, p.Unit()) <= ClaimsRay(s)
  {
    MulNonNeg(s.supplied, s.supplyIndex);
    FloorFloor(s.supplied * s.supplyIndex, RAY, Scale(p.decimals));
    RaysNonNeg(s);
    FloorNonNeg(ClaimsRay(s), Scale(p.decimals));
    FloorBounds(ClaimsRay(s), Scale(p.decimals));
    MulMono(1, Scale(p.decimals), Floor(ClaimsRay(s), Scale(p.decimals)));
  }

  /** Cash and ceiled debt cover the floored claims to within one asset unit. */
  predicate Backed(p: Params, s: State)
    requires p.Valid()
  {
    FitsI128(ClaimsRay(s)) && FitsI128(DebtRay(s)) && ClaimsRay(s) < DebtRay(s) + (s.cash + 1) * Scale(p.decimals)
  }

  lemma BackedIff(p: Params, s: State)
    requires p.Valid() && s.Valid()
    ensures BackingShortfall(p, s) == Ok(0) <==> Backed(p, s)
  {
    RaysNonNeg(s);
    var uncovered, k := ClaimsRay(s) - DebtRay(s), Scale(p.decimals);
    MulMono(1, s.cash + 1, k);
    if uncovered > 0 {
      FloorGe(s.cash + 1, uncovered, k);
      FloorNonNeg(uncovered, k);
    }
  }

  // ----- the legs

  predicate SupplyAdmitted(p: Params, s: State, position: int, amount: int)
    requires p.Valid() && s.Valid()
  {
    var shares := SharesWithin(amount, s.supplyIndex, p.Unit());
    && 0 <= amount && 0 <= position && Backed(p, s) && FitsI128(amount * Scale(p.decimals))
    && (amount == 0 || 0 < shares)
    && shares <= I128_MAX - Max(position, s.supplied) && amount <= I128_MAX - s.cash
  }

  lemma SupplyIff(p: Params, s: State, position: int, amount: int)
    requires p.Valid() && s.Valid()
    ensures SupplyLeg(p, s, position, amount).Ok? <==> SupplyAdmitted(p, s, position, amount)
  {
    BackedIff(p, s);
    if 0 <= amount {
      SharesNonNeg(amount, s.supplyIndex, p.Unit());
      Regroup(amount, Scale(p.decimals));
    }
  }

  predicate MintAdmitted(p: Params, s: State, position: int, amount: int)
    requires p.Valid() && s.Valid()
  {
    var shares := SharesFor(amount, s.borrowIndex, p.Unit());
    && 0 < amount <= s.cash && WithinBuffer(p, s, amount) && FitsI128(amount * Scale(p.decimals))
    && shares <= I128_MAX - Max(position, s.borrowed)
    && WithinUtilization(p, s.(borrowed := s.borrowed + shares))
  }

  lemma MintIff(p: Params, s: State, position: int, amount: int)
    requires p.Valid() && s.Valid() && position >= 0
    ensures MintDebt(p, s, position, amount).Ok? <==> MintAdmitted(p, s, position, amount)
  {
    if 0 < amount <= s.cash {
      var shares := SharesFor(amount, s.borrowIndex, p.Unit());
      BufferIff(p, s, amount);
      SharesNonNeg(amount, s.borrowIndex, p.Unit());
      PositiveCeil(amount, s.borrowIndex, p.Unit());
      Regroup(amount, Scale(p.decimals));
      if shares <= I128_MAX - s.borrowed { UtilizationIff(p, s.(borrowed := s.borrowed + shares)); }
    }
  }

  lemma PositiveCeil(amount: int, i: int, m: int)
    requires amount > 0 && i > 0 && m > 0
    ensures SharesFor(amount, i, m) > 0
  {
    MulMono(1, amount, m);
    CeilLe(0, amount * m, i);
  }

  lemma BorrowIff(p: Params, s: State, position: int, amount: int)
    requires p.Valid() && s.Valid()
    ensures BorrowLeg(p, s, position, amount).Ok? <==> 0 <= position && MintAdmitted(p, s, position, amount)
  {
    if 0 <= position { MintIff(p, s, position, amount); }
    if MintDebt(p, s, position, amount).Ok? && amount >= 0 && position >= 0 { MintKeeps(p, s, position, amount); }
  }

  predicate RepayAdmitted(p: Params, s: State, position: int, amount: int)
    requires p.Valid() && s.Valid()
  {
    var due, shares := Due(position, s.borrowIndex, p.Unit()), SharesWithin(amount, s.borrowIndex, p.Unit());
    && 0 <= amount <= I128_MAX && 0 <= position && FitsI128(Ceil(position * s.borrowIndex, RAY))
    && (if due <= amount then position <= s.borrowed
        else FitsI128(amount * Scale(p.decimals)) && (amount == 0 || 0 < shares) && shares <= s.borrowed)
    && Min(amount, due) <= I128_MAX - s.cash
  }

  lemma RepayIff(p: Params, s: State, position: int, amount: int)
    requires p.Valid() && s.Valid() && amount <= I128_MAX
    ensures RepayLeg(p, s, position, amount).Ok? <==> RepayAdmitted(p, s, position, amount)
  {
    if 0 <= amount && 0 <= position {
      var j := s.borrowIndex;
      MulNonNeg(position, j);
      CeilNonNeg(position * j, p.Unit());
      CeilNonNeg(position * j, RAY);
      UnscaleCeilIs(position, j, p.decimals);
      SharesNonNeg(amount, j, p.Unit());
      DebtGalois(amount, position, j, p.Unit());
      Regroup(amount, Scale(p.decimals));
      if position == 0 { CeilUnique(0, 0, p.Unit()); }
    }
  }

  /** The market a withdrawal leaves before it pays out. */
  function Burned(p: Params, s: State, burned: int, kept: int): State
    requires p.Valid() && s.Valid()
  {
    var minted := FeeMint(p, s.(supplied := s.supplied - burned), kept);
    s.(supplied := s.supplied - burned + minted, revenue := s.revenue + minted)
  }

  predicate WithdrawAdmitted(p: Params, s: State, position: int, amount: int, liquidation: bool, fee: int)
    requires p.Valid() && s.Valid()
  {
    var kept, burned, paid := if liquidation then fee else 0, Burns(p, s, position, amount), Pays(p, s, position, amount);
    && 0 <= fee && 0 <= amount && 0 <= position && FitsI128(HalfUp(position * s.supplyIndex, RAY))
    && (Displayed(position, s.supplyIndex, Scale(p.decimals)) <= amount || FitsI128(amount * Scale(p.decimals)))
    && burned <= s.supplied - s.revenue
    && (kept == 0 || (kept <= paid && FitsI128(fee * Scale(p.decimals))))
    && paid - kept <= s.cash
    && (liquidation || (position == 0 && amount == I128_MAX) || WithinUtilization(p, Burned(p, s, burned, kept)))
    && !(Burned(p, s, burned, kept).supplied == 0 && s.borrowed != 0)
  }

  /** The resolver: representable inputs resolve to the exact burn and payment. */
  lemma ResolveIff(p: Params, s: State, position: int, amount: int)
    requires p.Valid() && s.Valid() && 0 <= amount && 0 <= position && Burns(p, s, position, amount) <= I128_MAX
    ensures ResolveWithdrawal(amount, position, s.supplyIndex, p.decimals).Ok? <==>
      (FitsI128(HalfUp(position * s.supplyIndex, RAY)) &&
       (Displayed(position, s.supplyIndex, Scale(p.decimals)) <= amount || FitsI128(amount * Scale(p.decimals))))
    ensures ResolveWithdrawal(amount, position, s.supplyIndex, p.decimals).Ok? ==>
      ResolveWithdrawal(amount, position, s.supplyIndex, p.decimals).value == Withdrawal(Burns(p, s, position, amount), Pays(p, s, position, amount))
  {
    var i := s.supplyIndex;
    MulNonNeg(position, i);
    FloorNonNeg(position * i, RAY);
    FloorBelowHalfUp(position * i, RAY);
    SharesNonNeg(amount, i, p.Unit());
    Regroup(amount, Scale(p.decimals));
    if FitsI128(HalfUp(position * i, RAY)) {
      UnscaleHalfUpIs(position, i, p.decimals);
      UnscaleFloorIs(position, i, p.decimals);
    }
  }

  lemma FloorBelowHalfUp(n: int, d: int)
    requires d > 0
    ensures Floor(n, d) <= HalfUp(n, d)
  {
    FloorBounds(n, d);
    assert 2 * Floor(n, d) * d == 2 * (Floor(n, d) * d);
    HalfUpGe(Floor(n, d), n, d);
  }

  lemma WithholdIff(p: Params, s: State, gross: int, liquidation: bool, fee: int)
    requires p.Valid() && s.Valid() && 0 <= fee
    ensures var kept := if liquidation then fee else 0;
      && (WithholdFee(p, s, gross, liquidation, fee).Ok? <==> kept == 0 || (kept <= gross && FitsI128(fee * Scale(p.decimals))))
      && (WithholdFee(p, s, gross, liquidation, fee).Ok? ==>
            WithholdFee(p, s, gross, liquidation, fee).value == Withheld(Burned(p, s, 0, kept), gross - kept) && Burned(p, s, 0, kept).Valid())
  {
    var i := s.supplyIndex;
    FloorUnique(0, 0, i);
    if liquidation && fee != 0 && fee <= gross && FitsI128(fee * Scale(p.decimals)) {
      MulNonNeg(fee, Scale(p.decimals));
      FeeSharesWorthAtMostFee(fee * Scale(p.decimals), i, s.supplied);
      AddRevenueEffect(p, s, fee);
    }
  }

  /** What happens after the resolver: the burn, the fee and the guards. */
  lemma AfterBurn(p: Params, s: State, burned: int, paid: int, liquidation: bool, fee: int)
    requires p.Valid() && s.Valid() && 0 <= fee && 0 <= burned <= s.supplied - s.revenue
    ensures BurnSupply(s, burned) == Ok(s.(supplied := s.supplied - burned))
    ensures var kept, withheld := if liquidation then fee else 0, WithholdFee(p, s.(supplied := s.supplied - burned), paid, liquidation, fee);
      && (withheld.Ok? <==> kept == 0 || (kept <= paid && FitsI128(fee * Scale(p.decimals))))
      && (withheld.Ok? ==> && withheld.value == Withheld(Burned(p, s, burned, kept), paid - kept)
                           && (CheckUtilization(p, withheld.value.state).Ok? <==> WithinUtilization(p, Burned(p, s, burned, kept))))
  {
    var kept, less := if liquidation then fee else 0, s.(supplied := s.supplied - burned);
    WithholdIff(p, less, paid, liquidation, fee);
    assert Burned(p, less, 0, kept) == Burned(p, s, burned, kept);
    if WithholdFee(p, less, paid, liquidation, fee).Ok? { UtilizationIff(p, Burned(p, s, burned, kept)); }
  }

  lemma WithdrawNeeds(p: Params, s: State, position: int, amount: int, liquidation: bool, fee: int)
    requires p.Valid() && s.Valid() && WithdrawLeg(p, s, position, amount, liquidation, fee).Ok?
    ensures WithdrawAdmitted(p, s, position, amount, liquidation, fee)
  {
    WithdrawalIs(amount, position, s.supplyIndex, p.decimals);
    WithdrawCovered(amount, position, s.supplyIndex, Scale(p.decimals));
    ResolveIff(p, s, position, amount);
    AfterBurn(p, s, Burns(p, s, position, amount), Pays(p, s, position, amount), liquidation, fee);
  }

  lemma WithdrawSuffices(p: Params, s: State, position: int, amount: int, liquidation: bool, fee: int)
    requires p.Valid() && s.Valid() && WithdrawAdmitted(p, s, position, amount, liquidation, fee)
    ensures WithdrawLeg(p, s, position, amount, liquidation, fee).Ok?
  {
    WithdrawCovered(amount, position, s.supplyIndex, Scale(p.decimals));
    ResolveIff(p, s, position, amount);
    PaidMeansBurned(p, s, position, amount);
    AfterBurn(p, s, Burns(p, s, position, amount), Pays(p, s, position, amount), liquidation, fee);
  }

  lemma WithdrawIff(p: Params, s: State, position: int, amount: int, liquidation: bool, fee: int)
    requires p.Valid() && s.Valid()
    ensures WithdrawLeg(p, s, position, amount, liquidation, fee).Ok? <==> WithdrawAdmitted(p, s, position, amount, liquidation, fee)
  {
    if WithdrawLeg(p, s, position, amount, liquidation, fee).Ok? {
      WithdrawNeeds(p, s, position, amount, liquidation, fee);
    } else if WithdrawAdmitted(p, s, position, amount, liquidation, fee) {
      WithdrawSuffices(p, s, position, amount, liquidation, fee);
    }
  }

  lemma PaidMeansBurned(p: Params, s: State, position: int, amount: int)
    requires p.Valid() && s.Valid() && 0 <= position
    ensures Pays(p, s, position, amount) > 0 ==> Burns(p, s, position, amount) > 0
  {
    if amount > 0 { PositiveCeil(amount, s.supplyIndex, p.Unit()); }
    if position == 0 { FloorUnique(0, 0, p.Unit()); }
  }

  predicate NetSettleAdmitted(p: Params, s: State, amount: int, supplyPosition: int, debtPosition: int)
    requires p.Valid() && s.Valid()
  {
    var i, j, m := s.supplyIndex, s.borrowIndex, p.Unit();
    var worth, due := Worth(supplyPosition, i, m), Due(debtPosition, j, m);
    var settled := Min(Min(amount, worth), due);
    var supply := if settled == worth then supplyPosition else SharesFor(settled, i, m);
    var debt := if settled == due then debtPosition else SharesWithin(settled, j, m);
    && 0 <= amount && 0 <= supplyPosition && 0 <= debtPosition
    && FitsI128(Floor(supplyPosition * i, RAY)) && FitsI128(Ceil(debtPosition * j, RAY))
    && (if settled == 0 then !(s.supplied == 0 && s.borrowed != 0)
        else && (settled == worth == due || FitsI128(settled * Scale(p.decimals)))
             && 0 < debt <= s.borrowed && supply <= s.supplied - s.revenue && !(s.supplied == supply && s.borrowed != debt))
  }

  lemma NetSettleNeeds(p: Params, s: State, amount: int, supplyPosition: int, debtPosition: int)
    requires p.Valid() && s.Valid() && NetSettleLeg(p, s, amount, supplyPosition, debtPosition).Ok?
    ensures NetSettleAdmitted(p, s, amount, supplyPosition, debtPosition)
  {
    NetSettleLegIs(p, s, amount, supplyPosition, debtPosition);
    UnscaleFloorIs(supplyPosition, s.supplyIndex, p.decimals);
    UnscaleCeilIs(debtPosition, s.borrowIndex, p.decimals);
  }

  lemma NetSettleSuffices(p: Params, s: State, amount: int, supplyPosition: int, debtPosition: int)
    requires p.Valid() && s.Valid() && NetSettleAdmitted(p, s, amount, supplyPosition, debtPosition)
    ensures NetSettleLeg(p, s, amount, supplyPosition, debtPosition).Ok?
  {
    var i, j, m := s.supplyIndex, s.borrowIndex, p.Unit();
    var worth, due := Worth(supplyPosition, i, m), Due(debtPosition, j, m);
    var settled := Min(Min(amount, worth), due);
    MulNonNeg(supplyPosition, i);
    MulNonNeg(debtPosition, j);
    FloorNonNeg(supplyPosition * i, m);
    FloorNonNeg(supplyPosition * i, RAY);
    CeilNonNeg(debtPosition * j, m);
    UnscaleFloorIs(supplyPosition, i, p.decimals);
    UnscaleCeilIs(debtPosition, j, p.decimals);
    SharesNonNeg(settled, i, m);
    SharesNonNeg(settled, j, m);
    SupplyGalois(settled, supplyPosition, i, m);
    DebtGalois(settled, debtPosition, j, m);
    Regroup(settled, Scale(p.decimals));
    if settled > 0 {
      PositiveCeil(settled, i, m);
      if supplyPosition == 0 { FloorUnique(0, 0, m); }
    }
  }

  lemma NetSettleIff(p: Params, s: State, amount: int, supplyPosition: int, debtPosition: int)
    requires p.Valid() && s.Valid()
    ensures NetSettleLeg(p, s, amount, supplyPosition, debtPosition).Ok? <==> NetSettleAdmitted(p, s, amount, supplyPosition, debtPosition)
  {
    if NetSettleLeg(p, s, amount, supplyPosition, debtPosition).Ok? {
      NetSettleNeeds(p, s, amount, supplyPosition, debtPosition);
    } else if NetSettleAdmitted(p, s, amount, supplyPosition, debtPosition) {
      NetSettleSuffices(p, s, amount, supplyPosition, debtPosition);
    }
  }

  lemma FeeIff(bps: int, amount: int)
    requires bps >= 0 && amount >= 0
    ensures FlashFee(bps, amount).Ok? <==> FitsI128(HalfUp(amount * bps, BPS))
  {
    MulNonNeg(amount, bps);
    FloorNonNeg(amount * bps, BPS);
  }

  lemma AddRevenueIff(p: Params, s: State, fee: int)
    requires p.Valid() && s.Valid() && 0 <= fee && FitsI128(fee * Scale(p.decimals))
    ensures AddRevenue(s, fee * Scale(p.decimals)).Ok?
  {
    MulNonNeg(fee, Scale(p.decimals));
    FeeSharesWorthAtMostFee(fee * Scale(p.decimals), s.supplyIndex, s.supplied);
  }

  /** A strategy is admitted as a borrow is, with a charged fee that fits the amount. */
  lemma StrategyIff(p: Params, s: State, position: int, amount: int, chargeFee: bool)
    requires p.Valid() && s.Valid()
    ensures StrategyLeg(p, s, position, amount, chargeFee).Ok? <==>
      && 0 <= position && MintAdmitted(p, s, position, amount)
      && (chargeFee ==> FitsI128(HalfUp(amount * p.flashFeeBps, BPS)) && FlashFee(p.flashFeeBps, amount).value <= amount)
  {
    if 0 <= position && 0 <= amount {
      MintIff(p, s, position, amount);
      FeeIff(p.flashFeeBps, amount);
      FeeNonNeg(p.flashFeeBps, amount, chargeFee && FlashFee(p.flashFeeBps, amount).Ok?);
      if MintDebt(p, s, position, amount).Ok? && (chargeFee ==> FlashFee(p.flashFeeBps, amount).Ok?) {
        var fee := if chargeFee then FlashFee(p.flashFeeBps, amount).value else 0;
        MintKeeps(p, s, position, amount);
        if fee <= amount {
          MulMono(fee, amount, Scale(p.decimals));
          MulNonNeg(fee, Scale(p.decimals));
          AddRevenueIff(p, MintDebt(p, s, position, amount).value.state, fee);
          AddRevenueEffect(p, MintDebt(p, s, position, amount).value.state, fee);
        }
      }
    }
  }

  lemma FlashIff(p: Params, s: State, amount: int)
    requires p.Valid() && s.Valid()
    ensures FlashLeg(p, s, amount).Ok? <==>
      && 0 < amount <= s.cash && p.flashloanable && FitsI128(HalfUp(amount * p.flashFeeBps, BPS))
      && var fee := FlashFee(p.flashFeeBps, amount).value;
         fee <= I128_MAX - s.cash && FitsI128(fee * Scale(p.decimals))
  {
    if 0 < amount <= s.cash {
      FeeIff(p.flashFeeBps, amount);
      FeeNonNeg(p.flashFeeBps, amount, FlashFee(p.flashFeeBps, amount).Ok?);
      if FlashFee(p.flashFeeBps, amount).Ok? && FitsI128(FlashFee(p.flashFeeBps, amount).value * Scale(p.decimals)) {
        AddRevenueIff(p, s, FlashFee(p.flashFeeBps, amount).value);
        AddRevenueEffect(p, s, FlashFee(p.flashFeeBps, amount).value);
      }
    }
  }

  /** The market a claim leaves before it pays out. */
  function Claimed(p: Params, s: State): State
    requires p.Valid() && s.Valid()
  {
    var worth := Worth(s.revenue, s.supplyIndex, p.Unit());
    var paid := Min(s.cash, worth);
    var burned := if paid <= 0 then 0 else if paid == worth then s.revenue else Ceil(s.revenue * paid, worth);
    s.(supplied := s.supplied - burned, revenue := s.revenue - burned)
  }

  lemma ClaimIff(p: Params, s: State)
    requires p.Valid() && s.Valid()
    ensures ClaimLeg(p, s).Ok? <==>
      && FitsI128(Floor(s.revenue * s.supplyIndex, RAY)) && WithinUtilization(p, Claimed(p, s))
      && !(Claimed(p, s).supplied == 0 && s.borrowed != 0)
  {
    var i, m := s.supplyIndex, p.Unit();
    MulNonNeg(s.revenue, i);
    FloorNonNeg(s.revenue * i, RAY);
    FloorNonNeg(s.revenue * i, m);
    if FitsI128(Floor(s.revenue * i, RAY)) {
      UnscaleFloorIs(s.revenue, i, p.decimals);
      ClaimedIs(p, s);
      UtilizationIff(p, Claimed(p, s));
    }
  }

  lemma ClaimedIs(p: Params, s: State)
    requires p.Valid() && s.Valid() && UnscaleFloor(s.revenue, s.supplyIndex, p.decimals) == Ok(Worth(s.revenue, s.supplyIndex, p.Unit()))
    requires Worth(s.revenue, s.supplyIndex, p.Unit()) >= 0
    ensures Claimed(p, s).Valid()
    ensures BurnClaimable(p, s) == Ok(Withheld(Claimed(p, s), Min(s.cash, Worth(s.revenue, s.supplyIndex, p.Unit()))))
  {
    var worth := Worth(s.revenue, s.supplyIndex, p.Unit());
    var paid := Min(s.cash, worth);
    if s.revenue == 0 { FloorUnique(0, 0, p.Unit()); }
    if 0 < paid < worth {
      MulMono(paid, worth, s.revenue);
      CeilLe(s.revenue, s.revenue * paid, worth);
      MulMono(1, s.revenue, paid);
      CeilLe(0, s.revenue * paid, worth);
    }
  }

  lemma RecapitalizeIff(p: Params, s: State, amount: int)
    requires p.Valid() && s.Valid()
    ensures RecapitalizeLeg(p, s, amount).Ok? <==>
      && 0 <= amount && FitsI128(ClaimsRay(s)) && FitsI128(DebtRay(s))
      && Min(amount, BackingShortfall(p, s).value) <= I128_MAX - s.cash
  {
    RaysNonNeg(s);
  }

  lemma SeizeDepositIff(s: State, position: int)
    requires s.Valid()
    ensures SeizeDepositLeg(s, position).Ok? <==> 0 <= position <= s.supplied - s.revenue
  {
  }

  lemma SeizeBorrowIff(s: State, position: int)
    requires s.Valid()
    ensures SeizeBorrowLeg(s, position).Ok? <==>
      && 0 <= position <= s.borrowed && FitsI128(Ceil(position * s.borrowIndex, RAY))
      && FitsI128(HalfUp(s.supplied * s.supplyIndex, RAY))
  {
    if 0 <= position {
      MulNonNeg(position, s.borrowIndex);
      CeilNonNeg(position * s.borrowIndex, RAY);
      MulNonNeg(s.supplied, s.supplyIndex);
      FloorNonNeg(s.supplied * s.supplyIndex, RAY);
      var badDebt, total := Ceil(position * s.borrowIndex, RAY), HalfUp(s.supplied * s.supplyIndex, RAY);
      if 0 < total <= I128_MAX { ProportionalFits(s, badDebt, total); }
    }
  }

  lemma ProportionalFits(s: State, badDebt: int, total: int)
    requires s.Valid() && badDebt >= 0 && total > 0
    ensures Proportional(s, badDebt, total).Ok?
  {
    var remaining := total - Min(badDebt, total);
    var factor := Floor(remaining * RAY, total);
    FloorNonNeg(remaining * RAY, total);
    FloorBounds(remaining * RAY, total);
    FactorAtMostOne(factor, remaining, total);
    MulNonNeg(s.supplyIndex, factor);
    FloorNonNeg(s.supplyIndex * factor, RAY);
    MulMono(factor, RAY, s.supplyIndex);
    FloorMono(s.supplyIndex * factor, s.supplyIndex * RAY, RAY);
    FloorUnique(s.supplyIndex, s.supplyIndex * RAY, RAY);
  }
}
