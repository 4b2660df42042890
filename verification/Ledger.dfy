/** The pool's market ledger as a state machine: the exact transition each operation makes on
    `(supplied, borrowed, revenue, borrow index, supply index, cash)`, and what every run keeps. */
module Ledger {
  import opened Numbers
  import opened Rounding
  import opened Scaling
  import opened Accrual
  import FixedPoint
  import Compound
  import Runs

  const SUPPLY_INDEX_FLOOR: int := RAY / 1_000
  const LIQUIDATION_BUFFER_BPS: int := 200

  datatype Params = Params(decimals: nat, maxUtilization: int, reserveBps: int, flashFeeBps: int, flashloanable: bool) {
    predicate Valid() {
      decimals <= WAD_DECIMALS && 0 <= flashFeeBps
    }

    /** Raw value of one asset unit, at the precision of `shares * index`. */
    function Unit(): (m: int)
      requires Valid()
      ensures m > 0
    {
      RAY * Scale(decimals)
    }
  }

  datatype State = State(supplied: int, borrowed: int, revenue: int, borrowIndex: int, supplyIndex: int, cash: int) {
    predicate Valid() {
      && 0 <= revenue <= supplied <= I128_MAX
      && 0 <= borrowed <= I128_MAX
      && 0 <= cash <= I128_MAX
      && RAY <= borrowIndex <= MAX_INDEX_RAY
      && SUPPLY_INDEX_FLOOR <= supplyIndex <= MAX_INDEX_RAY
    }
  }

  /** What a leg leaves: the market, the caller's scaled position(s) and the amounts it reports. */
  datatype Outcome = Outcome(state: State, position: int, other: int, amount: int, transfer: int)

  datatype Op =
    | Supply(position: int, amount: int)
    | Borrow(position: int, amount: int)
    | Withdrawing(position: int, amount: int, liquidation: bool, fee: int)
    | Repaying(position: int, amount: int)
    | NetSettle(amount: int, supplyPosition: int, debtPosition: int)
    | Strategy(position: int, amount: int, chargeFee: bool)
    | FlashLoan(amount: int)
    | ClaimRevenue
    | Recapitalize(amount: int)
    | SeizeDeposit(position: int)
    | SeizeBorrow(position: int)
    | Accrue(rate: int, deltaMs: nat)

  // ----- guards

  /** Asset units by which floored claims exceed cash plus ceiled debt. */
  function BackingShortfall(p: Params, s: State): Result<int>
    requires p.Valid()
  {
    var claims :- FixedPoint.MulFloor(s.supplied, s.supplyIndex, RAY);
    var debt :- FixedPoint.MulCeil(s.borrowed, s.borrowIndex, RAY);
    if claims <= debt then Ok(0)
    else
      var uncovered :- CheckedSub(claims, debt);
      Ok(Shortage(uncovered, Scale(p.decimals), s.cash))
  }

  /** Asset units of `uncovered` that cash does not cover. */
  function Shortage(uncovered: int, scale: int, cash: int): int
    requires scale != 0
  {
    Max(0, Min(I128_MAX, FixedPoint.Trunc(uncovered, scale) - cash))
  }

  function CheckUtilization(p: Params, s: State): Result<bool> {
    if s.supplied == 0 || p.maxUtilization >= RAY then Ok(true)
    else
      var borrowed :- FixedPoint.MulCeil(s.borrowed, s.borrowIndex, RAY);
      if borrowed == 0 then Ok(true)
      else
        var supplied :- FixedPoint.MulFloor(s.supplied, s.supplyIndex, RAY);
        if supplied <= 0 then Err(UtilizationAboveMax)
        else
          var used :- FixedPoint.MulCeil(borrowed, RAY, supplied);
          Require(used <= p.maxUtilization, UtilizationAboveMax)
  }

  function CheckBuffer(p: Params, s: State, draw: int): Result<bool>
    requires p.Valid()
  {
    var supplied :- UnscaleFloor(s.supplied, s.supplyIndex, p.decimals);
    var reserved :- FixedPoint.MulCeil(supplied, LIQUIDATION_BUFFER_BPS, BPS);
    Require(Max(I128_MIN, s.cash - draw) >= reserved, InsufficientLiquidity)
  }

  function CheckSupplyForDebt(s: State): Result<bool> {
    Require(!(s.supplied == 0 && s.borrowed != 0), PoolInsolvent)
  }

  // ----- shared pieces

  function Credit(s: State, amount: int): Result<State> {
    var _ :- Require(amount >= 0, AmountMustBePositive);
    var cash :- Narrow(s.cash + amount);
    Ok(s.(cash := cash))
  }

  function Debit(s: State, amount: int): Result<State> {
    var _ :- Require(amount >= 0, AmountMustBePositive);
    var _ :- Require(s.cash >= amount, InsufficientLiquidity);
    Ok(s.(cash := s.cash - amount))
  }

  function BurnSupply(s: State, shares: int): Result<State> {
    var supplied :- CheckedSub(s.supplied, shares);
    var _ :- Require(s.revenue <= supplied, InternalError);
    Ok(s.(supplied := supplied))
  }

  function BurnDebt(s: State, shares: int): Result<State> {
    var borrowed :- CheckedSub(s.borrowed, shares);
    Ok(s.(borrowed := borrowed))
  }

  function AddRevenue(s: State, fee: int): Result<State> {
    if fee == 0 then Ok(s)
    else
      var shares :- FeeShares(fee, s.supplyIndex, s.supplied);
      var revenue :- Narrow(s.revenue + shares);
      var supplied :- Narrow(s.supplied + shares);
      Ok(s.(revenue := revenue, supplied := supplied))
  }

  /** A flash-style fee: half up, but never zero for a positive rate. */
  function FlashFee(bps: int, amount: int): Result<int> {
    var fee :- FixedPoint.MulHalfUp(amount, bps, BPS);
    Ok(if bps > 0 && fee == 0 then 1 else fee)
  }

  datatype Minted = Minted(state: State, position: int)

  function MintDebt(p: Params, s: State, position: int, amount: int): Result<Minted>
    requires p.Valid()
  {
    var _ :- Require(amount > 0, AmountMustBePositive);
    var _ :- Require(s.cash >= amount, InsufficientLiquidity);
    var _ :- CheckBuffer(p, s, amount);
    var minted :- ScaledCeil(amount, p.decimals, s.borrowIndex);
    var _ :- Require(minted > 0, RoundsToZeroShares);
    var held :- Narrow(position + minted);
    var borrowed :- Narrow(s.borrowed + minted);
    var next := s.(borrowed := borrowed);
    var _ :- CheckUtilization(p, next);
    Ok(Minted(next, held))
  }

  /** The supply index scaled down pro rata to the value `badDebt` leaves. */
  function Proportional(s: State, badDebt: int, total: int): Result<int> {
    var remaining :- CheckedSub(total, Min(badDebt, total));
    var factor :- FixedPoint.MulFloor(remaining, RAY, total);
    FixedPoint.MulFloor(s.supplyIndex, factor, RAY)
  }

  /** New supply index after socialising `badDebt`. */
  function WriteDown(s: State, badDebt: int): Result<int> {
    var total :- FixedPoint.MulHalfUp(s.supplied, s.supplyIndex, RAY);
    if total == 0 then Ok(s.supplyIndex)
    else
      var index :- Proportional(s, badDebt, total);
      Ok(Max(index, SUPPLY_INDEX_FLOOR))
  }

  // ----- operations

  function SupplyLeg(p: Params, s: State, position: int, amount: int): Result<Outcome>
    requires p.Valid()
  {
    var _ :- Require(amount >= 0 && position >= 0, AmountMustBePositive);
    var shortfall :- BackingShortfall(p, s);
    var _ :- Require(shortfall == 0, PoolInsolvent);
    var minted :- ScaledFloor(amount, p.decimals, s.supplyIndex);
    var _ :- Require(amount == 0 || minted > 0, RoundsToZeroShares);
    var held :- Narrow(position + minted);
    var supplied :- Narrow(s.supplied + minted);
    var next :- Credit(s.(supplied := supplied), amount);
    Ok(Outcome(next, held, 0, amount, 0))
  }

  function BorrowLeg(p: Params, s: State, position: int, amount: int): Result<Outcome>
    requires p.Valid()
  {
    var _ :- Require(amount >= 0 && position >= 0, AmountMustBePositive);
    var minted :- MintDebt(p, s, position, amount);
    var next :- Debit(minted.state, amount);
    Ok(Outcome(next, minted.position, 0, amount, amount))
  }

  datatype Withheld = Withheld(state: State, net: int)

  function WithholdFee(p: Params, s: State, gross: int, liquidation: bool, fee: int): Result<Withheld>
    requires p.Valid()
  {
    if !liquidation || fee == 0 then Ok(Withheld(s, gross))
    else
      var _ :- Require(gross >= fee, WithdrawLessThanFee);
      var ray :- FromAsset(fee, p.decimals);
      var next :- AddRevenue(s, ray);
      Ok(Withheld(next, gross - fee))
  }

  function WithdrawLeg(p: Params, s: State, position: int, amount: int, liquidation: bool, fee: int): Result<Outcome>
    requires p.Valid()
  {
    var _ :- Require(fee >= 0 && amount >= 0 && position >= 0, AmountMustBePositive);
    var r :- ResolveWithdrawal(amount, position, s.supplyIndex, p.decimals);
    var _ :- Require(r.paid == 0 || r.burned > 0, RoundsToZeroShares);
    var burned :- BurnSupply(s, r.burned);
    var left :- CheckedSub(position, r.burned);
    var withheld :- WithholdFee(p, burned, r.paid, liquidation, fee);
    var _ :- Require(withheld.state.cash >= withheld.net, InsufficientLiquidity);
    var emptyClose := position == 0 && amount == I128_MAX;
    var _ :- if liquidation || emptyClose then Ok(true) else CheckUtilization(p, withheld.state);
    var _ :- CheckSupplyForDebt(withheld.state);
    var next :- Debit(withheld.state, withheld.net);
    Ok(Outcome(next, left, 0, r.paid, withheld.net))
  }

  function RepayLeg(p: Params, s: State, position: int, amount: int): Result<Outcome>
    requires p.Valid()
  {
    var _ :- Require(amount >= 0 && position >= 0, AmountMustBePositive);
    var r :- ResolveRepay(amount, position, s.borrowIndex, p.decimals);
    var net :- Narrow(amount - r.overpayment);
    var _ :- Require(net == 0 || r.burned > 0, RoundsToZeroShares);
    var left :- CheckedSub(position, r.burned);
    var burned :- BurnDebt(s, r.burned);
    var next :- Credit(burned, net);
    Ok(Outcome(next, left, 0, net, r.overpayment))
  }

  function NetSettleLeg(p: Params, s: State, amount: int, supplyPosition: int, debtPosition: int): Result<Outcome>
    requires p.Valid()
  {
    var _ :- Require(amount >= 0 && supplyPosition >= 0 && debtPosition >= 0, AmountMustBePositive);
    var r :- ResolveNetSettle(amount, supplyPosition, debtPosition, s.supplyIndex, s.borrowIndex, p.decimals);
    var _ :- Require(r.settled == 0 || (r.burnedSupply > 0 && r.burnedDebt > 0), RoundsToZeroShares);
    var less :- BurnSupply(s, r.burnedSupply);
    var next :- BurnDebt(less, r.burnedDebt);
    var _ :- CheckSupplyForDebt(next);
    var supplyLeft :- CheckedSub(supplyPosition, r.burnedSupply);
    var debtLeft :- CheckedSub(debtPosition, r.burnedDebt);
    Ok(Outcome(next, supplyLeft, debtLeft, r.settled, 0))
  }

  function StrategyLeg(p: Params, s: State, position: int, amount: int, chargeFee: bool): Result<Outcome>
    requires p.Valid()
  {
    var _ :- Require(amount >= 0 && position >= 0, AmountMustBePositive);
    var fee :- if chargeFee then FlashFee(p.flashFeeBps, amount) else Ok(0);
    var _ :- Require(fee <= amount, StrategyFeeExceeds);
    var minted :- MintDebt(p, s, position, amount);
    var ray :- FromAsset(fee, p.decimals);
    var booked :- AddRevenue(minted.state, ray);
    var next :- Debit(booked, amount - fee);
    Ok(Outcome(next, minted.position, 0, amount, amount - fee))
  }

  /** The accounting of a flash loan whose principal and fee came back. */
  function FlashLeg(p: Params, s: State, amount: int): Result<Outcome>
    requires p.Valid()
  {
    var _ :- Require(amount > 0, AmountMustBePositive);
    var _ :- Require(p.flashloanable, FlashloanNotEnabled);
    var _ :- Require(s.cash >= amount, InsufficientLiquidity);
    var fee :- FlashFee(p.flashFeeBps, amount);
    var _ :- Narrow(amount + fee);
    var ray :- FromAsset(fee, p.decimals);
    var booked :- AddRevenue(s, ray);
    var next :- Credit(booked, fee);
    Ok(Outcome(next, 0, 0, fee, 0))
  }

  /** Burns revenue shares for the claimable amount: all of them when cash covers their floored
      value, otherwise a ceiled pro rata part. */
  function BurnClaimable(p: Params, s: State): Result<Withheld>
    requires p.Valid()
  {
    var treasury :- UnscaleFloor(s.revenue, s.supplyIndex, p.decimals);
    var amount := Min(s.cash, treasury);
    if amount <= 0 then Ok(Withheld(s, 0))
    else
      var burned :- if amount >= treasury then Ok(s.revenue) else FixedPoint.MulCeil(s.revenue, amount, treasury);
      var _ :- Require(burned != 0, InternalError);
      var revenue :- CheckedSub(s.revenue, burned);
      var supplied :- CheckedSub(s.supplied, burned);
      Ok(Withheld(s.(revenue := revenue, supplied := supplied), amount))
  }

  function ClaimLeg(p: Params, s: State): Result<Outcome>
    requires p.Valid()
  {
    var claim :- BurnClaimable(p, s);
    var _ :- CheckUtilization(p, claim.state);
    var _ :- CheckSupplyForDebt(claim.state);
    var paid :- Debit(claim.state, claim.net);
    Ok(Outcome(paid, 0, 0, claim.net, claim.net))
  }

  function RecapitalizeLeg(p: Params, s: State, amount: int): Result<Outcome>
    requires p.Valid()
  {
    var _ :- Require(amount >= 0, AmountMustBePositive);
    var shortfall :- BackingShortfall(p, s);
    var applied := Min(amount, shortfall);
    var next :- Credit(s, applied);
    Ok(Outcome(next, 0, 0, applied, amount - applied))
  }

  function SeizeDepositLeg(s: State, position: int): Result<Outcome> {
    var _ :- Require(position >= 0, AmountMustBePositive);
    var revenue :- Narrow(s.revenue + position);
    var _ :- Require(revenue <= s.supplied, InternalError);
    Ok(Outcome(s.(revenue := revenue), 0, 0, 0, 0))
  }

  function SeizeBorrowLeg(s: State, position: int): Result<Outcome> {
    var _ :- Require(position >= 0, AmountMustBePositive);
    var badDebt :- FixedPoint.MulCeil(position, s.borrowIndex, RAY);
    var index :- WriteDown(s, badDebt);
    var next :- BurnDebt(s.(supplyIndex := index), position);
    Ok(Outcome(next, 0, 0, 0, 0))
  }

  /** One chunk of accrual at the per-millisecond `rate` the curve quotes for it. */
  function AccrueLeg(p: Params, s: State, rate: int, deltaMs: nat): Result<Outcome> {
    var factor :- Compound.CompoundSpec(rate, deltaMs);
    AccrueLegBy(p, s, factor)
  }

  function AccrueLegBy(p: Params, s: State, factor: int): Result<Outcome> {
    var step :- AccrueBy(factor, p.reserveBps, s.borrowed, s.supplied, s.borrowIndex, s.supplyIndex);
    var revenue :- Narrow(s.revenue + step.revenueShares);
    var supplied :- Narrow(s.supplied + step.revenueShares);
    Ok(Outcome(State(supplied, s.borrowed, revenue, step.borrowIndex, step.supplyIndex, s.cash), 0, 0, 0, 0))
  }

  const MAX_COMPOUND_DELTA_MS: nat := 31_556_926_000

  function StateOf(r: Result<Outcome>): Result<State> {
    match r
    case Err(e) => Err(e)
    case Ok(out) => Ok(out.state)
  }

  function AccrueWindow(p: Params, curve: State -> Result<int>, s: State, window: nat): Result<State> {
    var rate :- curve(s);
    StateOf(AccrueLeg(p, s, rate, window))
  }

  function NextWindow(elapsed: nat): (window: nat)
    ensures window <= elapsed && (elapsed > 0 ==> 0 < window <= MAX_COMPOUND_DELTA_MS)
    ensures window < MAX_COMPOUND_DELTA_MS ==> window == elapsed
  {
    Min(elapsed, MAX_COMPOUND_DELTA_MS)
  }

  /** Accrual over `elapsed` in windows of at most the compounding limit, each at the rate that
      `curve` quotes for the market as the previous window left it. */
  function Sync(p: Params, curve: State -> Result<int>, s: State, elapsed: nat): Result<State>
    decreases elapsed
  {
    if elapsed == 0 then Ok(s)
    else
      var next :- AccrueWindow(p, curve, s, NextWindow(elapsed));
      Sync(p, curve, next, elapsed - NextWindow(elapsed))
  }

  function Apply(p: Params, s: State, op: Op): Result<Outcome>
    requires p.Valid()
  {
    match op
    case Supply(position, amount) => SupplyLeg(p, s, position, amount)
    case Borrow(position, amount) => BorrowLeg(p, s, position, amount)
    case Withdrawing(position, amount, liquidation, fee) => WithdrawLeg(p, s, position, amount, liquidation, fee)
    case Repaying(position, amount) => RepayLeg(p, s, position, amount)
    case NetSettle(amount, supplyPosition, debtPosition) => NetSettleLeg(p, s, amount, supplyPosition, debtPosition)
    case Strategy(position, amount, chargeFee) => StrategyLeg(p, s, position, amount, chargeFee)
    case FlashLoan(amount) => FlashLeg(p, s, amount)
    case ClaimRevenue => ClaimLeg(p, s)
    case Recapitalize(amount) => RecapitalizeLeg(p, s, amount)
    case SeizeDeposit(position) => SeizeDepositLeg(s, position)
    case SeizeBorrow(position) => SeizeBorrowLeg(s, position)
    case Accrue(rate, deltaMs) => AccrueLeg(p, s, rate, deltaMs)
  }

  // ----- what the market owns less what it owes

  /** Cash and debt at exact value, less supplier and protocol claims at exact value. */
  function Surplus(p: Params, s: State): int
    requires p.Valid()
  {
    s.cash * p.Unit() + s.borrowed * s.borrowIndex - s.supplied * s.supplyIndex
  }

  /** At fixed indexes the surplus moves linearly. */
  lemma SurplusDelta(p: Params, s: State, t: State)
    requires p.Valid() && s.borrowIndex == t.borrowIndex && s.supplyIndex == t.supplyIndex
    ensures Surplus(p, t) - Surplus(p, s)
         == (t.cash - s.cash) * p.Unit() + (t.borrowed - s.borrowed) * s.borrowIndex - (t.supplied - s.supplied) * s.supplyIndex
  {
    Difference(t.cash, s.cash, p.Unit());
    Difference(t.borrowed, s.borrowed, s.borrowIndex);
    Difference(t.supplied, s.supplied, s.supplyIndex);
  }

  lemma Difference(a: int, b: int, m: int)
    ensures (a - b) * m == a * m - b * m
  {
  }

  /** What each operation keeps: a valid state, untouched indexes and no loss of surplus. */
  ghost predicate Keeps(p: Params, s: State, t: State)
    requires p.Valid()
  {
    && t.Valid()
    && t.borrowIndex == s.borrowIndex && t.supplyIndex == s.supplyIndex
    && Surplus(p, s) <= Surplus(p, t)
  }

  /** `Keeps` from the three deltas: what comes in covers what is newly owed. */
  lemma KeepsByDelta(p: Params, s: State, t: State, cash: int, debt: int, claims: int)
    requires p.Valid() && t.Valid() && t.borrowIndex == s.borrowIndex && t.supplyIndex == s.supplyIndex
    requires t.cash == s.cash + cash && t.borrowed == s.borrowed + debt && t.supplied == s.supplied + claims
    requires cash * p.Unit() + debt * s.borrowIndex >= claims * s.supplyIndex
    ensures Keeps(p, s, t)
  {
    SurplusDelta(p, s, t);
  }

  lemma SupplyKeeps(p: Params, s: State, position: int, amount: int)
    requires p.Valid() && s.Valid() && SupplyLeg(p, s, position, amount).Ok?
    ensures Keeps(p, s, SupplyLeg(p, s, position, amount).value.state)
  {
    var t := SupplyLeg(p, s, position, amount).value.state;
    ScaledFloorIs(amount, p.decimals, s.supplyIndex);
    SharesNonNeg(amount, s.supplyIndex, p.Unit());
    FloorBounds(amount * p.Unit(), s.supplyIndex);
    KeepsByDelta(p, s, t, amount, 0, SharesWithin(amount, s.supplyIndex, p.Unit()));
  }

  lemma MintKeeps(p: Params, s: State, position: int, amount: int)
    requires p.Valid() && s.Valid() && MintDebt(p, s, position, amount).Ok?
    ensures var t, shares := MintDebt(p, s, position, amount).value.state, SharesFor(amount, s.borrowIndex, p.Unit());
      && t == s.(borrowed := s.borrowed + shares) && t.Valid()
      && shares * s.borrowIndex >= amount * p.Unit()
  {
    ScaledCeilIs(amount, p.decimals, s.borrowIndex);
    CeilBounds(amount * p.Unit(), s.borrowIndex);
  }

  lemma BorrowKeeps(p: Params, s: State, position: int, amount: int)
    requires p.Valid() && s.Valid() && BorrowLeg(p, s, position, amount).Ok?
    ensures Keeps(p, s, BorrowLeg(p, s, position, amount).value.state)
  {
    var t := BorrowLeg(p, s, position, amount).value.state;
    MintKeeps(p, s, position, amount);
    Negate(amount, p.Unit());
    KeepsByDelta(p, s, t, -amount, SharesFor(amount, s.borrowIndex, p.Unit()), 0);
  }

  lemma Negate(a: int, m: int)
    ensures (-a) * m == -(a * m)
  {
  }

  /** Booking a fee creates claims worth at most the fee. */
  lemma AddRevenueKeeps(p: Params, s: State, fee: int)
    requires p.Valid() && s.Valid() && fee >= 0 && FromAsset(fee, p.decimals).Ok?
    requires AddRevenue(s, FromAsset(fee, p.decimals).value).Ok?
    ensures var t := AddRevenue(s, FromAsset(fee, p.decimals).value).value;
      var shares := t.supplied - s.supplied;
      && t == s.(revenue := s.revenue + shares, supplied := s.supplied + shares) && t.Valid()
      && shares * s.supplyIndex <= fee * p.Unit()
  {
    var ray := FromAsset(fee, p.decimals).value;
    MulNonNeg(fee, Scale(p.decimals));
    Regroup(fee, Scale(p.decimals));
    if ray != 0 { FeeSharesWorthAtMostFee(ray, s.supplyIndex, s.supplied); }
  }

  lemma Regroup(fee: int, k: int)
    ensures (fee * k) * RAY == fee * (RAY * k)
  {
  }

  /** The fields a withdrawal leaves, with `minted` the fee shares of a liquidation. */
  lemma WithdrawEffect(p: Params, s: State, position: int, amount: int, liquidation: bool, fee: int) returns (minted: int)
    requires p.Valid() && s.Valid() && WithdrawLeg(p, s, position, amount, liquidation, fee).Ok?
    ensures ResolveWithdrawal(amount, position, s.supplyIndex, p.decimals).Ok?
    ensures var r, t := ResolveWithdrawal(amount, position, s.supplyIndex, p.decimals).value, WithdrawLeg(p, s, position, amount, liquidation, fee).value.state;
      var kept := if liquidation then fee else 0;
      && t == s.(supplied := s.supplied - r.burned + minted, revenue := s.revenue + minted, cash := s.cash - r.paid + kept)
      && t.Valid() && minted * s.supplyIndex <= kept * p.Unit()
    ensures amount >= 0 && position >= 0
  {
    var r := ResolveWithdrawal(amount, position, s.supplyIndex, p.decimals).value;
    WithdrawalIs(amount, position, s.supplyIndex, p.decimals);
    WithdrawCovered(amount, position, s.supplyIndex, Scale(p.decimals));
    var burned := BurnSupply(s, r.burned).value;
    minted := 0;
    if liquidation && fee != 0 {
      AddRevenueKeeps(p, burned, fee);
      minted := AddRevenue(burned, FromAsset(fee, p.decimals).value).value.supplied - burned.supplied;
    }
  }

  lemma WithdrawKeeps(p: Params, s: State, position: int, amount: int, liquidation: bool, fee: int)
    requires p.Valid() && s.Valid() && WithdrawLeg(p, s, position, amount, liquidation, fee).Ok?
    ensures Keeps(p, s, WithdrawLeg(p, s, position, amount, liquidation, fee).value.state)
  {
    var minted := WithdrawEffect(p, s, position, amount, liquidation, fee);
    var r := ResolveWithdrawal(amount, position, s.supplyIndex, p.decimals).value;
    WithdrawalIs(amount, position, s.supplyIndex, p.decimals);
    WithdrawCovered(amount, position, s.supplyIndex, Scale(p.decimals));
    ExitKeeps(p, s, WithdrawLeg(p, s, position, amount, liquidation, fee).value.state,
              r.burned, r.paid, minted, if liquidation then fee else 0);
  }

  lemma ExitKeeps(p: Params, s: State, t: State, burned: int, paid: int, minted: int, fee: int)
    requires p.Valid() && t.Valid()
    requires t == s.(supplied := s.supplied - burned + minted, revenue := s.revenue + minted, cash := s.cash - paid + fee)
    requires minted * s.supplyIndex <= fee * p.Unit() && paid * p.Unit() <= burned * s.supplyIndex
    ensures Keeps(p, s, t)
  {
    Difference(fee, paid, p.Unit());
    Difference(minted, burned, s.supplyIndex);
    KeepsByDelta(p, s, t, fee - paid, 0, minted - burned);
  }

  lemma RepayKeeps(p: Params, s: State, position: int, amount: int)
    requires p.Valid() && s.Valid() && RepayLeg(p, s, position, amount).Ok?
    ensures Keeps(p, s, RepayLeg(p, s, position, amount).value.state)
  {
    var t := RepayLeg(p, s, position, amount).value.state;
    var r := ResolveRepay(amount, position, s.borrowIndex, p.decimals).value;
    RepayIs(amount, position, s.borrowIndex, p.decimals);
    RepayFair(amount, position, s.borrowIndex, p.Unit());
    Negate(r.burned, s.borrowIndex);
    KeepsByDelta(p, s, t, amount - r.overpayment, -r.burned, 0);
  }

  /** What is retired is worth at most what is kept of the payment. */
  lemma RepayFair(amount: int, q: int, j: int, m: int)
    requires amount >= 0 && q >= 0 && j > 0 && m > 0
    ensures var r := Repay(amount, q, j, m);
      0 <= r.burned && 0 <= r.overpayment <= amount && r.burned * j <= (amount - r.overpayment) * m
  {
    SharesNonNeg(amount, j, m);
    FloorBounds(amount * m, j);
    CeilBounds(q * j, m);
    MulNonNeg(q, j);
    CeilNonNeg(q * j, m);
  }

  lemma NetSettleKeeps(p: Params, s: State, amount: int, supplyPosition: int, debtPosition: int)
    requires p.Valid() && s.Valid() && NetSettleLeg(p, s, amount, supplyPosition, debtPosition).Ok?
    ensures Keeps(p, s, NetSettleLeg(p, s, amount, supplyPosition, debtPosition).value.state)
  {
    var t := NetSettleLeg(p, s, amount, supplyPosition, debtPosition).value.state;
    var r := ResolveNetSettle(amount, supplyPosition, debtPosition, s.supplyIndex, s.borrowIndex, p.decimals).value;
    assert t == s.(supplied := s.supplied - r.burnedSupply, borrowed := s.borrowed - r.burnedDebt);
    SettlementFair(p, s, amount, supplyPosition, debtPosition);
    Negate(r.burnedSupply, s.supplyIndex);
    Negate(r.burnedDebt, s.borrowIndex);
    KeepsByDelta(p, s, t, 0, -r.burnedDebt, -r.burnedSupply);
  }

  lemma SettlementFair(p: Params, s: State, amount: int, supplyPosition: int, debtPosition: int)
    requires p.Valid() && s.Valid() && supplyPosition >= 0 && debtPosition >= 0
    requires ResolveNetSettle(amount, supplyPosition, debtPosition, s.supplyIndex, s.borrowIndex, p.decimals).Ok?
    ensures var r := ResolveNetSettle(amount, supplyPosition, debtPosition, s.supplyIndex, s.borrowIndex, p.decimals).value;
      && 0 <= r.burnedSupply && 0 <= r.burnedDebt
      && r.burnedDebt * s.borrowIndex <= r.burnedSupply * s.supplyIndex
  {
    NetSettleIs(amount, supplyPosition, debtPosition, s.supplyIndex, s.borrowIndex, p.decimals);
    SettleBounds(amount, supplyPosition, debtPosition, s.supplyIndex, s.borrowIndex, p.Unit());
    SettleFair(amount, supplyPosition, debtPosition, s.supplyIndex, s.borrowIndex, p.Unit());
  }

  /** The supply burned covers the settled amount and the debt retired does not exceed it. */
  lemma SettleFair(amount: int, p: int, q: int, i: int, j: int, m: int)
    requires i > 0 && j > 0 && m > 0
    ensures var r := Settle(amount, p, q, i, j, m); r.burnedDebt * j <= r.settled * m <= r.burnedSupply * i
  {
    var s := Settle(amount, p, q, i, j, m).settled;
    FloorBounds(p * i, m);
    CeilBounds(s * m, i);
    CeilBounds(q * j, m);
    FloorBounds(s * m, j);
  }

  lemma StrategyKeeps(p: Params, s: State, position: int, amount: int, chargeFee: bool)
    requires p.Valid() && s.Valid() && StrategyLeg(p, s, position, amount, chargeFee).Ok?
    ensures Keeps(p, s, StrategyLeg(p, s, position, amount, chargeFee).value.state)
  {
    var t := StrategyLeg(p, s, position, amount, chargeFee).value.state;
    var fee := if chargeFee then FlashFee(p.flashFeeBps, amount).value else 0;
    FeeNonNeg(p.flashFeeBps, amount, chargeFee);
    MintKeeps(p, s, position, amount);
    var minted := MintDebt(p, s, position, amount).value.state;
    AddRevenueKeeps(p, minted, fee);
    var booked := AddRevenue(minted, FromAsset(fee, p.decimals).value).value;
    StrategyScalars(p, s, t, amount, fee, SharesFor(amount, s.borrowIndex, p.Unit()), booked.supplied - s.supplied);
  }

  lemma StrategyScalars(p: Params, s: State, t: State, amount: int, fee: int, debt: int, claims: int)
    requires p.Valid() && t.Valid()
    requires t == State(s.supplied + claims, s.borrowed + debt, s.revenue + claims, s.borrowIndex, s.supplyIndex, s.cash - amount + fee)
    requires amount * p.Unit() <= debt * s.borrowIndex && claims * s.supplyIndex <= fee * p.Unit()
    ensures Keeps(p, s, t)
  {
    Difference(fee, amount, p.Unit());
    KeepsByDelta(p, s, t, fee - amount, debt, claims);
  }

  lemma FeeNonNeg(bps: int, amount: int, charged: bool)
    requires charged ==> FlashFee(bps, amount).Ok?
    ensures charged ==> FlashFee(bps, amount).value >= 0
  {
    if charged {
      MulNonNeg(amount, bps);
      FloorNonNeg(amount * bps, BPS);
    }
  }

  lemma FlashKeeps(p: Params, s: State, amount: int)
    requires p.Valid() && s.Valid() && FlashLeg(p, s, amount).Ok?
    ensures Keeps(p, s, FlashLeg(p, s, amount).value.state)
  {
    var t := FlashLeg(p, s, amount).value.state;
    var fee := FlashFee(p.flashFeeBps, amount).value;
    FeeNonNeg(p.flashFeeBps, amount, true);
    AddRevenueKeeps(p, s, fee);
    KeepsByDelta(p, s, t, fee, 0, t.supplied - s.supplied);
  }

  lemma ClaimKeeps(p: Params, s: State)
    requires p.Valid() && s.Valid() && ClaimLeg(p, s).Ok?
    ensures Keeps(p, s, ClaimLeg(p, s).value.state)
  {
    var out := ClaimLeg(p, s).value;
    var burned := s.supplied - out.state.supplied;
    ClaimCovers(p, s);
    Negate(out.amount, p.Unit());
    Negate(burned, s.supplyIndex);
    KeepsByDelta(p, s, out.state, -out.amount, 0, -burned);
  }

  lemma ClaimCovers(p: Params, s: State)
    requires p.Valid() && s.Valid() && BurnClaimable(p, s).Ok?
    ensures var claim := BurnClaimable(p, s).value;
      claim.net * p.Unit() <= (s.supplied - claim.state.supplied) * s.supplyIndex
  {
    UnscaleFloorIs(s.revenue, s.supplyIndex, p.decimals);
    var treasury := UnscaleFloor(s.revenue, s.supplyIndex, p.decimals).value;
    var amount := Min(s.cash, treasury);
    FloorBounds(s.revenue * s.supplyIndex, p.Unit());
    if 0 < amount < treasury {
      ProRataCovers(s.revenue, amount, treasury, s.supplyIndex, p.Unit());
    }
  }

  /** Burning `ceil(revenue * amount / treasury)` shares gives up at least `amount`. */
  lemma ProRataCovers(revenue: int, amount: int, treasury: int, i: int, m: int)
    requires 0 < amount && 0 < treasury && 0 < i && treasury * m <= revenue * i
    ensures amount * m <= Ceil(revenue * amount, treasury) * i
  {
    var b := Ceil(revenue * amount, treasury);
    CeilBounds(revenue * amount, treasury);
    MulMono(revenue * amount, b * treasury, i);
    MulMono(treasury * m, revenue * i, amount);
    assert (revenue * amount) * i == (revenue * i) * amount;
    assert (b * treasury) * i == (b * i) * treasury && (treasury * m) * amount == (amount * m) * treasury;
    CancelLe(amount * m, b * i, treasury);
  }

  lemma RecapitalizeKeeps(p: Params, s: State, amount: int)
    requires p.Valid() && s.Valid() && RecapitalizeLeg(p, s, amount).Ok?
    ensures Keeps(p, s, RecapitalizeLeg(p, s, amount).value.state)
  {
    var out := RecapitalizeLeg(p, s, amount).value;
    MulNonNeg(out.amount, p.Unit());
    KeepsByDelta(p, s, out.state, out.amount, 0, 0);
  }

  lemma SeizeDepositKeeps(p: Params, s: State, position: int)
    requires p.Valid() && s.Valid() && SeizeDepositLeg(s, position).Ok?
    ensures Keeps(p, s, SeizeDepositLeg(s, position).value.state)
  {
  }

  /** Every operation that leaves the indexes alone keeps the surplus. */
  lemma ApplyKeeps(p: Params, s: State, op: Op)
    requires p.Valid() && s.Valid() && !op.SeizeBorrow? && !op.Accrue? && Apply(p, s, op).Ok?
    ensures Keeps(p, s, Apply(p, s, op).value.state)
  {
    match op
    case Supply(position, amount) => SupplyKeeps(p, s, position, amount);
    case Borrow(position, amount) => BorrowKeeps(p, s, position, amount);
    case Withdrawing(position, amount, liquidation, fee) => WithdrawKeeps(p, s, position, amount, liquidation, fee);
    case Repaying(position, amount) => RepayKeeps(p, s, position, amount);
    case NetSettle(amount, supplyPosition, debtPosition) => NetSettleKeeps(p, s, amount, supplyPosition, debtPosition);
    case Strategy(position, amount, chargeFee) => StrategyKeeps(p, s, position, amount, chargeFee);
    case FlashLoan(amount) => FlashKeeps(p, s, amount);
    case ClaimRevenue => ClaimKeeps(p, s);
    case Recapitalize(amount) => RecapitalizeKeeps(p, s, amount);
    case SeizeDeposit(position) => SeizeDepositKeeps(p, s, position);
  }

  // ----- bad debt

  /** Either no value is left to write down, or the index floor stops the write-down. */
  predicate FloorBinds(s: State, badDebt: int) {
    var total := HalfUp(s.supplied * s.supplyIndex, RAY);
    total == 0 || Proportional(s, badDebt, total).Err? || Proportional(s, badDebt, total).value < SUPPLY_INDEX_FLOOR
  }

  /** The three chained floors of a proportional write-down. */
  lemma ProportionalBounds(s: State, badDebt: int, total: int)
    requires s.Valid() && badDebt >= 0 && total == HalfUp(s.supplied * s.supplyIndex, RAY) && total > 0
    requires Proportional(s, badDebt, total).Ok?
    ensures var index, remaining := Proportional(s, badDebt, total).value, total - Min(badDebt, total);
      && 0 <= index <= s.supplyIndex
      && s.supplied * index * total <= s.supplied * s.supplyIndex * remaining
      && (badDebt >= total ==> index == 0)
  {
    var remaining := total - Min(badDebt, total);
    var factor := Floor(remaining * RAY, total);
    var index := Floor(s.supplyIndex * factor, RAY);
    FloorBounds(remaining * RAY, total);
    FloorNonNeg(remaining * RAY, total);
    MulNonNeg(s.supplyIndex, factor);
    FloorNonNeg(s.supplyIndex * factor, RAY);
    FloorBounds(s.supplyIndex * factor, RAY);
    FactorAtMostOne(factor, remaining, total);
    MulMono(factor, RAY, s.supplyIndex);
    WriteDownProduct(s.supplied, s.supplyIndex, index, factor, remaining, total);
  }

  lemma FactorAtMostOne(factor: int, remaining: int, total: int)
    requires 0 <= remaining <= total && total > 0 && factor * total <= remaining * RAY
    ensures factor <= RAY && (remaining == 0 ==> factor <= 0)
  {
    MulMono(remaining, total, RAY);
    CancelLe(factor, RAY, total);
    if remaining == 0 { CancelLe(factor, 0, total); }
  }

  lemma WriteDownProduct(S: int, i: int, index: int, factor: int, remaining: int, total: int)
    requires S >= 0 && i >= 0 && total > 0
    requires index * RAY <= i * factor && factor * total <= remaining * RAY
    ensures S * index * total <= S * i * remaining
  {
    MulMono(index * RAY, i * factor, total);
    MulMono(factor * total, remaining * RAY, i);
    assert (i * factor) * total == i * (factor * total);
    assert (index * RAY) * total == (index * total) * RAY && i * (remaining * RAY) == (i * remaining) * RAY;
    CancelLe(index * total, i * remaining, RAY);
    MulMono(index * total, i * remaining, S);
    assert S * (index * total) == S * index * total && S * (i * remaining) == S * i * remaining;
  }

  /** Bad debt moves the index down, never through the floor; and while the floor does not bind,
      the supply revalued half up is at most what was left after the capped bad debt. */
  lemma WriteDownCoversBadDebt(s: State, badDebt: int)
    requires s.Valid() && badDebt >= 0 && WriteDown(s, badDebt).Ok?
    ensures var index, total := WriteDown(s, badDebt).value, HalfUp(s.supplied * s.supplyIndex, RAY);
      && SUPPLY_INDEX_FLOOR <= index <= s.supplyIndex
      && (!FloorBinds(s, badDebt) ==>
          && badDebt < total
          && HalfUp(s.supplied * index, RAY) <= total - badDebt
          && 2 * (badDebt * RAY) - RAY <= 2 * (s.supplied * s.supplyIndex - s.supplied * index))
  {
    var total := HalfUp(s.supplied * s.supplyIndex, RAY);
    MulNonNeg(s.supplied, s.supplyIndex);
    FloorNonNeg(s.supplied * s.supplyIndex, RAY);
    if total > 0 {
      ProportionalBounds(s, badDebt, total);
      if !FloorBinds(s, badDebt) {
        var index := WriteDown(s, badDebt).value;
        HalfUpBounds(s.supplied * s.supplyIndex, RAY);
        Revalued(s.supplied * index, s.supplied * s.supplyIndex, total, total - badDebt);
        WrittenOff(s.supplied * index, s.supplied * s.supplyIndex, total, total - badDebt);
        HalfUpLe(total - badDebt, s.supplied * index, RAY);
      }
    }
  }

  lemma Revalued(after: int, before: int, total: int, remaining: int)
    requires 0 < remaining <= total && after * total <= before * remaining
    requires 2 * before < 2 * total * RAY + RAY
    ensures 2 * after < 2 * remaining * RAY + RAY
  {
    MulMono(2 * before + 1, 2 * total * RAY + RAY, remaining);
    MulMono(remaining, total, RAY);
    RevaluedIdentities(after, before, total, remaining);
    CancelLt(2 * after, 2 * remaining * RAY + RAY, total);
  }

  lemma RevaluedIdentities(after: int, before: int, total: int, remaining: int)
    ensures (2 * before + 1) * remaining == 2 * (before * remaining) + remaining
    ensures (2 * total * RAY + RAY) * remaining == 2 * RAY * (remaining * total) + RAY * remaining
    ensures (2 * remaining * RAY + RAY) * total == 2 * RAY * (remaining * total) + RAY * total
    ensures (2 * after) * total == 2 * (after * total)
  {
  }

  lemma WrittenOff(after: int, before: int, total: int, remaining: int)
    requires 0 < remaining <= total && after * total <= before * remaining
    requires 2 * total * RAY - RAY <= 2 * before
    ensures 2 * ((total - remaining) * RAY) - RAY <= 2 * (before - after)
  {
    var c := total - remaining;
    MulMono(2 * total * RAY - RAY, 2 * before, c);
    MulMono(c, total, RAY);
    WrittenOffIdentities(after, before, total, remaining, c);
    CancelLe(2 * (c * RAY) - RAY, 2 * (before - after), total);
  }

  lemma WrittenOffIdentities(after: int, before: int, total: int, remaining: int, c: int)
    requires c == total - remaining
    ensures (2 * total * RAY - RAY) * c == 2 * RAY * (c * total) - RAY * c
    ensures (2 * before) * c == 2 * (before * total) - 2 * (before * remaining)
    ensures (2 * (before - after)) * total == 2 * (before * total) - 2 * (after * total)
    ensures (2 * (c * RAY) - RAY) * total == 2 * RAY * (c * total) - RAY * total
  {
  }

  /** The supply index a write-down leaves when the floor stops it, or there is no value to write down. */
  function Stopped(s: State): int {
    if HalfUp(s.supplied * s.supplyIndex, RAY) == 0 then s.supplyIndex else SUPPLY_INDEX_FLOOR
  }

  /** Exactly what a bad-debt seizure does to the surplus: the debt goes at its exact value, and the
      suppliers' claims shrink with the index. */
  lemma SeizeBorrowExact(p: Params, s: State, position: int)
    requires p.Valid() && s.Valid() && SeizeBorrowLeg(s, position).Ok?
    ensures var t := SeizeBorrowLeg(s, position).value.state;
      && t.Valid() && position >= 0 && SUPPLY_INDEX_FLOOR <= t.supplyIndex <= s.supplyIndex
      && Surplus(p, t) - Surplus(p, s) == s.supplied * (s.supplyIndex - t.supplyIndex) - position * s.borrowIndex
      && (FloorBinds(s, Ceil(position * s.borrowIndex, RAY)) ==> t.supplyIndex == Stopped(s))
  {
    var t, badDebt := SeizeBorrowLeg(s, position).value.state, Ceil(position * s.borrowIndex, RAY);
    MulNonNeg(position, s.borrowIndex);
    CeilNonNeg(position * s.borrowIndex, RAY);
    WriteDownCoversBadDebt(s, badDebt);
    SeizedScalars(s.supplied, s.supplyIndex, t.supplyIndex, s.borrowed, position, s.borrowIndex);
  }

  lemma SeizedScalars(supplied: int, before: int, after: int, borrowed: int, position: int, index: int)
    ensures supplied * (before - after) == supplied * before - supplied * after
    ensures (borrowed - position) * index == borrowed * index - position * index
  {
  }

  /** A write-down that the floor does not stop costs at most half a raw ray of surplus. */
  lemma SeizeBorrowLeak(p: Params, s: State, position: int)
    requires p.Valid() && s.Valid() && SeizeBorrowLeg(s, position).Ok?
    requires !FloorBinds(s, Ceil(position * s.borrowIndex, RAY))
    ensures 2 * Surplus(p, s) - RAY <= 2 * Surplus(p, SeizeBorrowLeg(s, position).value.state)
  {
    var t, badDebt := SeizeBorrowLeg(s, position).value.state, Ceil(position * s.borrowIndex, RAY);
    SeizeBorrowExact(p, s, position);
    MulNonNeg(position, s.borrowIndex);
    CeilNonNeg(position * s.borrowIndex, RAY);
    CeilBounds(position * s.borrowIndex, RAY);
    WriteDownCoversBadDebt(s, badDebt);
    SeizedScalars(s.supplied, s.supplyIndex, t.supplyIndex, s.borrowed, position, s.borrowIndex);
  }

  /** What a stopped write-down leaves uncovered: the debt less what the suppliers gave up. */
  function Uncovered(s: State, position: int): int {
    position * s.borrowIndex - s.supplied * (s.supplyIndex - Stopped(s))
  }

  /** A bad-debt seizure keeps the surplus to within half a raw ray exactly when the floor does not
      stop the write-down, or the write-down down to the floor already covers the debt. */
  lemma SeizeBorrowKeepsIff(p: Params, s: State, position: int)
    requires p.Valid() && s.Valid() && SeizeBorrowLeg(s, position).Ok?
    ensures 2 * Surplus(p, s) - RAY <= 2 * Surplus(p, SeizeBorrowLeg(s, position).value.state) <==>
      (FloorBinds(s, Ceil(position * s.borrowIndex, RAY)) ==> 2 * Uncovered(s, position) <= RAY)
  {
    SeizeBorrowExact(p, s, position);
    if !FloorBinds(s, Ceil(position * s.borrowIndex, RAY)) { SeizeBorrowLeak(p, s, position); }
  }

  /** There is no bound on that loss: a market already at the index floor loses the whole of every
      debt that is seized in it. */
  lemma FlooredMarketLosesWholeDebt(p: Params, s: State, position: int)
    requires p.Valid() && s.Valid() && s.supplyIndex == SUPPLY_INDEX_FLOOR && SeizeBorrowLeg(s, position).Ok?
    ensures Surplus(p, SeizeBorrowLeg(s, position).value.state) == Surplus(p, s) - position * s.borrowIndex
  {
    SeizeBorrowExact(p, s, position);
  }

  /** Such markets exist for every debt up to a thousandth of the share range: a market at the index
      floor, exactly backed by one debt of any size, which is then seized. */
  lemma FlooredWriteDownLosesSurplus(debt: int)
    requires 0 < debt <= I128_MAX / 1_000
    ensures var p, s := Params(18, RAY, 0, 0, false), State(1_000 * debt, debt, 0, RAY, SUPPLY_INDEX_FLOOR, 0);
      && s.Valid() && Surplus(p, s) == 0
      && SeizeBorrowLeg(s, debt).Ok? && Surplus(p, SeizeBorrowLeg(s, debt).value.state) == -(debt * RAY)
  {
    var p, s := Params(18, RAY, 0, 0, false), State(1_000 * debt, debt, 0, RAY, SUPPLY_INDEX_FLOOR, 0);
    assert s.supplied * s.supplyIndex == debt * RAY;
    HalfUpUnique(debt, debt * RAY, RAY);
    CeilUnique(debt, debt * RAY, RAY);
    assert SeizeBorrowLeg(s, debt).Ok?;
    FlooredMarketLosesWholeDebt(p, s, debt);
  }

  // ----- accrual

  /** One accrual chunk costs less than two raw rays of surplus and lowers neither index. */
  lemma AccrueLeak(p: Params, s: State, factor: int)
    requires p.Valid() && s.Valid() && factor >= RAY
    ensures AccrueLegBy(p, s, factor).Ok? ==>
      var t := AccrueLegBy(p, s, factor).value.state;
      && t.Valid() && s.supplyIndex <= t.supplyIndex && s.borrowIndex <= t.borrowIndex
      && Surplus(p, s) - 2 * RAY < Surplus(p, t)
  {
    if AccrueLegBy(p, s, factor).Err? { return; }
    AccrualLeaksLessThanTwo(factor, p.reserveBps, s.borrowed, s.supplied, s.borrowIndex, s.supplyIndex);
    BorrowIndexGrows(s.borrowIndex, factor);
    AccruedSurplus(p, s, AccrueLegBy(p, s, factor).value.state);
  }

  lemma AccruedSurplus(p: Params, s: State, t: State)
    requires p.Valid() && t.cash == s.cash && t.borrowed == s.borrowed
    requires t.supplied * t.supplyIndex - s.supplied * s.supplyIndex < s.borrowed * (t.borrowIndex - s.borrowIndex) + 2 * RAY
    ensures Surplus(p, s) - 2 * RAY < Surplus(p, t)
  {
    assert s.borrowed * (t.borrowIndex - s.borrowIndex) == s.borrowed * t.borrowIndex - s.borrowed * s.borrowIndex;
  }

  /** `t` is `s` after interest, short of conserving surplus by at most `leak` raw rays. */
  ghost predicate Accrued(p: Params, s: State, t: State, leak: int)
    requires p.Valid()
  {
    && t.Valid() && s.supplyIndex <= t.supplyIndex && s.borrowIndex <= t.borrowIndex
    && t.cash == s.cash && t.borrowed == s.borrowed
    && Surplus(p, s) - leak * RAY <= Surplus(p, t)
  }

  lemma AccruedTwice(p: Params, s: State, t: State, u: State, leak: int, more: int)
    requires p.Valid() && Accrued(p, s, t, leak) && Accrued(p, t, u, more)
    ensures Accrued(p, s, u, leak + more)
  {
  }

  lemma WindowLeak(p: Params, curve: State -> Result<int>, s: State, window: nat)
    requires p.Valid() && s.Valid() && AccrueWindow(p, curve, s, window).Ok?
    ensures AccrueWindow(p, curve, s, window).value.Valid()
    ensures Accrued(p, s, AccrueWindow(p, curve, s, window).value, 2)
  {
    var rate := curve(s).value;
    Compound.CompoundAtLeastOne(rate, window);
    AccrueLeak(p, s, Compound.CompoundSpec(rate, window).value);
  }

  /** Catching up over any gap lowers neither index and costs at most two raw rays of surplus for
      each started window. */
  lemma {:induction false} SyncLeak(p: Params, curve: State -> Result<int>, s: State, elapsed: nat)
    requires p.Valid() && s.Valid() && Sync(p, curve, s, elapsed).Ok?
    ensures Accrued(p, s, Sync(p, curve, s, elapsed).value, 2 * Ceil(elapsed, MAX_COMPOUND_DELTA_MS))
    decreases elapsed
  {
    if elapsed != 0 {
      var window := NextWindow(elapsed);
      var next := AccrueWindow(p, curve, s, window).value;
      WindowLeak(p, curve, s, window);
      SyncLeak(p, curve, next, elapsed - window);
      OneWindowLess(elapsed);
      AccruedTwice(p, s, next, Sync(p, curve, s, elapsed).value, 2, 2 * Ceil(elapsed - window, MAX_COMPOUND_DELTA_MS));
    }
  }

  lemma OneWindowLess(elapsed: nat)
    requires elapsed > 0
    ensures Ceil(elapsed, MAX_COMPOUND_DELTA_MS) == 1 + Ceil(elapsed - NextWindow(elapsed), MAX_COMPOUND_DELTA_MS)
  {
  }

  // ----- runs

  function Advance(p: Params): (State, Op) -> Result<State>
    requires p.Valid()
  {
    (s: State, op: Op) => StateOf(Apply(p, s, op))
  }

  /** Twice the surplus one operation may lose, in raw units of `shares * index`: a bound on its
      roundings, and the exact loss for a write-down that the floor stops. */
  function Leak(s: State, op: Op): int {
    match op
    case Accrue(_, _) => 4 * RAY
    case SeizeBorrow(position) =>
      if FloorBinds(s, Ceil(position * s.borrowIndex, RAY)) then 2 * Uncovered(s, position) else RAY
    case _ => 0
  }

  lemma ApplyLeak(p: Params, s: State, op: Op)
    requires p.Valid() && s.Valid() && Apply(p, s, op).Ok?
    ensures Apply(p, s, op).value.state.Valid()
    ensures 2 * Surplus(p, s) - Leak(s, op) <= 2 * Surplus(p, Apply(p, s, op).value.state)
  {
    match op
    case Accrue(rate, deltaMs) =>
      Compound.CompoundAtLeastOne(rate, deltaMs);
      AccrueLeak(p, s, Compound.CompoundSpec(rate, deltaMs).value);
    case SeizeBorrow(position) =>
      SeizeBorrowExact(p, s, position);
      if !FloorBinds(s, Ceil(position * s.borrowIndex, RAY)) { SeizeBorrowLeak(p, s, position); }
    case _ => ApplyKeeps(p, s, op);
  }

  ghost function TwiceSurplus(p: Params): State -> int
    requires p.Valid()
  {
    s => 2 * Surplus(p, s)
  }

  ghost function ValidState(): State -> bool { (s: State) => s.Valid() }
  ghost function AnyStep(): (State, Op) -> bool { (s: State, op: Op) => true }
  ghost function LeakOf(): (State, Op) -> int { (s: State, op: Op) => Leak(s, op) }

  /** Over any run at all the surplus falls by at most two raw rays per accrual chunk, half a raw ray
      per write-down and the exact uncovered debt per write-down that the floor stops; no other
      operation can lower it, whatever the order and the amounts. */
  lemma RunKeepsSurplus(p: Params, s: State, ops: seq<Op>)
    requires p.Valid() && s.Valid() && Runs.Run(Advance(p), s, ops).Ok?
    ensures Runs.Run(Advance(p), s, ops).value.Valid()
    ensures 2 * Surplus(p, s) - Runs.TotalCost(Advance(p), LeakOf(), s, ops)
         <= 2 * Surplus(p, Runs.Run(Advance(p), s, ops).value)
  {
    EveryStepLeaks(p);
    Runs.AlwaysSteady(Advance(p), AnyStep(), s, ops);
    Runs.RunKeeps(Advance(p), AnyStep(), ValidState(), TwiceSurplus(p), LeakOf(), s, ops);
  }

  lemma EveryStepLeaks(p: Params)
    requires p.Valid()
    ensures Runs.StepKeeps(Advance(p), AnyStep(), ValidState(), TwiceSurplus(p), LeakOf())
  {
    forall s: State, op: Op | s.Valid() && Advance(p)(s, op).Ok?
      ensures Advance(p)(s, op).value.Valid()
      ensures 2 * Surplus(p, s) - Leak(s, op) <= 2 * Surplus(p, Advance(p)(s, op).value)
    {
      ApplyLeak(p, s, op);
    }
  }

  ghost function FixedIndexStep(): (State, Op) -> bool { (s: State, op: Op) => !op.Accrue? && !op.SeizeBorrow? }
  ghost function NoCost(): (State, Op) -> int { (s: State, op: Op) => 0 }
  ghost function SameIndexes(s: State): State -> bool {
    (t: State) => t.Valid() && t.supplyIndex == s.supplyIndex && t.borrowIndex == s.borrowIndex
  }

  lemma EveryFixedStepKeeps(p: Params, s: State)
    requires p.Valid()
    ensures Runs.StepKeeps(Advance(p), FixedIndexStep(), SameIndexes(s), TwiceSurplus(p), NoCost())
  {
    forall t: State, op: Op | t.Valid() && !op.Accrue? && !op.SeizeBorrow? && Advance(p)(t, op).Ok?
      ensures Keeps(p, t, Advance(p)(t, op).value)
    {
      ApplyKeeps(p, t, op);
    }
  }

  /** At fixed indexes a backed market stays backed through every run: the surplus never falls, so
      the pool's shortfall test stays at zero. */
  lemma BackedStaysBacked(p: Params, s: State, ops: seq<Op>)
    requires p.Valid() && s.Valid()
    requires Runs.Run(Advance(p), s, ops).Ok? && Runs.Steady(Advance(p), FixedIndexStep(), s, ops)
    ensures var t := Runs.Run(Advance(p), s, ops).value;
      && SameIndexes(s)(t)
      && Surplus(p, s) <= Surplus(p, t)
      && (0 <= Surplus(p, s) && BackingShortfall(p, t).Ok? ==> BackingShortfall(p, t).value == 0)
  {
    EveryFixedStepKeeps(p, s);
    Runs.RunKeeps(Advance(p), FixedIndexStep(), SameIndexes(s), TwiceSurplus(p), NoCost(), s, ops);
    Runs.FreeRun(Advance(p), NoCost(), s, ops);
    var t := Runs.Run(Advance(p), s, ops).value;
    if BackingShortfall(p, t).Ok? { ShortfallMeasuresSurplus(p, t); }
  }

  /** The pool's own shortfall test against the exact surplus: a nonnegative surplus shows no
      shortfall, and no shortfall means a deficit below one asset unit and one raw ray. */
  lemma ShortfallMeasuresSurplus(p: Params, s: State)
    requires p.Valid() && s.Valid() && BackingShortfall(p, s).Ok?
    ensures 0 <= Surplus(p, s) ==> BackingShortfall(p, s).value == 0
    ensures BackingShortfall(p, s).value == 0 ==> -(p.Unit() + RAY) < Surplus(p, s)
  {
    var claims, debt, k := Floor(s.supplied * s.supplyIndex, RAY), Ceil(s.borrowed * s.borrowIndex, RAY), Scale(p.decimals);
    FloorBounds(s.supplied * s.supplyIndex, RAY);
    CeilBounds(s.borrowed * s.borrowIndex, RAY);
    ShortfallScalars(s.cash, k, claims, debt, s.supplied * s.supplyIndex, s.borrowed * s.borrowIndex);
  }

  lemma ShortfallScalars(cash: int, k: int, claims: int, debt: int, owed: int, lent: int)
    requires cash >= 0 && k > 0 && claims * RAY <= owed < claims * RAY + RAY && debt * RAY - RAY < lent <= debt * RAY
    ensures 0 <= cash * (RAY * k) + lent - owed ==> claims <= debt || Floor(claims - debt, k) <= cash
    ensures claims <= debt || Floor(claims - debt, k) <= cash ==> -(RAY * k + RAY) < cash * (RAY * k) + lent - owed
  {
    assert cash * (RAY * k) == (cash * k) * RAY;
    MulNonNeg(cash, k);
    FloorGe(cash + 1, claims - debt, k);
    assert (cash + 1) * k == cash * k + k;
  }
}
