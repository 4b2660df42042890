/** Model of one interest-accrual step: index growth, the split of accrued interest between
    suppliers and the protocol, and how much backing the chained roundings can leak. */
module Accrual {
  import opened Numbers
  import opened Rounding
  import FixedPoint

  const MAX_INDEX_RAY: int := 1_000_000_000_000_000_000_000_000_000_000_000_000

  datatype Step = Step(borrowIndex: int, supplyIndex: int, revenueShares: int)
  datatype Split = Split(supplierRewards: int, protocolFee: int)

  /** Saturating floor of `x * y / d`, and a panic for a zero divisor. */
  function SaturatingFloor(x: int, y: int, d: int): Result<int> {
    if d == 0 then Err(DivisionByZero) else Ok(Max(I128_MIN, Min(I128_MAX, Floor(x * y, d))))
  }

  function UpdateBorrowIndex(index: int, factor: int): Result<int> {
    var grown :- FixedPoint.MulHalfUp(index, factor, RAY);
    Ok(Min(grown, MAX_INDEX_RAY))
  }

  function UpdateSupplyIndex(supplied: int, index: int, rewards: int): Result<int> {
    if supplied == 0 || rewards == 0 then Ok(index)
    else
      var total :- FixedPoint.MulHalfUp(supplied, index, RAY);
      if total == 0 then Ok(index)
      else
        var value :- Narrow(total + rewards);
        var grown :- SaturatingFloor(value, RAY, supplied);
        Ok(Max(Min(grown, MAX_INDEX_RAY), Min(index, MAX_INDEX_RAY)))
  }

  function RewardShortfall(supplied: int, index: int, next: int, rewards: int): Result<int> {
    var after :- FixedPoint.MulHalfUp(supplied, next, RAY);
    var before :- FixedPoint.MulHalfUp(supplied, index, RAY);
    var distributed :- CheckedSub(after, before);
    CheckedSub(rewards, distributed)
  }

  function SupplierRewards(borrowed: int, next: int, index: int, reserveBps: int): Result<Split> {
    var before :- FixedPoint.MulHalfUp(borrowed, index, RAY);
    var after :- FixedPoint.MulHalfUp(borrowed, next, RAY);
    var accrued :- CheckedSub(after, before);
    var fee :- FixedPoint.MulHalfUp(accrued, reserveBps, BPS);
    var rewards :- CheckedSub(accrued, fee);
    Ok(Split(rewards, fee))
  }

  /** Fee shares: floored at the supply index, saturating, and capped so that adding them to
      `supplied` stays in range. */
  function FeeShares(fee: int, supplyIndex: int, supplied: int): Result<int> {
    var raw :- SaturatingFloor(fee, RAY, supplyIndex);
    Ok(Min(raw, Min(I128_MAX, I128_MAX - supplied)))
  }

  /** One accrual step once the growth factor is known. */
  function AccrueBy(factor: int, reserveBps: int, borrowed: int, supplied: int, borrowIndex: int, supplyIndex: int)
    : Result<Step>
  {
    var newBorrow :- UpdateBorrowIndex(borrowIndex, factor);
    var split :- SupplierRewards(borrowed, newBorrow, borrowIndex, reserveBps);
    var newSupply :- UpdateSupplyIndex(supplied, supplyIndex, split.supplierRewards);
    var shortfall :- RewardShortfall(supplied, supplyIndex, newSupply, split.supplierRewards);
    var reward :- Narrow(split.protocolFee + shortfall);
    var shares :- if reward == 0 then Ok(0) else FeeShares(reward, newSupply, supplied);
    Ok(Step(newBorrow, newSupply, shares))
  }

  lemma FeeSharesWorthAtMostFee(fee: int, supplyIndex: int, supplied: int)
    requires fee >= 0 && supplyIndex > 0 && 0 <= supplied <= I128_MAX
    ensures FeeShares(fee, supplyIndex, supplied).Ok?
    ensures var shares := FeeShares(fee, supplyIndex, supplied).value;
      0 <= shares <= I128_MAX - supplied && shares * supplyIndex <= fee * RAY
  {
    FloorNonNeg(fee * RAY, supplyIndex);
    FloorBounds(fee * RAY, supplyIndex);
    MulMono(FeeShares(fee, supplyIndex, supplied).value, Floor(fee * RAY, supplyIndex), supplyIndex);
  }

  /** The supply index never distributes more than the rewards: the program's checked subtraction
      of the distributed value cannot be what panics. */
  lemma DistributesAtMostRewards(supplied: int, index: int, rewards: int)
    requires supplied >= 0 && 0 < index <= MAX_INDEX_RAY && rewards >= 0
    requires UpdateSupplyIndex(supplied, index, rewards).Ok?
    ensures var next := UpdateSupplyIndex(supplied, index, rewards).value;
      && index <= next <= MAX_INDEX_RAY
      && HalfUp(supplied * index, RAY) <= HalfUp(supplied * next, RAY) <= HalfUp(supplied * index, RAY) + rewards
  {
    var next := UpdateSupplyIndex(supplied, index, rewards).value;
    MulMono(index, next, supplied);
    HalfUpMono(supplied * index, supplied * next, RAY);
    if next != index {
      var total := HalfUp(supplied * index, RAY);
      var grown := Floor((total + rewards) * RAY, supplied);
      FloorBounds((total + rewards) * RAY, supplied);
      MulMono(next, grown, supplied);
      HalfUpLe(total + rewards, supplied * next, RAY);
    }
  }

  /** Two half-up valuations differ from the exact growth by less than one ray. */
  lemma GrowthGap(shares: int, index: int, next: int)
    ensures var gap := HalfUp(shares * next, RAY) - HalfUp(shares * index, RAY);
      gap * RAY - RAY < shares * (next - index) < gap * RAY + RAY
  {
    HalfUpBounds(shares * index, RAY);
    HalfUpBounds(shares * next, RAY);
    assert shares * (next - index) == shares * next - shares * index;
  }

  /** One accrual step moves supplier and protocol claims by less than two raw ray units more than
      it moves debt, whatever the growth factor and the reserve factor. */
  lemma AccrualLeaksLessThanTwo(factor: int, reserveBps: int, borrowed: int, supplied: int, borrowIndex: int, supplyIndex: int)
    requires 0 <= supplied <= I128_MAX && 0 < supplyIndex <= MAX_INDEX_RAY
    ensures AccrueBy(factor, reserveBps, borrowed, supplied, borrowIndex, supplyIndex).Ok? ==>
      var step := AccrueBy(factor, reserveBps, borrowed, supplied, borrowIndex, supplyIndex).value;
      && supplyIndex <= step.supplyIndex <= MAX_INDEX_RAY
      && 0 <= step.revenueShares <= I128_MAX - supplied
      && (supplied + step.revenueShares) * step.supplyIndex - supplied * supplyIndex
         < borrowed * (step.borrowIndex - borrowIndex) + 2 * RAY
  {
    if AccrueBy(factor, reserveBps, borrowed, supplied, borrowIndex, supplyIndex).Err? { return; }
    var step := AccrueBy(factor, reserveBps, borrowed, supplied, borrowIndex, supplyIndex).value;
    var newBorrow, newSupply := step.borrowIndex, step.supplyIndex;
    var split := SupplierRewards(borrowed, newBorrow, borrowIndex, reserveBps).value;
    var shortfall := RewardShortfall(supplied, supplyIndex, newSupply, split.supplierRewards).value;
    DistributesAtMostRewards(supplied, supplyIndex, split.supplierRewards);
    FeeSharesWorthAtMostFee(split.protocolFee + shortfall, newSupply, supplied);
    RewardsAreAccrued(borrowed, newBorrow, borrowIndex, reserveBps);
    ShortfallIsUndistributed(supplied, supplyIndex, newSupply, split.supplierRewards);
    LeakScalars(borrowed, supplied, borrowIndex, newBorrow, supplyIndex, newSupply, step.revenueShares,
                split.supplierRewards, split.protocolFee, shortfall);
  }

  lemma RewardsAreAccrued(borrowed: int, next: int, index: int, reserveBps: int)
    ensures SupplierRewards(borrowed, next, index, reserveBps).Ok? ==>
      var split := SupplierRewards(borrowed, next, index, reserveBps).value;
      split.supplierRewards + split.protocolFee == HalfUp(borrowed * next, RAY) - HalfUp(borrowed * index, RAY)
  {
  }

  lemma ShortfallIsUndistributed(supplied: int, index: int, next: int, rewards: int)
    requires RewardShortfall(supplied, index, next, rewards).Ok?
    ensures RewardShortfall(supplied, index, next, rewards).value
         == rewards - (HalfUp(supplied * next, RAY) - HalfUp(supplied * index, RAY))
  {
  }

  lemma LeakScalars(borrowed: int, supplied: int, borrowIndex: int, newBorrow: int, supplyIndex: int, newSupply: int,
                    shares: int, rewards: int, fee: int, shortfall: int)
    requires rewards + fee == HalfUp(borrowed * newBorrow, RAY) - HalfUp(borrowed * borrowIndex, RAY)
    requires shortfall == rewards - (HalfUp(supplied * newSupply, RAY) - HalfUp(supplied * supplyIndex, RAY))
    requires shares * newSupply <= (fee + shortfall) * RAY
    ensures (supplied + shares) * newSupply - supplied * supplyIndex < borrowed * (newBorrow - borrowIndex) + 2 * RAY
  {
    GrowthGap(borrowed, borrowIndex, newBorrow);
    GrowthGap(supplied, supplyIndex, newSupply);
    Grown(supplied, shares, supplyIndex, newSupply);
  }

  lemma Grown(supplied: int, shares: int, index: int, next: int)
    ensures (supplied + shares) * next - supplied * index == shares * next + supplied * (next - index)
  {
  }

  /** With a factor of at least one the borrow index never falls. */
  lemma BorrowIndexGrows(index: int, factor: int)
    requires 0 < index <= MAX_INDEX_RAY && factor >= RAY && UpdateBorrowIndex(index, factor).Ok?
    ensures index <= UpdateBorrowIndex(index, factor).value <= MAX_INDEX_RAY
  {
    MulMono(RAY, factor, index);
    HalfUpGe(index, index * factor, RAY);
  }

  // ----- who gets the interest

  /** Interest accrued on the debt, as the two half-up valuations measure it. */
  function InterestOn(borrowed: int, index: int, next: int): int {
    HalfUp(borrowed * next, RAY) - HalfUp(borrowed * index, RAY)
  }

  /** The protocol's part is the nearest unit to the reserve factor of the accrued interest; the rest
      is the suppliers'. */
  lemma SplitFollowsReserve(borrowed: int, next: int, index: int, reserveBps: int)
    requires SupplierRewards(borrowed, next, index, reserveBps).Ok?
    ensures var split, accrued := SupplierRewards(borrowed, next, index, reserveBps).value, InterestOn(borrowed, index, next);
      && split.protocolFee == HalfUp(accrued * reserveBps, BPS) && split.supplierRewards == accrued - split.protocolFee
      && 2 * split.protocolFee * BPS - BPS <= 2 * (accrued * reserveBps) < 2 * split.protocolFee * BPS + BPS
  {
    HalfUpBounds(InterestOn(borrowed, index, next) * reserveBps, BPS);
  }

  /** Below the cap the supply index distributes the rewards but for one raw unit of it per share and
      half a ray. */
  lemma DistributesNearlyAll(supplied: int, index: int, rewards: int)
    requires supplied >= 0 && 0 < index <= MAX_INDEX_RAY && rewards >= 0 && HalfUp(supplied * index, RAY) > 0
    requires UpdateSupplyIndex(supplied, index, rewards).Ok? && UpdateSupplyIndex(supplied, index, rewards).value < MAX_INDEX_RAY
    ensures var next := UpdateSupplyIndex(supplied, index, rewards).value;
      2 * (rewards * RAY) - 2 * supplied - RAY <= 2 * (supplied * (next - index))
  {
    var next, total := UpdateSupplyIndex(supplied, index, rewards).value, HalfUp(supplied * index, RAY);
    HalfUpBounds(supplied * index, RAY);
    if rewards == 0 {
      assert next == index;
    } else {
      if supplied == 0 { HalfUpUnique(0, 0, RAY); }
      var grown := Floor((total + rewards) * RAY, supplied);
      FloorBounds((total + rewards) * RAY, supplied);
      DistributedScalars(supplied, index, next, grown, total, rewards);
    }
  }

  lemma DistributedScalars(supplied: int, index: int, next: int, grown: int, total: int, rewards: int)
    requires supplied > 0 && grown <= next && (total + rewards) * RAY < grown * supplied + supplied
    requires 2 * (supplied * index) < 2 * total * RAY + RAY
    ensures 2 * (rewards * RAY) - 2 * supplied - RAY <= 2 * (supplied * (next - index))
  {
    MulMono(grown, next, supplied);
    assert supplied * (next - index) == supplied * next - supplied * index;
  }

  /** Fee shares are worth the fee to within one share, unless the supply is at its limit. */
  lemma FeeSharesNearFee(fee: int, supplyIndex: int, supplied: int)
    requires fee >= 0 && supplyIndex > 0 && 0 <= supplied <= I128_MAX
    ensures FeeShares(fee, supplyIndex, supplied).Ok?
    ensures var shares := FeeShares(fee, supplyIndex, supplied).value;
      shares == I128_MAX - supplied || fee * RAY < shares * supplyIndex + supplyIndex
  {
    FloorNonNeg(fee * RAY, supplyIndex);
    FloorBounds(fee * RAY, supplyIndex);
  }

  /** What a step that leaves `next`, `index` and `shares` gives to whom. */
  predicate Splits(reserveBps: int, borrowed: int, supplied: int, borrowIndex: int, supplyIndex: int, next: int, index: int, shares: int) {
    var accrued := InterestOn(borrowed, borrowIndex, next);
    var fee, gain := HalfUp(accrued * reserveBps, BPS), supplied * (index - supplyIndex);
    && gain < (accrued - fee) * RAY + RAY
    && (index < MAX_INDEX_RAY && HalfUp(supplied * supplyIndex, RAY) > 0 ==>
          2 * ((accrued - fee) * RAY) - 2 * supplied - RAY <= 2 * gain)
    && gain + shares * index < accrued * RAY + RAY
    && (shares < I128_MAX - supplied ==> accrued * RAY - RAY - index < gain + shares * index)
  }

  /** One accrual step from below and above: suppliers gain the accrued interest less the reserve
      factor of it, the protocol the rest, each up to the roundings named. */
  lemma AccrualSplits(factor: int, reserveBps: int, borrowed: int, supplied: int, borrowIndex: int, supplyIndex: int)
    requires 0 <= supplied <= I128_MAX && 0 < supplyIndex <= MAX_INDEX_RAY
    requires AccrueBy(factor, reserveBps, borrowed, supplied, borrowIndex, supplyIndex).Ok?
    ensures var step := AccrueBy(factor, reserveBps, borrowed, supplied, borrowIndex, supplyIndex).value;
      Splits(reserveBps, borrowed, supplied, borrowIndex, supplyIndex, step.borrowIndex, step.supplyIndex, step.revenueShares)
  {
    var step := AccrueBy(factor, reserveBps, borrowed, supplied, borrowIndex, supplyIndex).value;
    PartsSplit(reserveBps, borrowed, supplied, borrowIndex, supplyIndex, step.borrowIndex, step.supplyIndex, step.revenueShares);
  }

  lemma PartsSplit(reserveBps: int, borrowed: int, supplied: int, borrowIndex: int, supplyIndex: int, next: int, index: int, shares: int)
    requires 0 <= supplied <= I128_MAX && 0 < supplyIndex <= MAX_INDEX_RAY && SupplierRewards(borrowed, next, borrowIndex, reserveBps).Ok?
    requires var split := SupplierRewards(borrowed, next, borrowIndex, reserveBps).value;
      && UpdateSupplyIndex(supplied, supplyIndex, split.supplierRewards) == Ok(index)
      && RewardShortfall(supplied, supplyIndex, index, split.supplierRewards).Ok?
      && var reward := split.protocolFee + RewardShortfall(supplied, supplyIndex, index, split.supplierRewards).value;
         if reward == 0 then shares == 0 else FeeShares(reward, index, supplied) == Ok(shares)
    ensures Splits(reserveBps, borrowed, supplied, borrowIndex, supplyIndex, next, index, shares)
  {
    var split := SupplierRewards(borrowed, next, borrowIndex, reserveBps).value;
    var shortfall := RewardShortfall(supplied, supplyIndex, index, split.supplierRewards).value;
    SplitFollowsReserve(borrowed, next, borrowIndex, reserveBps);
    DistributesAtMostRewards(supplied, supplyIndex, split.supplierRewards);
    if index < MAX_INDEX_RAY && HalfUp(supplied * supplyIndex, RAY) > 0 {
      DistributesNearlyAll(supplied, supplyIndex, split.supplierRewards);
    }
    ShortfallIsUndistributed(supplied, supplyIndex, index, split.supplierRewards);
    FeeSharesWorthAtMostFee(split.protocolFee + shortfall, index, supplied);
    FeeSharesNearFee(split.protocolFee + shortfall, index, supplied);
    GrowthGap(supplied, supplyIndex, index);
    SplitScalars(split.supplierRewards, split.protocolFee, shortfall, InterestOn(borrowed, borrowIndex, next),
                 HalfUp(supplied * index, RAY) - HalfUp(supplied * supplyIndex, RAY),
                 supplied * (index - supplyIndex), shares * index, index, shares < I128_MAX - supplied);
  }

  /** The parts added up: `gain` and `revenue` are the suppliers' and the protocol's raw growth. */
  lemma SplitScalars(rewards: int, fee: int, shortfall: int, accrued: int, distributed: int, gain: int, revenue: int, index: int, free: bool)
    requires rewards == accrued - fee && shortfall == rewards - distributed && distributed <= rewards
    requires distributed * RAY - RAY < gain < distributed * RAY + RAY && revenue <= (fee + shortfall) * RAY
    requires free ==> (fee + shortfall) * RAY < revenue + index
    ensures gain < (accrued - fee) * RAY + RAY && gain + revenue < accrued * RAY + RAY
    ensures free ==> accrued * RAY - RAY - index < gain + revenue
  {
  }

  /** The borrow index is its growth by the factor rounded half up, or the cap once that reaches it. */
  lemma BorrowIndexFollowsFactor(index: int, factor: int)
    requires UpdateBorrowIndex(index, factor).Ok?
    ensures var next := UpdateBorrowIndex(index, factor).value;
      if next < MAX_INDEX_RAY then 2 * next * RAY - RAY <= 2 * (index * factor) < 2 * next * RAY + RAY
      else next == MAX_INDEX_RAY && 2 * MAX_INDEX_RAY * RAY - RAY <= 2 * (index * factor)
  {
    HalfUpBounds(index * factor, RAY);
    HalfUpGe(MAX_INDEX_RAY, index * factor, RAY);
  }
}
