/** The pool's operations as the program runs them: load a cache from storage, mutate it step by
    step, commit. A panic leaves storage as it was. Each operation is proved to make exactly the
    ledger transition of the same name. */
module Pool {
  import opened Numbers
  import opened Scaling
  import opened Accrual
  import opened Ledger
  import FixedPoint
  import Compound

  /** In-memory working set of one market. */
  class Cache {
    const params: Params
    var supplied: int
    var borrowed: int
    var revenue: int
    var borrowIndex: int
    var supplyIndex: int
    var cash: int

    constructor Load(p: Params, s: State)
      ensures params == p && View() == s
    {
      params := p;
      supplied, borrowed, revenue := s.supplied, s.borrowed, s.revenue;
      borrowIndex, supplyIndex, cash := s.borrowIndex, s.supplyIndex, s.cash;
    }

    function View(): State
      reads this
    {
      State(supplied, borrowed, revenue, borrowIndex, supplyIndex, cash)
    }

    // shares

    method MintSupply(shares: int) returns (r: Result<bool>)
      modifies this`supplied
      ensures r.Ok? <==> FitsI128(old(supplied) + shares)
      ensures r.Ok? ==> supplied == old(supplied) + shares
      ensures r.Err? ==> r.error == MathOverflow
    {
      supplied :- Narrow(supplied + shares);
      return Ok(true);
    }

    method BurnSupply(shares: int) returns (r: Result<bool>)
      modifies this`supplied
      ensures match Ledger.BurnSupply(old(View()), shares)
        case Err(e) => r == Err(e)
        case Ok(next) => r.Ok? && View() == next
    {
      supplied :- CheckedSub(supplied, shares);
      if revenue > supplied {
        return Err(InternalError);
      }
      return Ok(true);
    }

    method MintDebtShares(shares: int) returns (r: Result<bool>)
      modifies this`borrowed
      ensures r.Ok? <==> FitsI128(old(borrowed) + shares)
      ensures r.Ok? ==> borrowed == old(borrowed) + shares
      ensures r.Err? ==> r.error == MathOverflow
    {
      borrowed :- Narrow(borrowed + shares);
      return Ok(true);
    }

    method BurnDebt(shares: int) returns (r: Result<bool>)
      modifies this`borrowed
      ensures match Ledger.BurnDebt(old(View()), shares)
        case Err(e) => r == Err(e)
        case Ok(next) => r.Ok? && View() == next
    {
      borrowed :- CheckedSub(borrowed, shares);
      return Ok(true);
    }

    method AccrueRevenue(shares: int) returns (r: Result<bool>)
      modifies this`revenue, this`supplied
      ensures r.Ok? <==> FitsI128(old(revenue) + shares) && FitsI128(old(supplied) + shares)
      ensures r.Ok? ==> revenue == old(revenue) + shares && supplied == old(supplied) + shares
      ensures r.Err? ==> r.error == MathOverflow
    {
      revenue :- Narrow(revenue + shares);
      supplied :- Narrow(supplied + shares);
      return Ok(true);
    }

    method AddProtocolRevenue(fee: int) returns (r: Result<bool>)
      modifies this`revenue, this`supplied
      ensures match Ledger.AddRevenue(old(View()), fee)
        case Err(e) => r == Err(e)
        case Ok(next) => r.Ok? && View() == next
    {
      if fee == 0 {
        return Ok(true);
      }
      var shares :- FeeShares(fee, supplyIndex, supplied);
      r := AccrueRevenue(shares);
    }

    // cash

    method CreditCash(amount: int) returns (r: Result<bool>)
      modifies this`cash
      ensures match Ledger.Credit(old(View()), amount)
        case Err(e) => r == Err(e)
        case Ok(next) => r.Ok? && View() == next
    {
      if amount < 0 {
        return Err(AmountMustBePositive);
      }
      cash :- Narrow(cash + amount);
      return Ok(true);
    }

    method DebitCash(amount: int) returns (r: Result<bool>)
      modifies this`cash
      ensures match Ledger.Debit(old(View()), amount)
        case Err(e) => r == Err(e)
        case Ok(next) => r.Ok? && View() == next
    {
      if amount < 0 {
        return Err(AmountMustBePositive);
      }
      if cash < amount {
        return Err(InsufficientLiquidity);
      }
      cash := cash - amount;
      return Ok(true);
    }

    /** Mints debt for `amount` and returns the caller's new position. */
    method MintDebt(position: int, amount: int) returns (r: Result<int>)
      requires params.Valid()
      modifies this`borrowed
      ensures match Ledger.MintDebt(params, old(View()), position, amount)
        case Err(e) => r == Err(e)
        case Ok(minted) => r == Ok(minted.position) && View() == minted.state
    {
      if amount <= 0 {
        return Err(AmountMustBePositive);
      }
      if cash < amount {
        return Err(InsufficientLiquidity);
      }
      var _ :- CheckBuffer(params, View(), amount);
      var minted :- ScaledCeil(amount, params.decimals, borrowIndex);
      if minted <= 0 {
        return Err(RoundsToZeroShares);
      }
      var held :- Narrow(position + minted);
      var _ :- MintDebtShares(minted);
      var _ :- CheckUtilization(params, View());
      return Ok(held);
    }

    /** Burns revenue shares up to the available cash and returns the asset amount. */
    method BurnClaimableRevenue() returns (r: Result<int>)
      requires params.Valid()
      modifies this`revenue, this`supplied
      ensures match BurnClaimable(params, old(View()))
        case Err(e) => r == Err(e)
        case Ok(claim) => r == Ok(claim.net) && View() == claim.state
    {
      var treasury :- UnscaleFloor(revenue, supplyIndex, params.decimals);
      var amount := Min(cash, treasury);
      if amount <= 0 {
        return Ok(0);
      }
      var burned;
      if amount >= treasury {
        burned := revenue;
      } else {
        burned :- FixedPoint.MulCeil(revenue, amount, treasury);
      }
      if burned == 0 {
        return Err(InternalError);
      }
      revenue :- CheckedSub(revenue, burned);
      supplied :- CheckedSub(supplied, burned);
      return Ok(amount);
    }

    method ApplyBadDebt(badDebt: int) returns (r: Result<bool>)
      modifies this`supplyIndex
      ensures match Ledger.WriteDown(old(View()), badDebt)
        case Err(e) => r == Err(e)
        case Ok(index) => r.Ok? && View() == old(View()).(supplyIndex := index)
    {
      var total :- FixedPoint.MulHalfUp(supplied, supplyIndex, RAY);
      if total == 0 {
        return Ok(true);
      }
      var capped := Min(badDebt, total);
      var remaining :- CheckedSub(total, capped);
      var factor :- FixedPoint.MulFloor(remaining, RAY, total);
      var index :- FixedPoint.MulFloor(supplyIndex, factor, RAY);
      supplyIndex := Max(index, SUPPLY_INDEX_FLOOR);
      return Ok(true);
    }

    method AccrueChunk(rate: int, deltaMs: nat) returns (r: Result<bool>)
      modifies this
      ensures match AccrueLeg(params, old(View()), rate, deltaMs)
        case Err(e) => r == Err(e)
        case Ok(out) => r.Ok? && View() == out.state
    {
      var factor :- Compound.CompoundSpec(rate, deltaMs);
      var step :- AccrueBy(factor, params.reserveBps, borrowed, supplied, borrowIndex, supplyIndex);
      borrowIndex := step.borrowIndex;
      supplyIndex := step.supplyIndex;
      var _ :- AccrueRevenue(step.revenueShares);
      return Ok(true);
    }

    method GlobalSync(curve: State -> Result<int>, elapsed: nat) returns (r: Result<bool>)
      modifies this
      ensures match Sync(params, curve, old(View()), elapsed)
        case Err(e) => r == Err(e)
        case Ok(next) => r.Ok? && View() == next
    {
      var remaining := elapsed;
      while remaining != 0
        invariant 0 <= remaining
        invariant Sync(params, curve, View(), remaining) == Sync(params, curve, old(View()), elapsed)
      {
        var window := NextWindow(remaining);
        var rate :- curve(View());
        var _ :- AccrueChunk(rate, window);
        remaining := remaining - window;
      }
      return Ok(true);
    }
  }

  /** A valid market stays valid, and loses at most half of `leak` of its surplus. */
  ghost predicate Kept(p: Params, before: State, after: State, leak: int)
    requires p.Valid()
  {
    before.Valid() ==> after.Valid() && 2 * Surplus(p, before) - leak <= 2 * Surplus(p, after)
  }

  /** One stored market. */
  class Market {
    const params: Params
    var stored: State

    constructor (p: Params, s: State)
      ensures params == p && stored == s
    {
      params, stored := p, s;
    }

    method Supply(position: int, amount: int) returns (r: Result<Outcome>)
      requires params.Valid()
      modifies this
      ensures r == SupplyLeg(params, old(stored), position, amount)
      ensures stored == if r.Ok? then r.value.state else old(stored)
      ensures Kept(params, old(stored), stored, 0)
    {
      if amount < 0 || position < 0 {
        return Err(AmountMustBePositive);
      }
      var cache := new Cache.Load(params, stored);
      var shortfall :- BackingShortfall(params, cache.View());
      if shortfall != 0 {
        return Err(PoolInsolvent);
      }
      var minted :- ScaledFloor(amount, params.decimals, cache.supplyIndex);
      if amount != 0 && minted <= 0 {
        return Err(RoundsToZeroShares);
      }
      var held :- Narrow(position + minted);
      var _ :- cache.MintSupply(minted);
      var _ :- cache.CreditCash(amount);
      if stored.Valid() { SupplyKeeps(params, stored, position, amount); }
      stored := cache.View();
      return Ok(Outcome(stored, held, 0, amount, 0));
    }

    method Borrow(position: int, amount: int) returns (r: Result<Outcome>)
      requires params.Valid()
      modifies this
      ensures r == BorrowLeg(params, old(stored), position, amount)
      ensures stored == if r.Ok? then r.value.state else old(stored)
      ensures Kept(params, old(stored), stored, 0)
    {
      if amount < 0 || position < 0 {
        return Err(AmountMustBePositive);
      }
      var cache := new Cache.Load(params, stored);
      var held :- cache.MintDebt(position, amount);
      var _ :- cache.DebitCash(amount);
      if stored.Valid() { BorrowKeeps(params, stored, position, amount); }
      stored := cache.View();
      return Ok(Outcome(stored, held, 0, amount, amount));
    }

    method Withdraw(position: int, amount: int, liquidation: bool, fee: int) returns (r: Result<Outcome>)
      requires params.Valid()
      modifies this
      ensures r == WithdrawLeg(params, old(stored), position, amount, liquidation, fee)
      ensures stored == if r.Ok? then r.value.state else old(stored)
      ensures Kept(params, old(stored), stored, 0)
    {
      if fee < 0 || amount < 0 || position < 0 {
        return Err(AmountMustBePositive);
      }
      var cache := new Cache.Load(params, stored);
      var resolved :- ResolveWithdrawal(amount, position, cache.supplyIndex, params.decimals);
      if resolved.paid != 0 && resolved.burned <= 0 {
        return Err(RoundsToZeroShares);
      }
      var _ :- cache.BurnSupply(resolved.burned);
      var left :- CheckedSub(position, resolved.burned);
      var net := resolved.paid;
      if liquidation && fee != 0 {
        if resolved.paid < fee {
          return Err(WithdrawLessThanFee);
        }
        var ray :- FromAsset(fee, params.decimals);
        var _ :- cache.AddProtocolRevenue(ray);
        net := resolved.paid - fee;
      }
      if cache.cash < net {
        return Err(InsufficientLiquidity);
      }
      var emptyClose := position == 0 && amount == I128_MAX;
      if !(liquidation || emptyClose) {
        var _ :- CheckUtilization(params, cache.View());
      }
      var _ :- CheckSupplyForDebt(cache.View());
      var _ :- cache.DebitCash(net);
      r := Ok(Outcome(cache.View(), left, 0, resolved.paid, net));
      assert r == WithdrawLeg(params, stored, position, amount, liquidation, fee);
      if stored.Valid() { WithdrawKeeps(params, stored, position, amount, liquidation, fee); }
      stored := cache.View();
    }

    method Repay(position: int, amount: int) returns (r: Result<Outcome>)
      requires params.Valid()
      modifies this
      ensures r == RepayLeg(params, old(stored), position, amount)
      ensures stored == if r.Ok? then r.value.state else old(stored)
      ensures Kept(params, old(stored), stored, 0)
    {
      if amount < 0 || position < 0 {
        return Err(AmountMustBePositive);
      }
      var cache := new Cache.Load(params, stored);
      var resolved :- ResolveRepay(amount, position, cache.borrowIndex, params.decimals);
      var net :- Narrow(amount - resolved.overpayment);
      if net != 0 && resolved.burned <= 0 {
        return Err(RoundsToZeroShares);
      }
      var left :- CheckedSub(position, resolved.burned);
      var _ :- cache.BurnDebt(resolved.burned);
      var _ :- cache.CreditCash(net);
      if stored.Valid() { RepayKeeps(params, stored, position, amount); }
      stored := cache.View();
      return Ok(Outcome(stored, left, 0, net, resolved.overpayment));
    }

    method NetSettle(amount: int, supplyPosition: int, debtPosition: int) returns (r: Result<Outcome>)
      requires params.Valid()
      modifies this
      ensures r == NetSettleLeg(params, old(stored), amount, supplyPosition, debtPosition)
      ensures stored == if r.Ok? then r.value.state else old(stored)
      ensures Kept(params, old(stored), stored, 0)
    {
      if amount < 0 || supplyPosition < 0 || debtPosition < 0 {
        return Err(AmountMustBePositive);
      }
      var cache := new Cache.Load(params, stored);
      var resolved :- ResolveNetSettle(amount, supplyPosition, debtPosition, cache.supplyIndex, cache.borrowIndex, params.decimals);
      if resolved.settled != 0 && (resolved.burnedSupply <= 0 || resolved.burnedDebt <= 0) {
        return Err(RoundsToZeroShares);
      }
      var _ :- cache.BurnSupply(resolved.burnedSupply);
      var _ :- cache.BurnDebt(resolved.burnedDebt);
      var _ :- CheckSupplyForDebt(cache.View());
      var supplyLeft :- CheckedSub(supplyPosition, resolved.burnedSupply);
      var debtLeft :- CheckedSub(debtPosition, resolved.burnedDebt);
      if stored.Valid() { NetSettleKeeps(params, stored, amount, supplyPosition, debtPosition); }
      stored := cache.View();
      return Ok(Outcome(stored, supplyLeft, debtLeft, resolved.settled, 0));
    }

    method OpenStrategy(position: int, amount: int, chargeFee: bool) returns (r: Result<Outcome>)
      requires params.Valid()
      modifies this
      ensures r == StrategyLeg(params, old(stored), position, amount, chargeFee)
      ensures stored == if r.Ok? then r.value.state else old(stored)
      ensures Kept(params, old(stored), stored, 0)
    {
      if amount < 0 || position < 0 {
        return Err(AmountMustBePositive);
      }
      var cache := new Cache.Load(params, stored);
      var fee := 0;
      if chargeFee {
        fee :- FlashFee(params.flashFeeBps, amount);
      }
      if fee > amount {
        return Err(StrategyFeeExceeds);
      }
      var held :- cache.MintDebt(position, amount);
      var ray :- FromAsset(fee, params.decimals);
      var _ :- cache.AddProtocolRevenue(ray);
      var _ :- cache.DebitCash(amount - fee);
      if stored.Valid() { StrategyKeeps(params, stored, position, amount, chargeFee); }
      stored := cache.View();
      return Ok(Outcome(stored, held, 0, amount, amount - fee));
    }

    method FlashLoan(amount: int) returns (r: Result<Outcome>)
      requires params.Valid()
      modifies this
      ensures r == FlashLeg(params, old(stored), amount)
      ensures stored == if r.Ok? then r.value.state else old(stored)
      ensures Kept(params, old(stored), stored, 0)
    {
      if amount <= 0 {
        return Err(AmountMustBePositive);
      }
      if !params.flashloanable {
        return Err(FlashloanNotEnabled);
      }
      var cache := new Cache.Load(params, stored);
      if cache.cash < amount {
        return Err(InsufficientLiquidity);
      }
      var fee :- FlashFee(params.flashFeeBps, amount);
      var _ :- Narrow(amount + fee);
      var ray :- FromAsset(fee, params.decimals);
      var _ :- cache.AddProtocolRevenue(ray);
      var _ :- cache.CreditCash(fee);
      if stored.Valid() { FlashKeeps(params, stored, amount); }
      stored := cache.View();
      return Ok(Outcome(stored, 0, 0, fee, 0));
    }

    method ClaimRevenue() returns (r: Result<Outcome>)
      requires params.Valid()
      modifies this
      ensures r == ClaimLeg(params, old(stored))
      ensures stored == if r.Ok? then r.value.state else old(stored)
      ensures Kept(params, old(stored), stored, 0)
    {
      var cache := new Cache.Load(params, stored);
      var net :- cache.BurnClaimableRevenue();
      var _ :- CheckUtilization(params, cache.View());
      var _ :- CheckSupplyForDebt(cache.View());
      var _ :- cache.DebitCash(net);
      if stored.Valid() { ClaimKeeps(params, stored); }
      stored := cache.View();
      return Ok(Outcome(stored, 0, 0, net, net));
    }

    method Recapitalize(amount: int) returns (r: Result<Outcome>)
      requires params.Valid()
      modifies this
      ensures r == RecapitalizeLeg(params, old(stored), amount)
      ensures stored == if r.Ok? then r.value.state else old(stored)
      ensures Kept(params, old(stored), stored, 0)
    {
      if amount < 0 {
        return Err(AmountMustBePositive);
      }
      var cache := new Cache.Load(params, stored);
      var shortfall :- BackingShortfall(params, cache.View());
      var applied := Min(amount, shortfall);
      var refund := amount - applied;
      var _ :- cache.CreditCash(applied);
      if stored.Valid() { RecapitalizeKeeps(params, stored, amount); }
      stored := cache.View();
      return Ok(Outcome(stored, 0, 0, applied, refund));
    }

    method SeizeDeposit(position: int) returns (r: Result<Outcome>)
      requires params.Valid()
      modifies this
      ensures r == SeizeDepositLeg(old(stored), position)
      ensures stored == if r.Ok? then r.value.state else old(stored)
      ensures Kept(params, old(stored), stored, 0)
    {
      if position < 0 {
        return Err(AmountMustBePositive);
      }
      var cache := new Cache.Load(params, stored);
      cache.revenue :- Narrow(cache.revenue + position);
      if cache.revenue > cache.supplied {
        return Err(InternalError);
      }
      if stored.Valid() { SeizeDepositKeeps(params, stored, position); }
      stored := cache.View();
      return Ok(Outcome(stored, 0, 0, 0, 0));
    }

    method SeizeBorrow(position: int) returns (r: Result<Outcome>)
      requires params.Valid()
      modifies this
      ensures r == SeizeBorrowLeg(old(stored), position)
      ensures stored == if r.Ok? then r.value.state else old(stored)
      ensures Kept(params, old(stored), stored, if r.Ok? then Leak(old(stored), Ledger.Op.SeizeBorrow(position)) else 0)
    {
      if position < 0 {
        return Err(AmountMustBePositive);
      }
      var cache := new Cache.Load(params, stored);
      var badDebt :- FixedPoint.MulCeil(position, cache.borrowIndex, RAY);
      var _ :- cache.ApplyBadDebt(badDebt);
      var _ :- cache.BurnDebt(position);
      if stored.Valid() { ApplyLeak(params, stored, Ledger.Op.SeizeBorrow(position)); }
      stored := cache.View();
      return Ok(Outcome(stored, 0, 0, 0, 0));
    }
  }
}
