/** The whole effect of every ledger leg in exact share and asset terms: the market it leaves, the
    caller's position and what is paid, so that nothing a leg reports is free. */
module LegEffects {
  import opened Numbers
  import opened Rounding
  import opened Scaling
  import opened Accrual
  import opened Ledger

  // ----- fees booked as revenue

  /** Shares a fee of `fee` asset units mints, short only of the share range. */
  function FeeMint(p: Params, s: State, fee: int): int
    requires p.Valid() && s.supplyIndex > 0
  {
    Min(SharesWithin(fee, s.supplyIndex, p.Unit()), I128_MAX - s.supplied)
  }

  lemma AddRevenueEffect(p: Params, s: State, fee: int)
    requires p.Valid() && s.Valid() && fee >= 0 && FromAsset(fee, p.decimals).Ok?
    requires AddRevenue(s, FromAsset(fee, p.decimals).value).Ok?
    ensures var minted := FeeMint(p, s, fee);
      0 <= minted && AddRevenue(s, FromAsset(fee, p.decimals).value).value
                  == s.(revenue := s.revenue + minted, supplied := s.supplied + minted)
  {
    var ray, i := FromAsset(fee, p.decimals).value, s.supplyIndex;
    Regroup(fee, Scale(p.decimals));
    SharesNonNeg(fee, i, p.Unit());
    if fee == 0 {
      FloorUnique(0, 0, i);
    } else {
      MulMono(1, Scale(p.decimals), fee);
      assert Floor(ray * RAY, i) == SharesWithin(fee, i, p.Unit());
    }
  }

  // ----- withdrawing

  /** Shares a request burns and units it pays: everything once the displayed balance is asked for. */
  function Burns(p: Params, s: State, position: int, amount: int): int
    requires p.Valid() && s.Valid()
  {
    if Displayed(position, s.supplyIndex, Scale(p.decimals)) <= amount then position
    else SharesFor(amount, s.supplyIndex, p.Unit())
  }

  function Pays(p: Params, s: State, position: int, amount: int): int
    requires p.Valid() && s.Valid()
  {
    if Displayed(position, s.supplyIndex, Scale(p.decimals)) <= amount then Worth(position, s.supplyIndex, p.Unit())
    else amount
  }

  /** A withdrawal takes from the position exactly the shares it burns in the market, pays their worth
      or the amount asked, and books a liquidation fee out of the payment. */
  lemma WithdrawLegIs(p: Params, s: State, position: int, amount: int, liquidation: bool, fee: int)
    requires p.Valid() && s.Valid() && WithdrawLeg(p, s, position, amount, liquidation, fee).Ok?
    ensures var out, kept := WithdrawLeg(p, s, position, amount, liquidation, fee).value, if liquidation then fee else 0;
      var burned, paid := Burns(p, s, position, amount), Pays(p, s, position, amount);
      var minted := FeeMint(p, s.(supplied := s.supplied - burned), kept);
      && 0 <= burned <= position && 0 <= kept <= paid && 0 <= minted && out.state.Valid()
      && out.position == position - burned && out.amount == paid && out.transfer == paid - kept
      && out.state == s.(supplied := s.supplied - burned + minted, revenue := s.revenue + minted, cash := s.cash - paid + kept)
  {
    var kept, i, k := if liquidation then fee else 0, s.supplyIndex, Scale(p.decimals);
    var r := ResolveWithdrawal(amount, position, i, p.decimals).value;
    WithdrawalIs(amount, position, i, p.decimals);
    WithdrawCovered(amount, position, i, k);
    WithdrawKeeps(p, s, position, amount, liquidation, fee);
    var burned := BurnSupply(s, r.burned).value;
    if kept != 0 {
      AddRevenueEffect(p, burned, fee);
    } else {
      FloorUnique(0, 0, i);
    }
  }

  /** Without a fee: the same shares leave the position and the market, and cover what is paid. */
  lemma WithdrawPlain(p: Params, s: State, position: int, amount: int)
    requires p.Valid() && s.Valid() && WithdrawLeg(p, s, position, amount, false, 0).Ok?
    ensures Drew(p, s, position, WithdrawLeg(p, s, position, amount, false, 0).value)
  {
    WithdrawLegIs(p, s, position, amount, false, 0);
    FloorUnique(0, 0, s.supplyIndex);
    WithdrawCovered(amount, position, s.supplyIndex, Scale(p.decimals));
  }

  ghost predicate Drew(p: Params, s: State, position: int, out: Outcome)
    requires p.Valid()
  {
    && 0 <= out.position <= position && out.amount * p.Unit() <= (position - out.position) * s.supplyIndex && out.state.Valid()
    && out.state == s.(supplied := s.supplied - (position - out.position), cash := s.cash - out.amount)
  }

  lemma DrewTwice(p: Params, s: State, position: int, first: Outcome, second: Outcome, both: Outcome)
    requires p.Valid() && Drew(p, s, position, first) && Drew(p, first.state, first.position, second)
    requires both == second.(amount := first.amount + second.amount)
    ensures Drew(p, s, position, both)
  {
    AddCovers(first.amount, second.amount, p.Unit(), position - first.position, first.position - second.position, s.supplyIndex);
  }

  /** Any sequence of requests on one position of one market. */
  function WithdrawAll(p: Params, s: State, position: int, requests: seq<int>): Result<Outcome>
    requires p.Valid()
  {
    if requests == [] then Ok(Outcome(s, position, 0, 0, 0))
    else
      var before :- WithdrawAll(p, s, position, requests[..|requests| - 1]);
      var out :- WithdrawLeg(p, before.state, before.position, requests[|requests| - 1], false, 0);
      Ok(out.(amount := before.amount + out.amount))
  }

  lemma {:induction false} WithdrawAllDraws(p: Params, s: State, position: int, requests: seq<int>)
    requires p.Valid() && s.Valid() && position >= 0 && WithdrawAll(p, s, position, requests).Ok?
    ensures Drew(p, s, position, WithdrawAll(p, s, position, requests).value)
  {
    if requests != [] {
      var rest, last := requests[..|requests| - 1], requests[|requests| - 1];
      var before := WithdrawAll(p, s, position, rest).value;
      WithdrawAllDraws(p, s, position, rest);
      WithdrawPlain(p, before.state, before.position, last);
      DrewTwice(p, s, position, before, WithdrawLeg(p, before.state, before.position, last, false, 0).value,
                WithdrawAll(p, s, position, requests).value);
    }
  }

  /** The position and the market shrink by the same shares, which cover what was paid; closing what
      is left then pays, in all, no more than one close at the start. */
  lemma WithdrawAllThenClose(p: Params, s: State, position: int, requests: seq<int>)
    requires p.Valid() && s.Valid() && position >= 0 && WithdrawAll(p, s, position, requests).Ok?
    ensures var out, i, m := WithdrawAll(p, s, position, requests).value, s.supplyIndex, p.Unit();
      && 0 <= out.position <= position
      && out.state == s.(supplied := s.supplied - (position - out.position), cash := s.cash - out.amount)
      && out.amount + Worth(out.position, i, m) <= Worth(position, i, m)
  {
    var out := WithdrawAll(p, s, position, requests).value;
    WithdrawAllDraws(p, s, position, requests);
    CloseCovers(out.amount, out.position, position, s.supplyIndex, p.Unit());
  }

  lemma CloseCovers(paid: int, left: int, position: int, i: int, m: int)
    requires m > 0 && paid * m <= (position - left) * i
    ensures paid + Worth(left, i, m) <= Worth(position, i, m)
  {
    var w := Worth(left, i, m);
    FloorBounds(left * i, m);
    AddCovers(paid, w, m, position - left, left, i);
    FloorGe(paid + w, position * i, m);
  }

  // ----- repaying and settling

  /** A repayment keeps the smaller of the amount and the debt due, refunds the rest, and retires all
      the debt or the most shares that what it keeps covers. */
  lemma RepayLegIs(p: Params, s: State, position: int, amount: int)
    requires p.Valid() && s.Valid() && RepayLeg(p, s, position, amount).Ok?
    ensures var out, due := RepayLeg(p, s, position, amount).value, Due(position, s.borrowIndex, p.Unit());
      var kept, burned := Min(amount, due), if due <= amount then position else SharesWithin(amount, s.borrowIndex, p.Unit());
      && out.position == position - burned && out.amount == kept && out.transfer == amount - kept
      && out.state == s.(borrowed := s.borrowed - burned, cash := s.cash + kept) && out.state.Valid()
      && 0 <= burned <= position
  {
    RepayIs(amount, position, s.borrowIndex, p.decimals);
    RepayKeeps(p, s, position, amount);
    SharesNonNeg(amount, s.borrowIndex, p.Unit());
    DebtGalois(amount, position, s.borrowIndex, p.Unit());
  }

  /** A settlement moves the smallest of the amount, the supply's worth and the debt due, takes the same
      shares from the market as from the positions, and no cash. */
  lemma NetSettleLegIs(p: Params, s: State, amount: int, supplyPosition: int, debtPosition: int)
    requires p.Valid() && s.Valid() && NetSettleLeg(p, s, amount, supplyPosition, debtPosition).Ok?
    ensures var out, i, j, m := NetSettleLeg(p, s, amount, supplyPosition, debtPosition).value, s.supplyIndex, s.borrowIndex, p.Unit();
      var worth, due := Worth(supplyPosition, i, m), Due(debtPosition, j, m);
      var settled := Min(Min(amount, worth), due);
      var supply := if settled == 0 then 0 else if settled == worth then supplyPosition else SharesFor(settled, i, m);
      var debt := if settled == 0 then 0 else if settled == due then debtPosition else SharesWithin(settled, j, m);
      && 0 <= settled == out.amount && 0 <= supply <= supplyPosition && 0 <= debt <= debtPosition
      && out.position == supplyPosition - supply && out.other == debtPosition - debt
      && out.state == s.(supplied := s.supplied - supply, borrowed := s.borrowed - debt) && out.state.Valid()
  {
    var i, j, m := s.supplyIndex, s.borrowIndex, p.Unit();
    NetSettleIs(amount, supplyPosition, debtPosition, i, j, p.decimals);
    SettleBounds(amount, supplyPosition, debtPosition, i, j, m);
    NetSettleKeeps(p, s, amount, supplyPosition, debtPosition);
    MulNonNeg(supplyPosition, i);
    MulNonNeg(debtPosition, j);
    FloorNonNeg(supplyPosition * i, m);
    CeilNonNeg(debtPosition * j, m);
  }

  // ----- strategies and flash loans

  /** Opening a strategy owes the fewest shares worth the amount, hands out the amount less the fee and
      books the fee; the fee is nothing unless it is charged. */
  lemma StrategyLegIs(p: Params, s: State, position: int, amount: int, chargeFee: bool)
    requires p.Valid() && s.Valid() && StrategyLeg(p, s, position, amount, chargeFee).Ok?
    ensures chargeFee ==> FlashFee(p.flashFeeBps, amount).Ok?
    ensures var out, shares := StrategyLeg(p, s, position, amount, chargeFee).value, SharesFor(amount, s.borrowIndex, p.Unit());
      var fee := if chargeFee then FlashFee(p.flashFeeBps, amount).value else 0;
      var minted := FeeMint(p, s, fee);
      && 0 <= fee <= amount && 0 <= minted && out.state.Valid()
      && out.position == position + shares && out.amount == amount && out.transfer == amount - fee
      && out.state == s.(borrowed := s.borrowed + shares, supplied := s.supplied + minted, revenue := s.revenue + minted,
                         cash := s.cash - amount + fee)
  {
    var fee := if chargeFee then FlashFee(p.flashFeeBps, amount).value else 0;
    FeeNonNeg(p.flashFeeBps, amount, chargeFee);
    StrategyKeeps(p, s, position, amount, chargeFee);
    MintKeeps(p, s, position, amount);
    ScaledCeilIs(amount, p.decimals, s.borrowIndex);
    AddRevenueEffect(p, MintDebt(p, s, position, amount).value.state, fee);
  }

  /** A repaid flash loan leaves the fee as cash and as revenue. */
  lemma FlashLegIs(p: Params, s: State, amount: int)
    requires p.Valid() && s.Valid() && FlashLeg(p, s, amount).Ok?
    ensures FlashFee(p.flashFeeBps, amount).Ok?
    ensures var out, fee := FlashLeg(p, s, amount).value, FlashFee(p.flashFeeBps, amount).value;
      var minted := FeeMint(p, s, fee);
      && 0 <= fee == out.amount && 0 <= minted
      && out.state == s.(supplied := s.supplied + minted, revenue := s.revenue + minted, cash := s.cash + fee)
  {
    FeeNonNeg(p.flashFeeBps, amount, true);
    AddRevenueEffect(p, s, FlashFee(p.flashFeeBps, amount).value);
  }

  // ----- revenue and seizures

  /** A claim burns all the revenue shares for their whole worth, or the pro rata part of them for what
      cash there is, rounded up once. */
  lemma ClaimLegIs(p: Params, s: State)
    requires p.Valid() && s.Valid() && ClaimLeg(p, s).Ok?
    ensures var out, worth := ClaimLeg(p, s).value, Worth(s.revenue, s.supplyIndex, p.Unit());
      var paid := Min(s.cash, worth);
      var burned := if paid == 0 then 0 else if paid == worth then s.revenue else Ceil(s.revenue * paid, worth);
      && 0 <= paid == out.amount == out.transfer
      && out.state == s.(supplied := s.supplied - burned, revenue := s.revenue - burned, cash := s.cash - paid)
      && (0 < paid < worth ==> s.revenue * paid <= burned * worth < s.revenue * paid + worth)
  {
    var worth := Worth(s.revenue, s.supplyIndex, p.Unit());
    var paid := Min(s.cash, worth);
    UnscaleFloorIs(s.revenue, s.supplyIndex, p.decimals);
    MulNonNeg(s.revenue, s.supplyIndex);
    FloorNonNeg(s.revenue * s.supplyIndex, p.Unit());
    if 0 < paid < worth { CeilBounds(s.revenue * paid, worth); }
  }

  lemma SeizeDepositLegIs(s: State, position: int)
    requires SeizeDepositLeg(s, position).Ok?
    ensures var out := SeizeDepositLeg(s, position).value;
      out.position == 0 && out.state == s.(revenue := s.revenue + position) && 0 <= position <= s.supplied - s.revenue
  {
  }

  /** A write-down takes from the suppliers at most the bad debt, one unit of it, a raw unit for each
      unit of supply and a raw index unit for each share. */
  lemma WriteDownTakesNoMore(s: State, badDebt: int)
    requires s.Valid() && badDebt >= 0 && WriteDown(s, badDebt).Ok?
    ensures var index, total := WriteDown(s, badDebt).value, HalfUp(s.supplied * s.supplyIndex, RAY);
      s.supplied * (s.supplyIndex - index) <= badDebt * RAY + RAY + total + s.supplied
  {
    MulNonNeg(s.supplied, s.supplyIndex);
    FloorNonNeg(s.supplied * s.supplyIndex, RAY);
    TakesNoMore(s, badDebt, HalfUp(s.supplied * s.supplyIndex, RAY), WriteDown(s, badDebt).value);
  }

  lemma TakesNoMore(s: State, badDebt: int, total: int, index: int)
    requires s.Valid() && badDebt >= 0 && total == HalfUp(s.supplied * s.supplyIndex, RAY) && total >= 0
    requires if total == 0 then index == s.supplyIndex
             else Proportional(s, badDebt, total).Ok? && Proportional(s, badDebt, total).value <= index
    ensures s.supplied * (s.supplyIndex - index) <= badDebt * RAY + RAY + total + s.supplied
  {
    if total > 0 { ProportionalTakes(s, badDebt, total, index); }
  }

  lemma ProportionalTakes(s: State, badDebt: int, total: int, index: int)
    requires s.Valid() && badDebt >= 0 && total == HalfUp(s.supplied * s.supplyIndex, RAY) && total > 0
    requires Proportional(s, badDebt, total).Ok? && Proportional(s, badDebt, total).value <= index
    ensures s.supplied * (s.supplyIndex - index) <= badDebt * RAY + RAY + total + s.supplied
  {
    var remaining := total - Min(badDebt, total);
    var factor := Floor(remaining * RAY, total);
    HalfUpBounds(s.supplied * s.supplyIndex, RAY);
    FloorBounds(remaining * RAY, total);
    FloorBounds(s.supplyIndex * factor, RAY);
    TakenScalars(s.supplied, s.supplyIndex, index, factor, remaining, total, badDebt);
  }

  lemma TakenScalars(supplied: int, i: int, index: int, factor: int, remaining: int, total: int, badDebt: int)
    requires 0 <= supplied && 0 < i && 0 < total && remaining == total - Min(badDebt, total) && 0 <= badDebt
    requires remaining * RAY < factor * total + total && i * factor < index * RAY + RAY
    requires 2 * (supplied * i) < 2 * total * RAY + RAY
    ensures supplied * (i - index) <= badDebt * RAY + RAY + total + supplied
  {
    var v, c := supplied * i, total - remaining;
    MulNonNeg(supplied, i);
    MulNonNeg(supplied, total);
    MulMono(remaining * RAY, factor * total + total, v);
    MulMono(i * factor, index * RAY + RAY, supplied * total);
    MulMono(2 * v, 2 * total * RAY + RAY, c);
    MulMono(2 * v, 2 * total * RAY + RAY, total);
    TakenIdentities(supplied, i, index, factor, remaining, total, RAY);
    TakenSum(v, supplied * index, supplied, total, c, RAY, (v * factor) * total);
    assert supplied * (i - index) == v - supplied * index;
    MulMono(c, badDebt, RAY);
  }

  lemma TakenIdentities(supplied: int, i: int, index: int, factor: int, remaining: int, total: int, r: int)
    ensures (supplied * i) * (remaining * r) == r * ((supplied * i) * remaining)
    ensures (supplied * i) * (factor * total + total) == ((supplied * i) * factor) * total + (supplied * i) * total
    ensures (supplied * total) * (i * factor) == ((supplied * i) * factor) * total
    ensures (supplied * total) * (index * r + r) == r * ((supplied * index) * total) + r * (supplied * total)
    ensures (supplied * i) * remaining == (supplied * i) * total - (supplied * i) * (total - remaining)
  {
  }

  lemma TakenSum(v: int, x: int, supplied: int, total: int, c: int, r: int, q: int)
    requires 0 < total && 1 <= r && 0 <= c <= total
    requires r * (v * total - v * c) <= q + v * total && q <= r * (x * total) + r * (supplied * total)
    requires (2 * v) * c <= (2 * total * r + r) * c && (2 * v) * total <= (2 * total * r + r) * total
    ensures v - x <= c * r + r + total + supplied
  {
    SumIdentities(v, x, supplied, total, c, r);
    MulMono((2 * v) * c, (2 * total * r + r) * c, r);
    MulMono(c, total, r * r) by { MulMono(1, r, r); }
    MulMono(1, r, r * total) by { MulMono(1, r, total); }
    MulMono(1, r, total);
    CancelLe(v - x, c * r + r + total + supplied, total * r);
  }

  lemma SumIdentities(v: int, x: int, supplied: int, total: int, c: int, r: int)
    ensures r * (v * total - v * c) == r * (v * total) - r * (v * c)
    ensures ((2 * v) * c) * r == 2 * (r * (v * c))
    ensures ((2 * total * r + r) * c) * r == 2 * (((c * r) * total) * r) + (r * r) * c
    ensures (2 * total * r + r) * total == 2 * ((total * total) * r) + r * total
    ensures (v - x) * (total * r) == r * (v * total) - r * (x * total)
    ensures (c * r + r + total + supplied) * (total * r)
         == ((c * r) * total) * r + (r * r) * total + (total * total) * r + r * (supplied * total)
    ensures (r * total) * r == (r * r) * total
  {
  }
}
