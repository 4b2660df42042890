/** Model of the share/asset conversions and of the withdrawal, repayment and net-settle resolvers,
    and the proof that splitting a call never pays.

    With `m = RAY * 10^(27 - decimals)` and an index `i`, one share is worth `i / m` asset units. */
module Scaling {
  import opened Numbers
  import opened Rounding
  import FixedPoint

  /** `10^(27 - decimals)`. */
  function Scale(decimals: nat): (k: int)
    requires decimals <= RAY_DECIMALS
    ensures k >= 1
  {
    Pow10(RAY_DECIMALS - decimals)
  }

  // ----- conversions

  function FromAsset(amount: int, decimals: nat): Result<int>
    requires decimals <= RAY_DECIMALS
  {
    Narrow(amount * Scale(decimals))
  }

  function ScaledFloor(amount: int, decimals: nat, index: int): Result<int>
    requires decimals <= RAY_DECIMALS
  {
    var ray :- FromAsset(amount, decimals);
    FixedPoint.MulFloor(ray, RAY, index)
  }

  function ScaledCeil(amount: int, decimals: nat, index: int): Result<int>
    requires decimals <= RAY_DECIMALS
  {
    var ray :- FromAsset(amount, decimals);
    FixedPoint.MulCeil(ray, RAY, index)
  }

  function UnscaleFloor(scaled: int, index: int, decimals: nat): Result<int>
    requires decimals <= RAY_DECIMALS
  {
    var ray :- FixedPoint.MulFloor(scaled, index, RAY);
    Ok(FixedPoint.Trunc(ray, Scale(decimals)))
  }

  function UnscaleCeil(scaled: int, index: int, decimals: nat): Result<int>
    requires decimals <= RAY_DECIMALS
  {
    var ray :- FixedPoint.MulCeil(scaled, index, RAY);
    Ok(Ceil(ray, Scale(decimals)))
  }

  function UnscaleHalfUp(scaled: int, index: int, decimals: nat): Result<int>
    requires decimals <= RAY_DECIMALS
  {
    var ray :- FixedPoint.MulHalfUp(scaled, index, RAY);
    Ok(FixedPoint.Nearest(ray, Scale(decimals)))
  }

  // ----- resolvers, as the program writes them

  datatype Withdrawal = Withdrawal(burned: int, paid: int)
  datatype Repayment = Repayment(burned: int, overpayment: int)
  datatype Settlement = Settlement(burnedSupply: int, burnedDebt: int, settled: int)

  function ResolveWithdrawal(amount: int, position: int, index: int, decimals: nat): Result<Withdrawal>
    requires decimals <= RAY_DECIMALS
  {
    var actual :- UnscaleHalfUp(position, index, decimals);
    var floor :- UnscaleFloor(position, index, decimals);
    if amount >= actual then Ok(Withdrawal(position, floor))
    else
      var burned :- ScaledCeil(amount, decimals, index);
      Ok(Withdrawal(burned, amount))
  }

  function ResolveRepay(amount: int, position: int, index: int, decimals: nat): Result<Repayment>
    requires decimals <= RAY_DECIMALS
  {
    var due :- UnscaleCeil(position, index, decimals);
    if amount >= due then
      var over :- Narrow(amount - due);
      Ok(Repayment(position, over))
    else
      var burned :- ScaledFloor(amount, decimals, index);
      Ok(Repayment(burned, 0))
  }

  function ResolveNetSettle(amount: int, supply: int, debt: int, supplyIndex: int, borrowIndex: int, decimals: nat)
    : Result<Settlement>
    requires decimals <= RAY_DECIMALS
  {
    var supplyFloor :- UnscaleFloor(supply, supplyIndex, decimals);
    var debtCeil :- UnscaleCeil(debt, borrowIndex, decimals);
    var settle := Min(Min(amount, supplyFloor), debtCeil);
    if settle <= 0 then Ok(Settlement(0, 0, 0))
    else
      var partialSupply :- if settle == supplyFloor then Ok(supply) else ScaledCeil(settle, decimals, supplyIndex);
      var partialDebt :- if settle == debtCeil then Ok(debt) else ScaledFloor(settle, decimals, borrowIndex);
      Ok(Settlement(Min(partialSupply, supply), Min(partialDebt, debt), settle))
  }

  // ----- the conversions as exact rational roundings

  /** Asset value of `p` shares, rounded down. */
  function Worth(p: int, i: int, m: int): int
    requires m > 0
  {
    Floor(p * i, m)
  }

  /** Asset value of `q` shares, rounded up. */
  function Due(q: int, i: int, m: int): int
    requires m > 0
  {
    Ceil(q * i, m)
  }

  /** Fewest shares worth at least `a`. */
  function SharesFor(a: int, i: int, m: int): int
    requires i > 0
  {
    Ceil(a * m, i)
  }

  /** Most shares worth at most `a`. */
  function SharesWithin(a: int, i: int, m: int): int
    requires i > 0
  {
    Floor(a * m, i)
  }

  /** Share value rounded half up twice, as the withdrawal branch tests it. */
  function Displayed(p: int, i: int, k: int): int
    requires k > 0
  {
    HalfUp(HalfUp(p * i, RAY), k)
  }

  lemma ScaledFloorIs(amount: int, decimals: nat, index: int)
    requires decimals <= RAY_DECIMALS && index > 0 && ScaledFloor(amount, decimals, index).Ok?
    ensures ScaledFloor(amount, decimals, index).value == SharesWithin(amount, index, RAY * Scale(decimals))
  {
    assert amount * Scale(decimals) * RAY == amount * (RAY * Scale(decimals));
  }

  lemma ScaledCeilIs(amount: int, decimals: nat, index: int)
    requires decimals <= RAY_DECIMALS && index > 0 && ScaledCeil(amount, decimals, index).Ok?
    ensures ScaledCeil(amount, decimals, index).value == SharesFor(amount, index, RAY * Scale(decimals))
  {
    assert amount * Scale(decimals) * RAY == amount * (RAY * Scale(decimals));
  }

  /** The two floors collapse into one. */
  lemma UnscaleFloorIs(p: int, index: int, decimals: nat)
    requires decimals <= RAY_DECIMALS && p >= 0 && index > 0 && UnscaleFloor(p, index, decimals).Ok?
    ensures UnscaleFloor(p, index, decimals).value == Worth(p, index, RAY * Scale(decimals))
  {
    MulNonNeg(p, index);
    FloorNonNeg(p * index, RAY);
    FloorFloor(p * index, RAY, Scale(decimals));
  }

  lemma UnscaleCeilIs(q: int, index: int, decimals: nat)
    requires decimals <= RAY_DECIMALS
    ensures UnscaleCeil(q, index, decimals).Ok? ==> UnscaleCeil(q, index, decimals).value == Due(q, index, RAY * Scale(decimals))
  {
    CeilCeil(q * index, RAY, Scale(decimals));
  }

  lemma UnscaleHalfUpIs(p: int, index: int, decimals: nat)
    requires decimals <= RAY_DECIMALS
    ensures UnscaleHalfUp(p, index, decimals).Ok? ==> UnscaleHalfUp(p, index, decimals).value == Displayed(p, index, Scale(decimals))
  {
    if UnscaleHalfUp(p, index, decimals).Ok? {
      MulNonNeg(p, index);
      FloorNonNeg(p * index, RAY);
    }
  }

  // ----- the two Galois connections everything below rests on

  /** `p` shares are worth `a` exactly when they include the shares `a` costs. */
  lemma SupplyGalois(a: int, p: int, i: int, m: int)
    requires i > 0 && m > 0
    ensures a <= Worth(p, i, m) <==> SharesFor(a, i, m) <= p
  {
    FloorGe(a, p * i, m);
    CeilLe(p, a * m, i);
  }

  /** `a` covers `q` shares of debt exactly when `q` is among the shares `a` retires. */
  lemma DebtGalois(a: int, q: int, i: int, m: int)
    requires i > 0 && m > 0
    ensures Due(q, i, m) <= a <==> q <= SharesWithin(a, i, m)
  {
    CeilLe(a, q * i, m);
    FloorGe(q, a * m, i);
  }

  lemma SharesForSplit(a: int, b: int, i: int, m: int)
    requires i > 0
    ensures SharesFor(a + b, i, m) <= SharesFor(a, i, m) + SharesFor(b, i, m) <= SharesFor(a + b, i, m) + 1
  {
    assert (a + b) * m == a * m + b * m;
    CeilSplit(a * m, b * m, i);
  }

  lemma SharesWithinSplit(a: int, b: int, i: int, m: int)
    requires i > 0
    ensures SharesWithin(a + b, i, m) - 1 <= SharesWithin(a, i, m) + SharesWithin(b, i, m) <= SharesWithin(a + b, i, m)
  {
    assert (a + b) * m == a * m + b * m;
    FloorSplit(a * m, b * m, i);
  }

  lemma SharesMono(a: int, b: int, i: int, m: int)
    requires i > 0 && m > 0 && a <= b
    ensures SharesFor(a, i, m) <= SharesFor(b, i, m)
    ensures SharesWithin(a, i, m) <= SharesWithin(b, i, m)
  {
    MulMono(a, b, m);
    CeilMono(a * m, b * m, i);
    FloorMono(a * m, b * m, i);
  }

  lemma SharesNonNeg(a: int, i: int, m: int)
    requires i > 0 && m > 0 && a >= 0
    ensures SharesFor(a, i, m) >= 0 && SharesWithin(a, i, m) >= 0
  {
    MulNonNeg(a, m);
    CeilNonNeg(a * m, i);
    FloorNonNeg(a * m, i);
  }

  /** Value of the shares left after paying for `a`: never more than the old value less `a`. */
  lemma WorthAfter(a: int, p: int, i: int, m: int)
    requires i > 0 && m > 0
    ensures Worth(p - SharesFor(a, i, m), i, m) + a <= Worth(p, i, m)
  {
    var x := Worth(p - SharesFor(a, i, m), i, m);
    SupplyGalois(x, p - SharesFor(a, i, m), i, m);
    SharesForSplit(x, a, i, m);
    SupplyGalois(x + a, p, i, m);
  }

  /** Debt left after paying `a`: never less than the old debt less `a`. */
  lemma DueAfter(a: int, q: int, i: int, m: int)
    requires i > 0 && m > 0
    ensures Due(q, i, m) <= a + Due(q - SharesWithin(a, i, m), i, m)
  {
    var x := Due(q - SharesWithin(a, i, m), i, m);
    DebtGalois(x, q - SharesWithin(a, i, m), i, m);
    SharesWithinSplit(a, x, i, m);
    DebtGalois(a + x, q, i, m);
  }

  // ----- net settle

  /** The settlement without overflow, on exact roundings. */
  function Settle(amount: int, p: int, q: int, i: int, j: int, m: int): Settlement
    requires i > 0 && j > 0 && m > 0
  {
    var s := Min(Min(amount, Worth(p, i, m)), Due(q, j, m));
    if s <= 0 then Settlement(0, 0, 0)
    else Settlement(
      if s == Worth(p, i, m) then p else SharesFor(s, i, m),
      if s == Due(q, j, m) then q else SharesWithin(s, j, m),
      s)
  }

  /** The program's caps at the position never bind, and it computes `Settle`. */
  lemma NetSettleIs(amount: int, p: int, q: int, i: int, j: int, decimals: nat)
    requires decimals <= RAY_DECIMALS && p >= 0 && i > 0 && j > 0
    ensures ResolveNetSettle(amount, p, q, i, j, decimals).Ok? ==>
      ResolveNetSettle(amount, p, q, i, j, decimals).value == Settle(amount, p, q, i, j, RAY * Scale(decimals))
  {
    if ResolveNetSettle(amount, p, q, i, j, decimals).Err? { return; }
    var m := RAY * Scale(decimals);
    UnscaleFloorIs(p, i, decimals);
    UnscaleCeilIs(q, j, decimals);
    var s := Min(Min(amount, Worth(p, i, m)), Due(q, j, m));
    if s > 0 {
      if s != Worth(p, i, m) { ScaledCeilIs(s, decimals, i); SupplyGalois(s, p, i, m); }
      if s != Due(q, j, m) { ScaledFloorIs(s, decimals, j); DebtGalois(s, q, j, m); }
    }
  }

  lemma SettleBounds(amount: int, p: int, q: int, i: int, j: int, m: int)
    requires i > 0 && j > 0 && m > 0 && p >= 0 && q >= 0
    ensures var r := Settle(amount, p, q, i, j, m);
      0 <= r.burnedSupply <= p && 0 <= r.burnedDebt <= q && 0 <= r.settled
  {
    var s := Settle(amount, p, q, i, j, m).settled;
    SharesNonNeg(s, i, m); SharesNonNeg(s, j, m);
    SupplyGalois(s, p, i, m); DebtGalois(s, q, j, m);
  }

  /** Burning `supply` shares and retiring `debt` shares in two calls, then in one. */
  ghost predicate StrictlyBetter(split: Settlement, single: Settlement) {
    split.burnedSupply < single.burnedSupply && split.burnedDebt > single.burnedDebt
  }

  function InTwo(first: int, second: int, p: int, q: int, i: int, j: int, m: int): Settlement
    requires i > 0 && j > 0 && m > 0
  {
    var r1 := Settle(first, p, q, i, j, m);
    var r2 := Settle(second, p - r1.burnedSupply, q - r1.burnedDebt, i, j, m);
    Settlement(r1.burnedSupply + r2.burnedSupply, r1.burnedDebt + r2.burnedDebt, r1.settled + r2.settled)
  }

  /** Whatever binds each call (the amount, the supply or the debt), splitting never burns less
      supply and retires more debt at once. */
  lemma NetSettleSplitNeverBetter(first: int, second: int, p: int, q: int, i: int, j: int, m: int)
    requires first >= 0 && second >= 0 && p >= 0 && q >= 0 && i > 0 && j > 0 && m > 0
    ensures !StrictlyBetter(InTwo(first, second, p, q, i, j, m), Settle(first + second, p, q, i, j, m))
  {
    var s := Min(Min(first + second, Worth(p, i, m)), Due(q, j, m));
    var r1 := Settle(first, p, q, i, j, m);
    SettleBounds(first, p, q, i, j, m);
    SettleBounds(second, p - r1.burnedSupply, q - r1.burnedDebt, i, j, m);
    if 0 < s < Due(q, j, m) {
      if 0 < r1.settled == Worth(p, i, m) {
        assert r1.burnedSupply == p;
      } else if r1.settled > 0 {
        LegOneByAmount(first, second, p, q, i, j, m);
        SecondLeg(first, second, p, q, i, j, m);
      }
    }
  }

  lemma LegOneByAmount(first: int, second: int, p: int, q: int, i: int, j: int, m: int)
    requires first >= 0 && second >= 0 && i > 0 && j > 0 && m > 0
    requires var s := Min(Min(first + second, Worth(p, i, m)), Due(q, j, m)); 0 < s < Due(q, j, m)
    requires 0 < Settle(first, p, q, i, j, m).settled != Worth(p, i, m)
    ensures Settle(first, p, q, i, j, m) == Settlement(SharesFor(first, i, m), SharesWithin(first, j, m), first)
    ensures 0 < first < Worth(p, i, m) && first < Due(q, j, m)
  {
  }

  /** Leg one paid `first`; leg two either closes the supply or retires no more than one call would. */
  lemma SecondLeg(first: int, second: int, p: int, q: int, i: int, j: int, m: int)
    requires first >= 0 && second >= 0 && p >= 0 && q >= 0 && i > 0 && j > 0 && m > 0
    requires 0 < first < Worth(p, i, m) && first < Due(q, j, m)
    requires var s := Min(Min(first + second, Worth(p, i, m)), Due(q, j, m)); 0 < s < Due(q, j, m)
    ensures var r2 := Settle(second, p - SharesFor(first, i, m), q - SharesWithin(first, j, m), i, j, m);
      var single := Settle(first + second, p, q, i, j, m);
      || SharesFor(first, i, m) + r2.burnedSupply >= p >= single.burnedSupply
      || SharesWithin(first, j, m) + r2.burnedDebt <= single.burnedDebt
  {
    var s := Min(first + second, Worth(p, i, m));
    var p', q' := p - SharesFor(first, i, m), q - SharesWithin(first, j, m);
    WorthAfter(first, p, i, m);
    DueAfter(first, q, j, m);
    SettleBounds(first + second, p, q, i, j, m);
    SharesMono(first, s, j, m);
    SharesWithinSplit(first, second, j, m);
    SharesWithinSplit(first, s - first, j, m);
  }

  /** When every call settles exactly what it asked for, splitting moves each side against the
      caller: supply burned can only rise and debt retired can only fall, the latter by at most one
      share. */
  lemma NetSettleSplitByAmount(first: int, second: int, p: int, q: int, i: int, j: int, m: int)
    requires first >= 0 && second >= 0 && p >= 0 && q >= 0 && i > 0 && j > 0 && m > 0
    requires Settle(first, p, q, i, j, m).settled == first
    requires InTwo(first, second, p, q, i, j, m).settled == first + second
    requires Settle(first + second, p, q, i, j, m).settled == first + second
    ensures var split, single := InTwo(first, second, p, q, i, j, m), Settle(first + second, p, q, i, j, m);
      && single.burnedSupply <= split.burnedSupply
      && single.burnedDebt - 1 <= split.burnedDebt <= single.burnedDebt
  {
    var r1 := Settle(first, p, q, i, j, m);
    SettleBounds(first, p, q, i, j, m);
    SettleBounds(second, p - r1.burnedSupply, q - r1.burnedDebt, i, j, m);
    SettleBounds(first + second, p, q, i, j, m);
    SharesForSplit(first, second, i, m);
    SharesWithinSplit(first, second, j, m);
    WorthAfter(first, p, i, m);
    DueAfter(first, q, j, m);
    DebtGalois(first + second, q, j, m);
    SupplyGalois(first + second, p, i, m);
  }

  /** On the supply side "at most one share" is not true in general: leg two may find that what it
      was asked for is all the position is still worth, and close it. It holds exactly when leg two
      leaves supply behind, or when the whole position is within one share of the price anyway. */
  lemma NetSettleSupplySlack(first: int, second: int, p: int, q: int, i: int, j: int, m: int)
    requires first >= 0 && second > 0 && p >= 0 && q >= 0 && i > 0 && j > 0 && m > 0
    requires Settle(first, p, q, i, j, m).settled == first
    requires InTwo(first, second, p, q, i, j, m).settled == first + second
    requires Settle(first + second, p, q, i, j, m).settled == first + second
    ensures var split, single := InTwo(first, second, p, q, i, j, m), Settle(first + second, p, q, i, j, m);
      split.burnedSupply <= single.burnedSupply + 1 <==>
      (Worth(p - SharesFor(first, i, m), i, m) != second || p <= SharesFor(first + second, i, m) + 1
       || first + second == Worth(p, i, m))
  {
    WorthAfter(first, p, i, m);
    SharesForSplit(first, second, i, m);
    SharesNonNeg(first, i, m);
    SupplyGalois(first + second, p, i, m);
  }

  /** An 18-decimal market at a supply index of three: settling 1 + 1 burns a third more supply
      than settling 2. */
  lemma NetSettleSupplySlackFails()
    ensures var i, j, p, q := 3 * RAY, RAY, 1_000_000_000, 1_000_000_000_000;
      && ResolveNetSettle(1, p, q, i, j, 18) == Ok(Settlement(333_333_334, 1_000_000_000, 1))
      && ResolveNetSettle(1, p - 333_333_334, q - 1_000_000_000, i, j, 18) == Ok(Settlement(666_666_666, 1_000_000_000, 1))
      && ResolveNetSettle(2, p, q, i, j, 18) == Ok(Settlement(666_666_667, 2_000_000_000, 2))
  {
    EighteenDecimals();
  }

  lemma EighteenDecimals()
    ensures Scale(18) == 1_000_000_000
  {
    FixedPoint.Pow10Value();
  }

  // ----- repayment

  function Repay(amount: int, q: int, j: int, m: int): Repayment
    requires j > 0 && m > 0
  {
    if amount >= Due(q, j, m) then Repayment(q, amount - Due(q, j, m))
    else Repayment(SharesWithin(amount, j, m), 0)
  }

  lemma RepayIs(amount: int, q: int, j: int, decimals: nat)
    requires decimals <= RAY_DECIMALS && j > 0 && ResolveRepay(amount, q, j, decimals).Ok?
    ensures ResolveRepay(amount, q, j, decimals).value == Repay(amount, q, j, RAY * Scale(decimals))
  {
    UnscaleCeilIs(q, j, decimals);
    if amount < Due(q, j, RAY * Scale(decimals)) { ScaledFloorIs(amount, decimals, j); }
  }

  /** Two repayments never retire more debt than one of the sum, never buy the same relief for less,
      and lose at most one share while nothing is refunded. */
  lemma RepaySplitNeverBetter(first: int, second: int, q: int, j: int, m: int)
    requires first >= 0 && second >= 0 && q >= 0 && j > 0 && m > 0
    ensures var r1 := Repay(first, q, j, m);
      var r2, single := Repay(second, q - r1.burned, j, m), Repay(first + second, q, j, m);
      var burned, paid := r1.burned + r2.burned, first - r1.overpayment + second - r2.overpayment;
      && burned <= single.burned <= q
      && (burned == single.burned ==> paid >= first + second - single.overpayment)
      && (r1.overpayment == r2.overpayment == single.overpayment == 0 ==> single.burned <= burned + 1)
  {
    var r1 := Repay(first, q, j, m);
    DueAfter(first, q, j, m);
    DebtGalois(first, q, j, m);
    DebtGalois(second, q - r1.burned, j, m);
    DebtGalois(first + second, q, j, m);
    SharesWithinSplit(first, second, j, m);
    assert Due(0, j, m) == 0;
  }

  // ----- withdrawal

  function Withdraw(amount: int, p: int, i: int, k: int): Withdrawal
    requires i > 0 && k > 0
  {
    if amount >= Displayed(p, i, k) then Withdrawal(p, Worth(p, i, RAY * k))
    else Withdrawal(SharesFor(amount, i, RAY * k), amount)
  }

  lemma WithdrawalIs(amount: int, p: int, i: int, decimals: nat)
    requires decimals <= RAY_DECIMALS && p >= 0 && i > 0 && ResolveWithdrawal(amount, p, i, decimals).Ok?
    ensures ResolveWithdrawal(amount, p, i, decimals).value == Withdraw(amount, p, i, Scale(decimals))
  {
    UnscaleHalfUpIs(p, i, decimals);
    UnscaleFloorIs(p, i, decimals);
    if amount < Displayed(p, i, Scale(decimals)) { ScaledCeilIs(amount, decimals, i); }
  }

  /** The branch is chosen by a value rounded half up twice, yet a partial amount is always within
      what the position is really worth: its ceiled burn never exceeds the position. */
  lemma PartialBurnFits(amount: int, p: int, i: int, k: int)
    requires i > 0 && k > 0 && amount < Displayed(p, i, k)
    ensures amount <= Worth(p, i, RAY * k)
    ensures SharesFor(amount, i, RAY * k) <= p
  {
    var v := HalfUp(p * i, RAY);
    HalfUpGe(amount + 1, v, k);
    HalfUpBounds(p * i, RAY);
    assert 2 * (amount + 1) * k == 2 * (amount * k) + 2 * k;
    assert amount * (RAY * k) == RAY * (amount * k);
    FloorGe(amount, p * i, RAY * k);
    SupplyGalois(amount, p, i, RAY * k);
  }

  lemma WorthBelowDisplayed(p: int, i: int, k: int)
    requires i > 0 && k > 0
    ensures Worth(p, i, RAY * k) <= Displayed(p, i, k)
  {
    var v, w := HalfUp(p * i, RAY), Worth(p, i, RAY * k);
    FloorBounds(p * i, RAY * k);
    assert w * (RAY * k) == (w * k) * RAY;
    assert 2 * (w * k) * RAY == 2 * ((w * k) * RAY);
    HalfUpGe(w * k, p * i, RAY);
    assert 2 * w * k == 2 * (w * k);
    HalfUpGe(w, v, k);
  }

  /** One leg: the tokens paid are covered by the value of the shares burned. */
  lemma WithdrawCovered(amount: int, p: int, i: int, k: int)
    requires amount >= 0 && p >= 0 && i > 0 && k > 0
    ensures var r := Withdraw(amount, p, i, k);
      0 <= r.burned <= p && 0 <= r.paid && r.paid * (RAY * k) <= r.burned * i
  {
    if amount >= Displayed(p, i, k) {
      MulNonNeg(p, i);
      FloorNonNeg(p * i, RAY * k);
      FloorBounds(p * i, RAY * k);
    } else {
      PartialBurnFits(amount, p, i, k);
      SharesNonNeg(amount, i, RAY * k);
      CeilBounds(amount * (RAY * k), i);
    }
  }

  datatype Drained = Drained(left: int, paid: int)

  /** Any sequence of withdrawal requests, each on the position the last one left. */
  function WithdrawMany(requests: seq<int>, p: int, i: int, k: int): Drained
    requires i > 0 && k > 0
  {
    if requests == [] then Drained(p, 0)
    else
      var r := Withdraw(requests[0], p, i, k);
      var rest := WithdrawMany(requests[1..], p - r.burned, i, k);
      Drained(rest.left, r.paid + rest.paid)
  }

  lemma {:induction false} WithdrawManyCovered(requests: seq<int>, p: int, i: int, k: int)
    requires p >= 0 && i > 0 && k > 0 && forall n :: 0 <= n < |requests| ==> requests[n] >= 0
    ensures var r := WithdrawMany(requests, p, i, k);
      0 <= r.left <= p && r.paid * (RAY * k) <= (p - r.left) * i
  {
    if requests != [] {
      var r := Withdraw(requests[0], p, i, k);
      WithdrawCovered(requests[0], p, i, k);
      WithdrawManyCovered(requests[1..], p - r.burned, i, k);
      var rest := WithdrawMany(requests[1..], p - r.burned, i, k);
      AddCovers(r.paid, rest.paid, RAY * k, r.burned, p - r.burned - rest.left, i);
    }
  }

  lemma AddCovers(a: int, b: int, m: int, x: int, y: int, i: int)
    requires a * m <= x * i && b * m <= y * i
    ensures (a + b) * m <= (x + y) * i
  {
    assert (a + b) * m == a * m + b * m && (x + y) * i == x * i + y * i;
  }

  /** However an exit is cut up, the partial payments and the final close together pay no more than
      one full close. */
  lemma WithdrawManyThenClose(requests: seq<int>, p: int, i: int, k: int)
    requires p >= 0 && i > 0 && k > 0 && forall n :: 0 <= n < |requests| ==> requests[n] >= 0
    ensures var r := WithdrawMany(requests, p, i, k);
      r.paid + Worth(r.left, i, RAY * k) <= Worth(p, i, RAY * k)
  {
    var r := WithdrawMany(requests, p, i, k);
    var w := Worth(r.left, i, RAY * k);
    WithdrawManyCovered(requests, p, i, k);
    FloorBounds(r.left * i, RAY * k);
    AddCovers(r.paid, w, RAY * k, p - r.left, r.left, i);
    FloorGe(r.paid + w, p * i, RAY * k);
  }

  /** Two withdrawals of a sum below the displayed balance never pay more than one, and burn at
      least as much whenever both are paid in full. */
  lemma WithdrawSplitNeverBetter(first: int, second: int, p: int, i: int, k: int)
    requires first >= 0 && second >= 0 && p >= 0 && i > 0 && k > 0 && first + second < Displayed(p, i, k)
    ensures var r1 := Withdraw(first, p, i, k);
      var r2, single := Withdraw(second, p - r1.burned, i, k), Withdraw(first + second, p, i, k);
      && r1.paid + r2.paid <= single.paid
      && (r2.paid == second ==> single.burned <= r1.burned + r2.burned)
  {
    var p' := p - SharesFor(first, i, RAY * k);
    WorthBelowDisplayed(p', i, k);
    SharesForSplit(first, second, i, RAY * k);
    PartialBurnFits(first + second, p, i, k);
  }

  /** The extra burn stays within one share exactly when leg two is not shown the position as fully
      withdrawn, or the whole position is within one share of the price. */
  lemma WithdrawSplitSlack(first: int, second: int, p: int, i: int, k: int)
    requires first >= 0 && second >= 0 && p >= 0 && i > 0 && k > 0 && first + second < Displayed(p, i, k)
    ensures var r1 := Withdraw(first, p, i, k);
      var r2, single := Withdraw(second, p - r1.burned, i, k), Withdraw(first + second, p, i, k);
      r2.paid == second ==>
      (r1.burned + r2.burned <= single.burned + 1 <==>
       (second < Displayed(p - SharesFor(first, i, RAY * k), i, k) || p <= SharesFor(first + second, i, RAY * k) + 1))
  {
    SharesForSplit(first, second, i, RAY * k);
  }

  /** An 18-decimal market at a supply index of 1.1: withdrawing 1 + 1 closes a position that
      withdrawing 2 would leave a fifth of. */
  lemma WithdrawSplitSlackFails()
    ensures var i, p := 1_100_000_000_000_000_000_000_000_000, 2_272_727_273;
      && 2 < Displayed(p, i, Scale(18))
      && ResolveWithdrawal(1, p, i, 18) == Ok(Withdrawal(909_090_910, 1))
      && ResolveWithdrawal(1, p - 909_090_910, i, 18) == Ok(Withdrawal(1_363_636_363, 1))
      && ResolveWithdrawal(2, p, i, 18) == Ok(Withdrawal(1_818_181_819, 2))
  {
    FirstWithdrawal();
    ClosingWithdrawal();
    SingleWithdrawal();
  }

  lemma FirstWithdrawal()
    ensures ResolveWithdrawal(1, 2_272_727_273, 1_100_000_000_000_000_000_000_000_000, 18) == Ok(Withdrawal(909_090_910, 1))
  {
    EighteenDecimals();
  }

  lemma ClosingWithdrawal()
    ensures ResolveWithdrawal(1, 1_363_636_363, 1_100_000_000_000_000_000_000_000_000, 18) == Ok(Withdrawal(1_363_636_363, 1))
  {
    EighteenDecimals();
  }

  lemma SingleWithdrawal()
    ensures ResolveWithdrawal(2, 2_272_727_273, 1_100_000_000_000_000_000_000_000_000, 18) == Ok(Withdrawal(1_818_181_819, 2))
    ensures 2 < Displayed(2_272_727_273, 1_100_000_000_000_000_000_000_000_000, Scale(18))
  {
    EighteenDecimals();
  }
}
