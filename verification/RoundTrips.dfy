/** What pairs of ledger operations undo, and what single ones achieve: the partners of the
    one-sided bounds that every operation keeps. */
module RoundTrips {
  import opened Numbers
  import opened Rounding
  import opened Scaling
  import opened Ledger
  import FixedPoint

  // ----- supplying and closing

  lemma CloseScalars(amount: int, shares: int, paid: int, i: int, m: int)
    requires m > 0 && shares * i <= amount * m < shares * i + i && paid * m <= shares * i < paid * m + m
    ensures paid <= amount && (amount - paid - 1) * m < i
  {
    CancelLe(paid, amount, m);
    assert (amount - paid - 1) * m == amount * m - paid * m - m;
  }

  /** Supplying and then withdrawing everything leaves the market as it was except for what the
      caller lost: never a gain, and less than one unit plus one share's value. */
  lemma SupplyThenClose(p: Params, s: State, amount: int, request: int)
    requires p.Valid() && s.Valid() && SupplyLeg(p, s, 0, amount).Ok?
    requires var supplied := SupplyLeg(p, s, 0, amount).value;
      && Displayed(supplied.position, s.supplyIndex, Scale(p.decimals)) <= request
      && WithdrawLeg(p, supplied.state, supplied.position, request, false, 0).Ok?
    ensures var supplied := SupplyLeg(p, s, 0, amount).value;
      var closed := WithdrawLeg(p, supplied.state, supplied.position, request, false, 0).value;
      && closed.position == 0 && closed.state == s.(cash := s.cash + amount - closed.amount)
      && closed.amount <= amount && (amount - closed.amount - 1) * p.Unit() < s.supplyIndex
  {
    var supplied := SupplyLeg(p, s, 0, amount).value;
    var closed := WithdrawLeg(p, supplied.state, supplied.position, request, false, 0).value;
    var i, m := s.supplyIndex, p.Unit();
    ScaledFloorIs(amount, p.decimals, i);
    SharesNonNeg(amount, i, m);
    WithdrawalIs(request, supplied.position, i, p.decimals);
    FloorBounds(amount * m, i);
    FloorBounds(supplied.position * i, m);
    CloseScalars(amount, supplied.position, closed.amount, i, m);
  }

  // ----- borrowing and repaying

  lemma RepaidScalars(amount: int, shares: int, due: int, j: int, m: int)
    requires m > 0 && shares * j - j < amount * m <= shares * j && due * m - m < shares * j <= due * m
    ensures amount <= due && (due - amount - 1) * m < j
  {
    CancelLe(amount, due, m);
    assert (due - amount - 1) * m == due * m - amount * m - m;
  }

  /** Borrowing and then repaying everything leaves the market as it was except for what the caller
      overpaid: never less than was borrowed, and less than one unit plus one share's value more. */
  lemma BorrowThenClose(p: Params, s: State, amount: int, request: int)
    requires p.Valid() && s.Valid() && BorrowLeg(p, s, 0, amount).Ok?
    requires var borrowed := BorrowLeg(p, s, 0, amount).value;
      && Due(borrowed.position, s.borrowIndex, p.Unit()) <= request
      && RepayLeg(p, borrowed.state, borrowed.position, request).Ok?
    ensures var borrowed := BorrowLeg(p, s, 0, amount).value;
      var closed := RepayLeg(p, borrowed.state, borrowed.position, request).value;
      && closed.position == 0 && closed.state == s.(cash := s.cash - amount + closed.amount)
      && closed.amount + closed.transfer == request
      && amount <= closed.amount && (closed.amount - amount - 1) * p.Unit() < s.borrowIndex
  {
    var borrowed := BorrowLeg(p, s, 0, amount).value;
    var closed := RepayLeg(p, borrowed.state, borrowed.position, request).value;
    var j, m := s.borrowIndex, p.Unit();
    ScaledCeilIs(amount, p.decimals, j);
    RepayIs(request, borrowed.position, j, p.decimals);
    CeilBounds(amount * m, j);
    CeilBounds(borrowed.position * j, m);
    RepaidScalars(amount, borrowed.position, closed.amount, j, m);
  }

  // ----- one amount in many legs

  /** The amounts supplied one after another to one position. */
  function SupplyMany(p: Params, s: State, position: int, amounts: seq<int>): Result<Outcome>
    requires p.Valid()
  {
    if amounts == [] then Ok(Outcome(s, position, 0, 0, 0))
    else
      var before :- SupplyMany(p, s, position, amounts[..|amounts| - 1]);
      SupplyLeg(p, before.state, before.position, amounts[|amounts| - 1])
  }

  lemma SupplyEffect(p: Params, s: State, position: int, amount: int)
    requires p.Valid() && s.Valid() && SupplyLeg(p, s, position, amount).Ok?
    ensures var out, shares := SupplyLeg(p, s, position, amount).value, SharesWithin(amount, s.supplyIndex, p.Unit());
      && out.position == position + shares && out.state.Valid()
      && out.state == s.(supplied := s.supplied + shares, cash := s.cash + amount)
  {
    ScaledFloorIs(amount, p.decimals, s.supplyIndex);
    SupplyKeeps(p, s, position, amount);
  }

  /** `n` supplies mint at most what one supply of the total mints, and at most `n - 1` shares fewer,
      to the position and to the market alike, for the same cash. */
  lemma {:induction false} SupplyManyNeverMintsMore(p: Params, s: State, position: int, amounts: seq<int>)
    requires p.Valid() && s.Valid() && amounts != [] && SupplyMany(p, s, position, amounts).Ok?
    ensures var out := SupplyMany(p, s, position, amounts).value;
      var minted, single := out.position - position, SharesWithin(Total(amounts), s.supplyIndex, p.Unit());
      && out.state.Valid() && out.state == s.(supplied := s.supplied + minted, cash := s.cash + Total(amounts))
      && single - (|amounts| - 1) <= minted <= single
  {
    var last, rest, m := amounts[|amounts| - 1], amounts[..|amounts| - 1], p.Unit();
    if rest == [] {
      SupplyEffect(p, s, position, last);
    } else {
      var before := SupplyMany(p, s, position, rest).value;
      SupplyManyNeverMintsMore(p, s, position, rest);
      SupplyEffect(p, before.state, before.position, last);
      SharesWithinSplit(Total(rest), last, s.supplyIndex, m);
    }
  }

  /** The amounts borrowed one after another by one position. */
  function BorrowMany(p: Params, s: State, position: int, amounts: seq<int>): Result<Outcome>
    requires p.Valid()
  {
    if amounts == [] then Ok(Outcome(s, position, 0, 0, 0))
    else
      var before :- BorrowMany(p, s, position, amounts[..|amounts| - 1]);
      BorrowLeg(p, before.state, before.position, amounts[|amounts| - 1])
  }

  lemma BorrowEffect(p: Params, s: State, position: int, amount: int)
    requires p.Valid() && s.Valid() && BorrowLeg(p, s, position, amount).Ok?
    ensures var out, shares := BorrowLeg(p, s, position, amount).value, SharesFor(amount, s.borrowIndex, p.Unit());
      && out.position == position + shares && out.state.Valid()
      && out.state == s.(borrowed := s.borrowed + shares, cash := s.cash - amount)
  {
    ScaledCeilIs(amount, p.decimals, s.borrowIndex);
    BorrowKeeps(p, s, position, amount);
  }

  /** `n` borrows owe at least what one borrow of the total owes, and at most `n - 1` shares more. */
  lemma {:induction false} BorrowManyNeverOwesLess(p: Params, s: State, position: int, amounts: seq<int>)
    requires p.Valid() && s.Valid() && amounts != [] && BorrowMany(p, s, position, amounts).Ok?
    ensures var out := BorrowMany(p, s, position, amounts).value;
      var owed, single := out.position - position, SharesFor(Total(amounts), s.borrowIndex, p.Unit());
      && out.state.Valid() && out.state == s.(borrowed := s.borrowed + owed, cash := s.cash - Total(amounts))
      && single <= owed <= single + (|amounts| - 1)
  {
    var last, rest, m := amounts[|amounts| - 1], amounts[..|amounts| - 1], p.Unit();
    if rest == [] {
      BorrowEffect(p, s, position, last);
    } else {
      var before := BorrowMany(p, s, position, rest).value;
      BorrowManyNeverOwesLess(p, s, position, rest);
      BorrowEffect(p, before.state, before.position, last);
      SharesForSplit(Total(rest), last, s.borrowIndex, m);
    }
  }

  // ----- recapitalisation

  /** The payment and the refund make up the amount, and the shortfall falls by exactly what was
      applied, to zero when the amount covers it. */
  lemma RecapitalizeRestores(p: Params, s: State, amount: int)
    requires p.Valid() && s.Valid() && RecapitalizeLeg(p, s, amount).Ok?
    ensures var out, shortfall := RecapitalizeLeg(p, s, amount).value, BackingShortfall(p, s).value;
      && out.amount + out.transfer == amount && out.amount == Min(amount, shortfall)
      && BackingShortfall(p, out.state) == Ok(shortfall - out.amount)
  {
    var claims, debt := Floor(s.supplied * s.supplyIndex, RAY), Ceil(s.borrowed * s.borrowIndex, RAY);
    if claims > debt {
      ShortageFalls(claims - debt, Scale(p.decimals), s.cash, RecapitalizeLeg(p, s, amount).value.amount);
    }
  }

  lemma ShortageFalls(uncovered: int, scale: int, cash: int, paid: int)
    requires scale >= 1 && 0 <= uncovered <= I128_MAX && 0 <= cash && 0 <= paid <= Shortage(uncovered, scale, cash)
    ensures Shortage(uncovered, scale, cash + paid) == Shortage(uncovered, scale, cash) - paid
  {
    QuotientAtMost(uncovered, scale);
  }

  lemma QuotientAtMost(n: int, k: int)
    requires n >= 0 && k >= 1
    ensures 0 <= FixedPoint.Trunc(n, k) <= n
  {
    FloorNonNeg(n, k);
    FloorBounds(n, k);
    MulMono(1, k, Floor(n, k));
  }

  // ----- revenue

  /** A claim pays all the cash there is for revenue, up to its floored value, at the protocol's
      expense alone; paying the full value leaves no revenue shares. */
  lemma ClaimTakesAllItCan(p: Params, s: State)
    requires p.Valid() && s.Valid() && ClaimLeg(p, s).Ok?
    ensures var out, worth := ClaimLeg(p, s).value, Worth(s.revenue, s.supplyIndex, p.Unit());
      && out.amount == Min(s.cash, worth)
      && out.state.cash == s.cash - out.amount
      && out.state.supplied - out.state.revenue == s.supplied - s.revenue
      && (0 < out.amount == worth ==> out.state.revenue == 0)
  {
    UnscaleFloorIs(s.revenue, s.supplyIndex, p.decimals);
    MulNonNeg(s.revenue, s.supplyIndex);
    FloorNonNeg(s.revenue * s.supplyIndex, p.Unit());
  }

  /** The fee is the nearest unit to its rate, and never nothing at a positive rate. */
  lemma FlashFeeCharges(bps: int, amount: int)
    requires FlashFee(bps, amount).Ok?
    ensures var fee := FlashFee(bps, amount).value;
      && (bps > 0 ==> fee >= 1)
      && 2 * (amount * bps) < 2 * (fee * BPS) + BPS
      && (fee == 1 || 2 * (fee * BPS) - BPS <= 2 * (amount * bps))
  {
    HalfUpBounds(amount * bps, BPS);
    MulNonNeg(amount, bps);
    FloorNonNeg(amount * bps, BPS);
  }
}
