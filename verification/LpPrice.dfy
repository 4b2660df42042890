/** Model of the integer square root of a 256-bit product and of the constant-product LP price
    built on it. */
module LpPrice {
  import opened Numbers
  import opened Rounding
  import opened U256
  import FixedPoint

  /** Integer square root, as the standard library's `u128::isqrt` documents it. */
  function Isqrt(n: nat): (r: nat)
    ensures r * r <= n < (r + 1) * (r + 1)
  {
    if n == 0 then 0
    else
      var r := Isqrt(n - 1);
      if (r + 1) * (r + 1) <= n then r + 1 else r
  }

  lemma IsqrtUnique(n: nat, r: nat)
    requires r * r <= n < (r + 1) * (r + 1)
    ensures r == Isqrt(n)
  {
    SquaresOrder(r, Isqrt(n) + 1);
    SquaresOrder(Isqrt(n), r + 1);
  }

  lemma SquaresOrder(r: nat, s: nat)
    requires r * r < s * s
    ensures r < s
  {
    if s <= r { MulMono(s, r, s); MulMono(s, r, r); }
  }

  lemma SquaresNoLess(r: nat, s: nat)
    requires r <= s
    ensures r * r <= s * s
  {
    MulMono(r, s, r);
    MulMono(r, s, s);
  }

  /** One Newton step never lands below the integer root. */
  lemma NewtonStaysAboveRoot(x: int, n: int)
    requires x > 0 && n >= 0
    ensures Newton(x, n) >= 0 && n < (Newton(x, n) + 1) * (Newton(x, n) + 1)
  {
    var f := Floor(n, x);
    var y := Floor(x + f, 2);
    FloorBounds(n, x);
    FloorNonNeg(n, x);
    var m := y + 1;
    MulMono(x + f + 1, 2 * m, x);
    assert (x + f + 1) * x == x * x + f * x + x;
    SquareNonNeg(x - m);
    assert (x - m) * (x - m) == x * x + m * m - (2 * m) * x;
  }

  lemma SeedAboveRoot(a: nat, b: nat, s: nat, t: nat)
    requires a < s * s && b < t * t
    ensures a * b < (s * t) * (s * t)
  {
    MulMono(a, s * s, b);
    MulMono(b + 1, t * t, s * s);
    assert (s * t) * (s * t) == (s * s) * (t * t);
    assert (s * s) * (b + 1) == (s * s) * b + s * s;
  }

  lemma IsqrtFits(a: u128)
    ensures Isqrt(a) <= 0xFFFF_FFFF_FFFF_FFFF
  {
    SquaresOrder(Isqrt(a), 0x1_0000_0000_0000_0000);
  }

  lemma ProductFits(a: u128, b: u128)
    ensures 0 <= a * b <= U128_MAX * U128_MAX
  {
    MulMono(a, U128_MAX, b);
    MulMono(b, U128_MAX, U128_MAX);
    MulNonNeg(a, b);
  }

  /** The next Newton iterate. */
  function Newton(x: int, n: int): int
    requires x > 0
  {
    Floor(x + Floor(n, x), 2)
  }

  lemma NewtonInRange(x: int, n: int)
    requires x > 0 && n >= 0
    ensures 0 <= Floor(n, x) <= n
  {
    FloorNonNeg(n, x);
    FloorBounds(n, x);
    MulMono(1, x, Floor(n, x));
  }

  /** A seed made of both roots is above the root of the product, and no larger than `2^128`. */
  lemma SeedFits(a: u128, b: u128, s: int, t: int)
    requires s == Isqrt(a) + 1 && t == Isqrt(b) + 1
    ensures 0 < s * t <= 0x1_0000_0000_0000_0000_0000_0000_0000_0000 && a * b < (s * t + 1) * (s * t + 1)
  {
    IsqrtFits(a);
    IsqrtFits(b);
    MulMono(s, 0x1_0000_0000_0000_0000, t);
    MulMono(1, s, t);
    SeedAboveRoot(a, b, s, t);
    StrictSquares(s * t, s * t + 1);
  }

  /** Where the iterates stop falling, `x` is at most the root. */
  lemma NewtonStops(x: int, n: int)
    requires x > 0 && n >= 0 && Newton(x, n) >= x
    ensures x * x <= n
  {
    FloorBounds(n, x);
    MulMono(x, Floor(n, x), x);
  }

  /** `floor(sqrt(a * b))`, exactly, for every pair of `u128`; no 256-bit step leaves its range. */
  method IsqrtOfProduct(a: u128, b: u128) returns (x: u256)
    ensures x * x <= a * b < (x + 1) * (x + 1)
    ensures x == Isqrt(a * b)
  {
    ProductFits(a, b);
    var n: u256 := Mul(a, b);
    if n <= 1 {
      IsqrtUnique(a * b, n);
      return n;
    }
    SeedFits(a, b, Isqrt(a) + 1, Isqrt(b) + 1);
    IsqrtFits(a);
    IsqrtFits(b);
    var rootA: u128 := Min(U128_MAX, Isqrt(a) + 1);
    var rootB: u128 := Min(U128_MAX, Isqrt(b) + 1);
    x := Mul(rootA, rootB);
    NewtonInRange(x, n);
    var y: u256 := Div(Add(x, Div(n, x)), 2);
    while y < x
      invariant 0 < x <= 0x1_0000_0000_0000_0000_0000_0000_0000_0000
      invariant n < (x + 1) * (x + 1)
      invariant y == Newton(x, n)
      decreases x
    {
      NewtonStaysAboveRoot(x, n);
      NewtonInRange(y, n);
      x := y;
      y := Div(Add(x, Div(n, x)), 2);
    }
    NewtonStops(x, n);
    IsqrtUnique(a * b, x);
  }

  // ----- the fair price of a constant-product LP share

  datatype Leg = Leg(reserve: i128, decimals: nat, priceWad: i128)
  datatype Supply = Supply(totalShares: i128, decimals: nat)

  predicate Positive(a: Leg, b: Leg, s: Supply) {
    a.reserve > 0 && b.reserve > 0 && a.priceWad > 0 && b.priceWad > 0 && s.totalShares > 0
  }

  function OrInvalid(q: Option<i128>): (r: Result<int>)
    ensures r.Ok? <==> q.Some?
  {
    match q
    case Some(v) => Ok(v)
    case None => Err(InvalidPrice)
  }

  /** A token amount in WAD units. */
  function AmountToWad(amount: i128, decimals: nat): (r: Result<int>)
    ensures r == if decimals <= WAD_DECIMALS && amount >= 0 && FitsI128(amount * Pow10(WAD_DECIMALS - decimals))
                 then Ok(amount * Pow10(WAD_DECIMALS - decimals)) else Err(InvalidPrice)
  {
    if decimals > WAD_DECIMALS then Err(InvalidPrice)
    else
      var k := WAD_DECIMALS - decimals;
      WadScaleFits(k);
      var scale := FixedPoint.CheckedPow10(k);
      FixedPoint.MulDivHalfUpExact(amount, scale.value, 1);
      HalfUpUnique(amount * scale.value, amount * scale.value, 1);
      OrInvalid(FixedPoint.TryMulDivHalfUp(amount, scale.value, 1))
  }

  lemma WadScaleFits(k: nat)
    requires k <= WAD_DECIMALS
    ensures 1 <= Pow10(k) <= WAD
  {
    FixedPoint.Pow10Grows(k, WAD_DECIMALS);
    FixedPoint.Pow10Value();
  }

  /** `reserve * price / 10^decimals`, half up. */
  function ReserveValue(leg: Leg): (r: Result<int>)
    requires leg.reserve > 0 && leg.priceWad > 0
    ensures r.Err? ==> r.error == InvalidPrice
    ensures r.Ok? <==> FitsI128(Pow10(leg.decimals)) && HalfUp(leg.reserve * leg.priceWad, Pow10(leg.decimals)) <= I128_MAX
    ensures r.Ok? ==> 0 <= r.value <= I128_MAX
    ensures r.Ok? ==> r.value == HalfUp(leg.reserve * leg.priceWad, Pow10(leg.decimals))
  {
    var denom := FixedPoint.CheckedPow10(leg.decimals);
    if denom.None? then Err(InvalidPrice)
    else
      FixedPoint.MulDivHalfUpExact(leg.reserve, leg.priceWad, denom.value);
      MulNonNeg(leg.reserve, leg.priceWad);
      FloorNonNeg(leg.reserve * leg.priceWad, denom.value);
      OrInvalid(FixedPoint.TryMulDivHalfUp(leg.reserve, leg.priceWad, denom.value))
  }

  /** A 256-bit value as `i128`, or no price. */
  function PriceOf(value: int): (r: Result<int>) {
    if value <= I128_MAX then Ok(value) else Err(InvalidPrice)
  }

  /** The price the source documents: `2 sqrt(valueA * valueB)` over the share supply. */
  function LpPriceSpec(a: Leg, b: Leg, s: Supply): (r: Result<int>)
    ensures r.Err? ==> r.error == InvalidPrice
  {
    if !Positive(a, b, s) then Err(InvalidPrice)
    else
      var valueA :- ReserveValue(a);
      var valueB :- ReserveValue(b);
      var shares :- AmountToWad(s.totalShares, s.decimals);
      if shares <= 0 then Err(InvalidPrice)
      else
        MulNonNeg(valueA, valueB);
        PriceOf(Floor(2 * Isqrt(valueA * valueB) * WAD, shares))
  }

  /** The program text; that it verifies means no 256-bit multiplication can trap. */
  method FairLpPrice(a: Leg, b: Leg, s: Supply) returns (r: Result<int>)
    ensures r == LpPriceSpec(a, b, s)
  {
    if a.reserve <= 0 || b.reserve <= 0 || a.priceWad <= 0 || b.priceWad <= 0 || s.totalShares <= 0 {
      return Err(InvalidPrice);
    }
    var valueA :- ReserveValue(a);
    var valueB :- ReserveValue(b);
    var root := IsqrtOfProduct(valueA, valueB);
    RootBelow(valueA, valueB, I128_MAX);
    var total: u256 := Mul(root, 2);
    var shares :- AmountToWad(s.totalShares, s.decimals);
    if shares <= 0 {
      return Err(InvalidPrice);
    }
    var fair: u256 := Div(Mul(total, WAD), shares);
    r := PriceOf(fair);
  }

  lemma RootBelow(x: nat, y: nat, bound: nat)
    requires x <= bound && y <= bound
    ensures x * y >= 0 && Isqrt(x * y) <= bound
  {
    TwiceRootBelowSum(x, y);
  }

  /** Twice the integer geometric mean is at most the sum. */
  lemma TwiceRootBelowSum(x: nat, y: nat)
    ensures x * y >= 0 && 2 * Isqrt(x * y) <= x + y
  {
    MulNonNeg(x, y);
    MeanInequality(x, y, Isqrt(x * y));
  }

  lemma MeanInequality(x: nat, y: nat, r: nat)
    requires r * r <= x * y
    ensures 2 * r <= x + y
  {
    SquareNonNeg(x - y);
    assert (x - y) * (x - y) == (x + y) * (x + y) - 4 * (x * y);
    assert (2 * r) * (2 * r) == 4 * (r * r);
    if 2 * r > x + y { StrictSquares(x + y, 2 * r); }
  }

  lemma StrictSquares(r: nat, s: nat)
    requires r < s
    ensures r * r < s * s
  {
    MulMono(r, s, r);
    MulMono(r + 1, s, s);
  }

  /** All shares at the quoted price are worth at most both reserves at their own prices. */
  lemma PriceBelowReserves(a: Leg, b: Leg, s: Supply)
    requires LpPriceSpec(a, b, s).Ok?
    ensures ReserveValue(a).Ok? && ReserveValue(b).Ok? && AmountToWad(s.totalShares, s.decimals).Ok?
    ensures LpPriceSpec(a, b, s).value * AmountToWad(s.totalShares, s.decimals).value
         <= (ReserveValue(a).value + ReserveValue(b).value) * WAD
  {
    var x, y := ReserveValue(a).value, ReserveValue(b).value;
    var shares := AmountToWad(s.totalShares, s.decimals).value;
    TwiceRootBelowSum(x, y);
    FloorBounds(2 * Isqrt(x * y) * WAD, shares);
  }

  /** A balanced pool is priced at its whole value: both legs over the supply, floored once. */
  lemma BalancedPoolAtFullValue(a: Leg, b: Leg, s: Supply)
    requires LpPriceSpec(a, b, s).Ok? && ReserveValue(a) == ReserveValue(b)
    ensures LpPriceSpec(a, b, s).value
         == Floor((ReserveValue(a).value + ReserveValue(b).value) * WAD, AmountToWad(s.totalShares, s.decimals).value)
  {
    RootOfSquare(ReserveValue(a).value);
  }

  lemma RootOfSquare(x: nat)
    ensures 0 <= x * x && Isqrt(x * x) == x
  {
    MulNonNeg(x, x);
    StrictSquares(x, x + 1);
    IsqrtUnique(x * x, x);
  }

  lemma PriceIsSymmetric(a: Leg, b: Leg, s: Supply)
    ensures LpPriceSpec(a, b, s) == LpPriceSpec(b, a, s)
  {
    if Positive(a, b, s) && ReserveValue(a).Ok? && ReserveValue(b).Ok? {
      var x, y := ReserveValue(a).value, ReserveValue(b).value;
      assert x * y == y * x;
    }
  }

  lemma TradeScalars(v: int, x: int, x': int, p: int, k: int, v': int)
    requires k > 0 && 2 * v * k - k <= 2 * (x * p) && 2 * (x' * p) < 2 * v' * k + k
    ensures (2 * v - 1) * k <= 2 * (x * p) && 2 * (x' * p) < (2 * v' + 1) * k
  {
  }

  /** `2va - 1` times `2vb - 1` is below `2va' + 1` times `2vb' + 1`, cancelling the two scales. */
  lemma ProductScalars(ka: int, kb: int, a: int, b: int, a': int, b': int, x: int, y: int, x': int, y': int, p: int, q: int)
    requires ka > 0 && kb > 0 && a > 0 && b > 0 && p > 0 && q > 0 && x * y <= x' * y' && x' > 0 && y' > 0
    requires a * ka <= 2 * (x * p) && 2 * (x' * p) < a' * ka && b * kb <= 2 * (y * q) && 2 * (y' * q) < b' * kb
    ensures a * b < a' * b'
  {
    MulNonNeg(b, kb);
    MulMono(a * ka, 2 * (x * p), b * kb);
    MulMono(1, a, ka);
    MulMono(b * kb, 2 * (y * q), 2 * (x * p));
    MulNonNeg(p, q);
    MulMono(x * y, x' * y', 4 * (p * q));
    MulNonNeg(y', q);
    MulNonNeg(x', p);
    StrictProducts(2 * (x' * p), a' * ka, 2 * (y' * q), b' * kb);
    ProductIdentities(ka, kb, a, b, a', b', x, y, x', y', p, q);
    MulMono(1, ka, kb);
    CancelLt(a * b, a' * b', ka * kb);
  }

  lemma StrictProducts(a: int, b: int, c: int, d: int)
    requires 0 <= a < b && 0 <= c < d
    ensures a * c < b * d
  {
    MulMono(a, b, c);
    MulMono(c + 1, d, b);
    assert b * (c + 1) == b * c + b;
  }

  lemma ProductIdentities(ka: int, kb: int, a: int, b: int, a': int, b': int, x: int, y: int, x': int, y': int, p: int, q: int)
    ensures (a * ka) * (b * kb) == (a * b) * (ka * kb)
    ensures (a' * ka) * (b' * kb) == (a' * b') * (ka * kb)
    ensures (2 * (x * p)) * (2 * (y * q)) == (4 * (p * q)) * (x * y)
    ensures (2 * (x' * p)) * (2 * (y' * q)) == (4 * (p * q)) * (x' * y')
  {
  }

  /** The legs after a trade at fixed prices that does not lower the product of the reserves. */
  predicate Traded(a: Leg, b: Leg, a': Leg, b': Leg) {
    && a' == a.(reserve := a'.reserve) && b' == b.(reserve := b'.reserve)
    && a.reserve * b.reserve <= a'.reserve * b'.reserve
  }

  lemma ValueProducts(ka: int, kb: int, va: int, vb: int, va': int, vb': int, x: int, y: int, x': int, y': int, p: int, q: int)
    requires ka > 0 && kb > 0 && p > 0 && q > 0 && x * y <= x' * y' && x' > 0 && y' > 0
    requires 0 <= va && 0 <= vb && 0 <= va' && 0 <= vb'
    requires (2 * va - 1) * ka <= 2 * (x * p) && 2 * (x' * p) < (2 * va' + 1) * ka
    requires (2 * vb - 1) * kb <= 2 * (y * q) && 2 * (y' * q) < (2 * vb' + 1) * kb
    ensures 2 * (va * vb) <= 2 * (va' * vb') + (va + vb + va' + vb')
  {
    if va > 0 && vb > 0 {
      ProductScalars(ka, kb, 2 * va - 1, 2 * vb - 1, 2 * va' + 1, 2 * vb' + 1, x, y, x', y', p, q);
      OddProducts(va, vb, va', vb');
    } else {
      NothingToLose(va, vb, va', vb');
    }
  }

  lemma OddProducts(va: int, vb: int, va': int, vb': int)
    requires (2 * va - 1) * (2 * vb - 1) < (2 * va' + 1) * (2 * vb' + 1)
    ensures 2 * (va * vb) <= 2 * (va' * vb') + (va + vb + va' + vb')
  {
    assert (2 * va - 1) * (2 * vb - 1) == 4 * (va * vb) - 2 * va - 2 * vb + 1;
    assert (2 * va' + 1) * (2 * vb' + 1) == 4 * (va' * vb') + 2 * va' + 2 * vb' + 1;
  }

  lemma NothingToLose(va: int, vb: int, va': int, vb': int)
    requires 0 <= va && 0 <= vb && 0 <= va' && 0 <= vb' && (va == 0 || vb == 0)
    ensures 2 * (va * vb) <= 2 * (va' * vb') + (va + vb + va' + vb')
  {
    MulNonNeg(va', vb');
  }

  lemma TradeKeepsValues(a: Leg, b: Leg, a': Leg, b': Leg)
    requires a.reserve > 0 && b.reserve > 0 && a.priceWad > 0 && b.priceWad > 0 && a'.reserve > 0 && b'.reserve > 0
    requires Traded(a, b, a', b')
    requires ReserveValue(a).Ok? && ReserveValue(b).Ok? && ReserveValue(a').Ok? && ReserveValue(b').Ok?
    ensures var va, vb, va', vb' := ReserveValue(a).value, ReserveValue(b).value, ReserveValue(a').value, ReserveValue(b').value;
      2 * (va * vb) <= 2 * (va' * vb') + (va + vb + va' + vb')
  {
    var va, vb, va', vb' := ReserveValue(a).value, ReserveValue(b).value, ReserveValue(a').value, ReserveValue(b').value;
    var ka, kb := Pow10(a.decimals), Pow10(b.decimals);
    HalfUpBounds(a.reserve * a.priceWad, ka);
    HalfUpBounds(b.reserve * b.priceWad, kb);
    HalfUpBounds(a'.reserve * a.priceWad, ka);
    HalfUpBounds(b'.reserve * b.priceWad, kb);
    TradeScalars(va, a.reserve, a'.reserve, a.priceWad, ka, va');
    TradeScalars(vb, b.reserve, b'.reserve, b.priceWad, kb, vb');
    ValueProducts(ka, kb, va, vb, va', vb', a.reserve, b.reserve, a'.reserve, b'.reserve, a.priceWad, b.priceWad);
  }

  lemma PriceScalars(worth: int, worth': int, r: int, r': int, v: int, v': int, sum: int)
    requires 0 <= worth <= 2 * r * WAD && 0 <= r' && 2 * r' * WAD <= worth' && 0 <= sum
    requires 0 <= r && r * r <= v && v' < (r' + 1) * (r' + 1) && 2 * v <= 2 * v' + sum
    ensures 2 * (worth * worth) <= 2 * ((worth' + 2 * WAD) * (worth' + 2 * WAD)) + 4 * (WAD * WAD) * sum
  {
    SquareMono(worth, 2 * r * WAD);
    SquareMono(2 * (r' + 1) * WAD, worth' + 2 * WAD);
    ScaledSquare(r, WAD);
    ScaledSquare(r' + 1, WAD);
    SquaresOrdered(worth * worth, (worth' + 2 * WAD) * (worth' + 2 * WAD), r * r, (r' + 1) * (r' + 1), v, v', sum, WAD * WAD);
  }

  lemma ScaledSquare(r: int, scale: int)
    ensures (2 * r * scale) * (2 * r * scale) == 4 * (scale * scale) * (r * r)
  {
    var m := r * scale;
    assert 2 * r * scale == 2 * m && (2 * m) * (2 * m) == 4 * (m * m);
    assert m * m == (scale * scale) * (r * r);
  }

  lemma SquaresOrdered(x: int, y: int, rr: int, ss: int, v: int, v': int, sum: int, unit: int)
    requires x <= 4 * unit * rr && 4 * unit * ss <= y && 0 <= unit && rr <= v && v' <= ss && 2 * v <= 2 * v' + sum
    ensures 2 * x <= 2 * y + 4 * unit * sum
  {
    MulMono(2 * rr, 2 * ss + sum, 4 * unit);
  }

  lemma SquareMono(x: int, y: int)
    requires 0 <= x <= y
    ensures x * x <= y * y
  {
    MulMono(x, y, x);
    MulMono(x, y, y);
  }

  /** A trade at fixed prices that does not lower the product of the reserves cannot lower the value
      of all shares by more than the roundings: of the four leg values, the root and the price. */
  lemma TradeKeepsPrice(a: Leg, b: Leg, a': Leg, b': Leg, s: Supply)
    requires LpPriceSpec(a, b, s).Ok? && LpPriceSpec(a', b', s).Ok? && Traded(a, b, a', b')
    ensures ReserveValue(a).Ok? && ReserveValue(b).Ok? && ReserveValue(a').Ok? && ReserveValue(b').Ok?
    ensures AmountToWad(s.totalShares, s.decimals).Ok?
    ensures var sum := ReserveValue(a).value + ReserveValue(b).value + ReserveValue(a').value + ReserveValue(b').value;
      var shares := AmountToWad(s.totalShares, s.decimals).value;
      var worth, after := LpPriceSpec(a, b, s).value * shares, (LpPriceSpec(a', b', s).value + 1) * shares;
      2 * (worth * worth) <= 2 * ((after + 2 * WAD) * (after + 2 * WAD)) + 4 * (WAD * WAD) * sum
  {
    var va, vb, va', vb' := ReserveValue(a).value, ReserveValue(b).value, ReserveValue(a').value, ReserveValue(b').value;
    var shares, r, r' := AmountToWad(s.totalShares, s.decimals).value, RootOf(va, vb), RootOf(va', vb');
    var price, price' := LpPriceSpec(a, b, s).value, LpPriceSpec(a', b', s).value;
    TradeKeepsValues(a, b, a', b');
    PriceBounds(a, b, s);
    PriceBounds(a', b', s);
    PriceScalars(price * shares, (price' + 1) * shares, r, r', va * vb, va' * vb', va + vb + va' + vb');
  }

  function RootOf(x: nat, y: nat): (r: nat)
    ensures r * r <= x * y < (r + 1) * (r + 1) && 0 <= x * y && r == Isqrt(x * y)
  {
    MulNonNeg(x, y);
    Isqrt(x * y)
  }

  /** The price in terms of the root of the leg values. */
  lemma PriceBounds(a: Leg, b: Leg, s: Supply)
    requires LpPriceSpec(a, b, s).Ok?
    ensures ReserveValue(a).Ok? && ReserveValue(b).Ok? && AmountToWad(s.totalShares, s.decimals).Ok?
    ensures var r, shares := RootOf(ReserveValue(a).value, ReserveValue(b).value), AmountToWad(s.totalShares, s.decimals).value;
      var price := LpPriceSpec(a, b, s).value;
      shares > 0 && 0 <= price * shares <= 2 * r * WAD < (price + 1) * shares
  {
    var r, shares := RootOf(ReserveValue(a).value, ReserveValue(b).value), AmountToWad(s.totalShares, s.decimals).value;
    FlooredPrice(r, shares, LpPriceSpec(a, b, s).value);
  }

  lemma FlooredPrice(r: nat, shares: int, price: int)
    requires shares > 0 && price == Floor(2 * r * WAD, shares)
    ensures 0 <= price * shares <= 2 * r * WAD < (price + 1) * shares
  {
    FloorBounds(2 * r * WAD, shares);
    FloorNonNeg(2 * r * WAD, shares);
    MulNonNeg(price, shares);
    assert (price + 1) * shares == price * shares + shares;
  }

  /** The price exists exactly when every input is positive and each scaled value and the price itself
      fit; and then twice the root over the supply is within one unit above it. */
  lemma LpPriceIff(a: Leg, b: Leg, s: Supply)
    ensures LpPriceSpec(a, b, s).Ok? <==>
      && Positive(a, b, s) && ReserveValue(a).Ok? && ReserveValue(b).Ok? && AmountToWad(s.totalShares, s.decimals).Ok?
      && 2 * RootOf(ReserveValue(a).value, ReserveValue(b).value) * WAD < (I128_MAX + 1) * AmountToWad(s.totalShares, s.decimals).value
  {
    if Positive(a, b, s) && ReserveValue(a).Ok? && ReserveValue(b).Ok? && AmountToWad(s.totalShares, s.decimals).Ok? {
      var r, shares := RootOf(ReserveValue(a).value, ReserveValue(b).value), AmountToWad(s.totalShares, s.decimals).value;
      MulMono(1, Pow10(WAD_DECIMALS - s.decimals), s.totalShares);
      FloorGe(I128_MAX + 1, 2 * r * WAD, shares);
    }
  }
}
