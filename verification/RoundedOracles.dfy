/** The aggregator's own arithmetic: whole-unit prices, half-up products, truncated midpoints and the LP
    price programs. One provider moves such a price by at most its exact reach and a pad for each
    rounding on the way. */
module RoundedOracles {
  import opened Numbers
  import opened Rounding
  import opened Ratios
  import opened PaddedRatios
  import opened Oracles
  import FixedPoint
  import LpPrice
  import StableSwap

  /** What a pool contract reports. */
  datatype PoolState = PoolState(reserveA: i128, decimalsA: nat, reserveB: i128, decimalsB: nat, supply: LpPrice.Supply, amp: int)

  /** One observable moment in whole WAD units. */
  datatype Moment = Moment(report: Feed -> Option<i128>, pool: string -> PoolState, installed: Key -> nat)

  // ----- what the aggregator computes

  function FeedWad(w: Moment, feed: Feed): Result<i128> {
    match w.report(feed)
    case None => Err(InvalidPrice)
    case Some(price) => Ok(price)
  }

  predicate AgreeWad(upperRatioBps: nat, a: int, b: int) {
    Min(a, b) > 0 && HalfUp(Max(a, b) * BPS, Min(a, b)) <= upperRatioBps
  }

  /** The truncated midpoint, zero where the sum overflows. */
  function MidpointWad(a: int, b: int): int {
    if a + b > I128_MAX then 0 else FixedPoint.Trunc(a + b, 2)
  }

  function AcceptWad(o: Oracle, price: int): (r: Result<int>)
    ensures r.Ok? ==> r.value == price > 0 && o.minSanity <= price as real <= o.maxSanity
  {
    if price > 0 && o.minSanity <= price as real <= o.maxSanity then Ok(price) else Err(InvalidPrice)
  }

  function ScaledWad(factor: int, quote: int): Result<int> {
    match FixedPoint.MulHalfUp(factor, quote, WAD)
    case Err(_) => Err(InvalidPrice)
    case Ok(price) => Ok(price)
  }

  function LegA(s: PoolState, price: i128): LpPrice.Leg {
    LpPrice.Leg(s.reserveA, s.decimalsA, price)
  }

  function LegB(s: PoolState, price: i128): LpPrice.Leg {
    LpPrice.Leg(s.reserveB, s.decimalsB, price)
  }

  function ResolveWad(n: Network, w: Moment, key: Key, stack: set<Key>): (r: Result<int>)
    ensures r.Ok? ==> 0 < r.value <= I128_MAX
    decreases |n.oracles.Keys - stack|, 2
  {
    var _ :- Require(key !in stack, OracleCycle);
    var _ :- Require(key in n.oracles && w.installed(key) < |n.oracles[key]|, OracleMissing);
    Smaller(n, key, stack);
    OracleWad(n, w, n.oracles[key][w.installed(key)], stack + {key})
  }

  function OracleWad(n: Network, w: Moment, o: Oracle, stack: set<Key>): (r: Result<int>)
    ensures r.Ok? ==> 0 < r.value <= I128_MAX
    decreases |n.oracles.Keys - stack|, 4
  {
    var _ :- Require(1 <= |o.sources| <= 2, SourceCount);
    var first :- SourceWad(n, w, o.sources[0], stack);
    if |o.sources| == 1 then AcceptWad(o, first)
    else
      var second :- SourceWad(n, w, o.sources[1], stack);
      var _ :- Require(AgreeWad(o.upperRatioBps, first, second), InvalidPrice);
      AcceptWad(o, MidpointWad(first, second))
  }

  function SourceWad(n: Network, w: Moment, source: Source, stack: set<Key>): (r: Result<int>)
    ensures r.Ok? ==> r.value <= I128_MAX
    decreases |n.oracles.Keys - stack|, 3
  {
    match source
    case Plain(feed) => FeedWad(w, feed)
    case Scaled(factor, minFactor, maxFactor, quote) =>
      var f :- FeedWad(w, factor);
      var _ :- Require(minFactor <= f as real <= maxFactor, InvalidPrice);
      var q :- ResolveWad(n, w, quote, stack);
      ScaledWad(f, q)
    case VolatileLp(pool, keyA, keyB) =>
      var a :- ResolveWad(n, w, keyA, stack);
      var b :- ResolveWad(n, w, keyB, stack);
      LpPrice.LpPriceSpec(LegA(w.pool(pool), a), LegB(w.pool(pool), b), w.pool(pool).supply)
    case StableLp(pool, keyA, keyB) =>
      var a :- ResolveWad(n, w, keyA, stack);
      var b :- ResolveWad(n, w, keyB, stack);
      StableSwap.StablePriceSpec(LegA(w.pool(pool), a), LegB(w.pool(pool), b), w.pool(pool).supply, w.pool(pool).amp)
  }

  // ----- what each rounding computes

  /** Two legs agree exactly when twice the larger is below twice the tolerated ratio and one half of the
      smaller, in BPS. */
  lemma AgreeWadIff(upperRatioBps: nat, a: int, b: int)
    ensures AgreeWad(upperRatioBps, a, b) <==>
      0 < a && 0 < b && 2 * (Max(a, b) * BPS) < (2 * upperRatioBps + 1) * Min(a, b)
  {
    if Min(a, b) > 0 {
      HalfUpLe(upperRatioBps, Max(a, b) * BPS, Min(a, b));
      assert (2 * upperRatioBps + 1) * Min(a, b) == 2 * upperRatioBps * Min(a, b) + Min(a, b);
    }
  }

  /** A scaled price is the nearest unit to factor times quote, and fails only off the word's range. */
  lemma ScaledWadIs(factor: int, quote: int)
    ensures ScaledWad(factor, quote).Ok? <==> 0 <= factor && 0 <= quote && HalfUp(factor * quote, WAD) <= I128_MAX
    ensures ScaledWad(factor, quote).Ok? ==>
      2 * ScaledWad(factor, quote).value * WAD - WAD <= 2 * (factor * quote) < 2 * ScaledWad(factor, quote).value * WAD + WAD
  {
    if 0 <= factor && 0 <= quote {
      MulNonNeg(factor, quote);
      FloorNonNeg(factor * quote, WAD);
      HalfUpBounds(factor * quote, WAD);
    }
  }

  /** What a one-source oracle accepts: its reading, positive and inside the band. */
  lemma OneSourceIff(n: Network, w: Moment, o: Oracle, stack: set<Key>, price: int)
    requires |o.sources| == 1
    ensures OracleWad(n, w, o, stack) == Ok(price) <==>
      SourceWad(n, w, o.sources[0], stack) == Ok(price) && 0 < price && o.minSanity <= price as real <= o.maxSanity
  {
  }

  predicate Blends(a: int, b: int, upperRatioBps: nat, price: int) {
    AgreeWad(upperRatioBps, a, b) && a + b <= I128_MAX && 2 * price <= a + b < 2 * price + 2
  }

  lemma MidpointIs(a: int, b: int, price: int)
    requires 0 < a && 0 < b && 0 < price
    ensures MidpointWad(a, b) == price <==> a + b <= I128_MAX && 2 * price <= a + b < 2 * price + 2
  {
  }

  /** What a two-source oracle accepts: the floored mean of two readings that agree and whose sum fits,
      if it is inside the band. */
  lemma TwoSourceIff(n: Network, w: Moment, o: Oracle, stack: set<Key>, price: int)
    requires |o.sources| == 2
    ensures OracleWad(n, w, o, stack) == Ok(price) <==>
      && SourceWad(n, w, o.sources[0], stack).Ok? && SourceWad(n, w, o.sources[1], stack).Ok?
      && Blends(SourceWad(n, w, o.sources[0], stack).value, SourceWad(n, w, o.sources[1], stack).value, o.upperRatioBps, price)
      && 0 < price && o.minSanity <= price as real <= o.maxSanity
  {
    if SourceWad(n, w, o.sources[0], stack).Ok? && SourceWad(n, w, o.sources[1], stack).Ok? && 0 < price {
      var a, b := SourceWad(n, w, o.sources[0], stack).value, SourceWad(n, w, o.sources[1], stack).value;
      if AgreeWad(o.upperRatioBps, a, b) { MidpointIs(a, b, price); }
    }
  }

  // ----- how often, and on how much, a price is rounded

  /** Roundings on the way to the price of `key` as installed. */
  function Roundings(n: Network, installed: Key -> nat, key: Key, stack: set<Key>): nat
    decreases |n.oracles.Keys - stack|, 2
  {
    if key in stack || key !in n.oracles || installed(key) >= |n.oracles[key]| then 0
    else
      Smaller(n, key, stack);
      OracleRoundings(n, installed, n.oracles[key][installed(key)], stack + {key})
  }

  function OracleRoundings(n: Network, installed: Key -> nat, o: Oracle, stack: set<Key>): nat
    decreases |n.oracles.Keys - stack|, 4
  {
    if |o.sources| == 1 then SourceRoundings(n, installed, o.sources[0], stack)
    else if |o.sources| == 2 then
      SourceRoundings(n, installed, o.sources[0], stack) + SourceRoundings(n, installed, o.sources[1], stack) + 1
    else 0
  }

  /** A product or a stable LP price is rounded once; a volatile one in both legs, the root and the price. */
  function SourceRoundings(n: Network, installed: Key -> nat, source: Source, stack: set<Key>): nat
    decreases |n.oracles.Keys - stack|, 3
  {
    match source
    case Plain(_) => 0
    case Scaled(_, _, _, quote) => Roundings(n, installed, quote, stack) + 1
    case VolatileLp(_, keyA, keyB) => Roundings(n, installed, keyA, stack) + Roundings(n, installed, keyB, stack) + 4
    case StableLp(_, keyA, keyB) => Roundings(n, installed, keyA, stack) + Roundings(n, installed, keyB, stack) + 1
  }

  /** Nothing that is rounded on the way to the price of `key` is below `least` units. */
  ghost predicate Solid(n: Network, w: Moment, least: nat, key: Key, stack: set<Key>)
    requires ResolveWad(n, w, key, stack).Ok?
    decreases |n.oracles.Keys - stack|, 2
  {
    Smaller(n, key, stack);
    SolidOracle(n, w, least, n.oracles[key][w.installed(key)], stack + {key})
  }

  ghost predicate SolidOracle(n: Network, w: Moment, least: nat, o: Oracle, stack: set<Key>)
    requires OracleWad(n, w, o, stack).Ok?
    decreases |n.oracles.Keys - stack|, 4
  {
    && OracleWad(n, w, o, stack).value >= least
    && SolidSource(n, w, least, o.sources[0], stack)
    && (|o.sources| == 2 ==> SolidSource(n, w, least, o.sources[1], stack))
  }

  ghost predicate SolidSource(n: Network, w: Moment, least: nat, source: Source, stack: set<Key>)
    requires SourceWad(n, w, source, stack).Ok?
    decreases |n.oracles.Keys - stack|, 3
  {
    && SourceWad(n, w, source, stack).value >= least
    && match source
       case Plain(_) => true
       case Scaled(_, _, _, quote) => Solid(n, w, least, quote, stack)
       case VolatileLp(pool, keyA, keyB) =>
         && Solid(n, w, least, keyA, stack) && Solid(n, w, least, keyB, stack)
         && SolidPool(w.pool(pool), ResolveWad(n, w, keyA, stack).value, ResolveWad(n, w, keyB, stack).value, least)
       case StableLp(_, keyA, keyB) => Solid(n, w, least, keyA, stack) && Solid(n, w, least, keyB, stack)
  }

  /** Both leg values of a pool and the root of their product. */
  predicate SolidPool(s: PoolState, a: i128, b: i128, least: nat) {
    LpPrice.LpPriceSpec(LegA(s, a), LegB(s, b), s.supply).Ok? ==>
      && LpPrice.ReserveValue(LegA(s, a)).value >= least && LpPrice.ReserveValue(LegB(s, b)).value >= least
      && LpPrice.RootOf(LpPrice.ReserveValue(LegA(s, a)).value, LpPrice.ReserveValue(LegB(s, b)).value) >= least
  }

  // ----- one rounding of a quotient

  /** A quotient rounded to a whole unit, half up or down. */
  predicate Rounds(p: int, n: int, d: int) {
    d > 0 && (p == HalfUp(n, d) || p == Floor(n, d))
  }

  lemma RoundsWithin(p: int, n: int, d: int, least: nat)
    requires Rounds(p, n, d) && 1 <= least <= p
    ensures Unit(least) >= 1.0 && Within(p as real, n as real / d as real, Bounded(Unit(least)))
  {
    var x := n as real / d as real;
    HalfUpBounds(n, d);
    FloorBounds(n, d);
    HalfUnits(p, n, d);
    WholeUnit(p, x, least);
  }

  lemma HalfUnits(p: int, n: int, d: int)
    requires d > 0 && 2 * p * d - d <= 2 * n < 2 * p * d + 2 * d
    ensures var x := n as real / d as real; x < p as real + 1.0 && p as real <= x + 0.5
  {
    var x := n as real / d as real;
    assert x * d as real == n as real && (p * d) as real == p as real * d as real;
    OffsetBounds(x - p as real, d as real, (n - p * d) as real);
  }

  lemma OffsetBounds(x: real, d: real, e: real)
    requires d > 0.0 && x * d == e && -0.5 * d <= e < d
    ensures -0.5 <= x < 1.0
  {
    if x >= 1.0 { Grow(d, 1.0, x); }
    if x < -0.5 { RaiseStrictly(x, -0.5, d); }
  }

  lemma RoundBoth(p: int, q: int, n: int, m: int, d: int, u: Reach, pad: real, least: nat)
    requires d > 0 && Near(n as real / d as real, m as real / d as real, u, pad) && 1 <= least <= p && least <= q
    requires (p == HalfUp(n, d) && q == HalfUp(m, d)) || (p == Floor(n, d) && q == Floor(m, d))
    ensures Near(p as real, q as real, u, Mul(Mul(Unit(least), Unit(least)), pad))
  {
    var x, y := n as real / d as real, m as real / d as real;
    RoundsWithin(p, n, d, least);
    RoundsWithin(q, m, d, least);
    if x == y { SameQuotient(n, m, d); }
    Rounded(p as real, q as real, x, y, u, pad, Unit(least));
  }

  lemma SameQuotient(n: int, m: int, d: int)
    requires d > 0 && n as real / d as real == m as real / d as real
    ensures n == m
  {
    assert (n as real / d as real) * d as real == n as real;
    assert (m as real / d as real) * d as real == m as real;
  }

  // ----- rounded compositions

  /** One more rounding on each of two prices. */
  function More(pad: real, least: nat): real
    requires least >= 1
  {
    Mul(Mul(Unit(least), Unit(least)), pad)
  }

  lemma CastProduct(a: int, b: int)
    ensures (a * b) as real == Mul(a as real, b as real)
  {
  }

  lemma CastQuotient(k: int, a: int, d: int)
    requires d > 0
    ensures (k * a) as real / d as real == Mul(k as real / d as real, a as real)
  {
    CastProduct(k, a);
  }

  lemma PositiveQuotient(k: int, d: int)
    requires k > 0 && d > 0
    ensures k as real / d as real > 0.0
  {
  }

  /** A quotient of multiples of two prices, rounded. */
  lemma MultipleNear(k: int, d: int, a: int, c: int, p: int, q: int, u: Reach, pad: real, least: nat)
    requires k > 0 && d > 0 && Near(a as real, c as real, u, pad) && 1 <= least <= p && least <= q
    requires (p == HalfUp(k * a, d) && q == HalfUp(k * c, d)) || (p == Floor(k * a, d) && q == Floor(k * c, d))
    ensures Near(p as real, q as real, u, More(pad, least))
  {
    PositiveQuotient(k, d);
    NearWeighted(a as real, c as real, k as real / d as real, u, pad);
    CastQuotient(k, a, d);
    CastQuotient(k, c, d);
    RoundBoth(p, q, k * a, k * c, d, u, pad, least);
  }

  lemma ScaledNear(f: int, q: int, g: int, r: int, span: Reach, v: Reach, pad: real, least: nat)
    requires f > 0 && g > 0 && Within(f as real, g as real, span) && Near(q as real, r as real, v, pad)
    requires 1 <= least <= HalfUp(f * q, WAD) && least <= HalfUp(g * r, WAD)
    ensures Near(HalfUp(f * q, WAD) as real, HalfUp(g * r, WAD) as real, Times(span, v), More(pad, least))
  {
    NearExact(f as real, g as real, span);
    NearProduct(f as real, q as real, g as real, r as real, span, v, 1.0, pad);
    MulOne(pad);
    CastProduct(f, q);
    CastProduct(g, r);
    MultipleNear(1, WAD, f * q, g * r, HalfUp(f * q, WAD), HalfUp(g * r, WAD), Times(span, v), pad, least);
  }

  lemma RootNear(root: real -> real, x: nat, y: nat, x': nat, y': nat, u: Reach, pad: real, least: nat)
    requires IsRoot(root) && Near((x * y) as real, (x' * y') as real, u, pad)
    requires 1 <= least <= LpPrice.RootOf(x, y) && least <= LpPrice.RootOf(x', y')
    ensures Near(LpPrice.RootOf(x, y) as real, LpPrice.RootOf(x', y') as real, RootOf(root, u), More(pad, least))
  {
    NearRoot(root, (x * y) as real, (x' * y') as real, u, pad);
    RootWithin(root, x, y, least);
    RootWithin(root, x', y', least);
    if root((x * y) as real) == root((x' * y') as real) { SameRoot(root, x * y, x' * y'); }
    Rounded(LpPrice.RootOf(x, y) as real, LpPrice.RootOf(x', y') as real, root((x * y) as real), root((x' * y') as real),
            RootOf(root, u), pad, Unit(least));
  }

  lemma SameRoot(root: real -> real, m: nat, n: nat)
    requires IsRoot(root) && root(m as real) == root(n as real)
    ensures m == n
  {
    assert root(m as real) * root(m as real) == m as real;
    assert root(n as real) * root(n as real) == n as real;
  }

  lemma RootWithin(root: real -> real, x: nat, y: nat, least: nat)
    requires IsRoot(root) && 1 <= least <= LpPrice.RootOf(x, y)
    ensures 0 <= x * y && Unit(least) >= 1.0
    ensures Within(LpPrice.RootOf(x, y) as real, root((x * y) as real), Bounded(Unit(least)))
  {
    var r, z := LpPrice.RootOf(x, y), root((x * y) as real);
    assert z * z == (x * y) as real;
    CastProduct(r, r);
    CastProduct(r + 1, r + 1);
    RootBetween(z, r as real, (r + 1) as real);
    WholeUnit(r, z, least);
  }

  lemma RootBetween(z: real, low: real, high: real)
    requires 0.0 <= z && 0.0 <= low && 0.0 <= high && Mul(low, low) <= z * z < Mul(high, high)
    ensures low <= z < high
  {
    if z < low { Square(z, low); }
    if z > high { Square(high, z); }
  }

  predicate PricedPool(s: PoolState, a: i128, b: i128, least: nat, p: int) {
    && a > 0 && b > 0 && SolidPool(s, a, b, least)
    && LpPrice.LpPriceSpec(LegA(s, a), LegB(s, b), s.supply) == Ok(p) && p >= least
  }

  lemma LegNear(reserve: i128, decimals: nat, a: i128, c: i128, u: Reach, pad: real, least: nat)
    requires reserve > 0 && a > 0 && c > 0 && Near(a as real, c as real, u, pad)
    requires LpPrice.ReserveValue(LpPrice.Leg(reserve, decimals, a)).Ok? && LpPrice.ReserveValue(LpPrice.Leg(reserve, decimals, c)).Ok?
    requires 1 <= least <= LpPrice.ReserveValue(LpPrice.Leg(reserve, decimals, a)).value
    requires least <= LpPrice.ReserveValue(LpPrice.Leg(reserve, decimals, c)).value
    ensures Near(LpPrice.ReserveValue(LpPrice.Leg(reserve, decimals, a)).value as real,
                 LpPrice.ReserveValue(LpPrice.Leg(reserve, decimals, c)).value as real, u, More(pad, least))
  {
    MultipleNear(reserve, Pow10(decimals), a, c, LpPrice.ReserveValue(LpPrice.Leg(reserve, decimals, a)).value,
                 LpPrice.ReserveValue(LpPrice.Leg(reserve, decimals, c)).value, u, pad, least);
  }

  lemma VolatileNear(root: real -> real, s: PoolState, p: int, q: int, a: i128, b: i128, c: i128, d: i128, u: Reach, v: Reach,
                     pad: real, pad': real, least: nat, reach: Reach, all: real)
    requires IsRoot(root) && least >= 1 && PricedPool(s, a, b, least, p) && PricedPool(s, c, d, least, q)
    requires Near(a as real, c as real, u, pad) && Near(b as real, d as real, v, pad')
    requires reach == RootOf(root, Times(u, v)) && all == More(More(Mul(More(pad, least), More(pad', least)), least), least)
    ensures Near(p as real, q as real, reach, all)
  {
    var va, vb := LpPrice.ReserveValue(LegA(s, a)).value, LpPrice.ReserveValue(LegB(s, b)).value;
    var vc, vd := LpPrice.ReserveValue(LegA(s, c)).value, LpPrice.ReserveValue(LegB(s, d)).value;
    LegNear(s.reserveA, s.decimalsA, a, c, u, pad, least);
    LegNear(s.reserveB, s.decimalsB, b, d, v, pad', least);
    RootedNear(root, va, vb, vc, vd, LpPrice.AmountToWad(s.supply.totalShares, s.supply.decimals).value,
               u, v, More(pad, least), More(pad', least), least);
  }

  /** From the leg values to the price. */
  lemma RootedNear(root: real -> real, va: nat, vb: nat, vc: nat, vd: nat, shares: int, u: Reach, v: Reach, pad: real, pad': real, least: nat)
    requires IsRoot(root) && shares > 0 && Near(va as real, vc as real, u, pad) && Near(vb as real, vd as real, v, pad')
    requires 1 <= least <= LpPrice.RootOf(va, vb) && least <= LpPrice.RootOf(vc, vd)
    requires least <= Floor(2 * LpPrice.RootOf(va, vb) * WAD, shares) && least <= Floor(2 * LpPrice.RootOf(vc, vd) * WAD, shares)
    ensures Near(Floor(2 * LpPrice.RootOf(va, vb) * WAD, shares) as real, Floor(2 * LpPrice.RootOf(vc, vd) * WAD, shares) as real,
                 RootOf(root, Times(u, v)), More(More(Mul(pad, pad'), least), least))
  {
    var r, r' := LpPrice.RootOf(va, vb), LpPrice.RootOf(vc, vd);
    NearProduct(va as real, vb as real, vc as real, vd as real, u, v, pad, pad');
    CastProduct(va, vb);
    CastProduct(vc, vd);
    RootNear(root, va, vb, vc, vd, Times(u, v), Mul(pad, pad'), least);
    assert 2 * r * WAD == (2 * WAD) * r && 2 * r' * WAD == (2 * WAD) * r';
    MultipleNear(2 * WAD, shares, r, r', Floor(2 * r * WAD, shares), Floor(2 * r' * WAD, shares), RootOf(root, Times(u, v)),
                 More(Mul(pad, pad'), least), least);
  }

  lemma LesserCast(a: int, b: int)
    ensures Lesser(a as real, b as real) == Min(a, b) as real
  {
  }

  lemma StableNear(k: int, shares: int, a: int, b: int, c: int, d: int, u: Reach, v: Reach, pad: real, pad': real, least: nat)
    requires shares > 0 && Near(a as real, c as real, u, pad) && Near(b as real, d as real, v, pad')
    requires 1 <= least <= Floor(k * Min(a, b), shares) && least <= Floor(k * Min(c, d), shares)
    ensures Near(Floor(k * Min(a, b), shares) as real, Floor(k * Min(c, d), shares) as real, Wider(u, v), More(Mul(pad, pad'), least))
  {
    FloorBounds(k * Min(a, b), shares);
    MulMono(1, Floor(k * Min(a, b), shares), shares);
    if k <= 0 { MulMono(k, 0, Min(a, b)); }
    NearLesser(a as real, b as real, c as real, d as real, 1.0, u, v, pad, pad');
    LesserCast(a, b);
    LesserCast(c, d);
    MulOne(Min(a, b) as real);
    MulOne(Min(c, d) as real);
    MultipleNear(k, shares, Min(a, b), Min(c, d), Floor(k * Min(a, b), shares), Floor(k * Min(c, d), shares), Wider(u, v), Mul(pad, pad'), least);
  }

  lemma AgreeWadRatio(upperRatioBps: nat, a: int, b: int)
    requires AgreeWad(upperRatioBps, a, b)
    ensures Tolerance(upperRatioBps).ratio > 1.0 && Within(a as real, b as real, Tolerance(upperRatioBps))
  {
    var low, high, t := Min(a, b), Max(a, b), Tolerance(upperRatioBps).ratio;
    HalfUpLe(upperRatioBps, high * BPS, low);
    HalfUpGe(BPS, high * BPS, low);
    HalfUpMono(low * BPS, high * BPS, low);
    HalfUpUnique(BPS, low * BPS, low);
    assert (2 * upperRatioBps * low + low) as real == (2.0 * upperRatioBps as real + 1.0) * low as real;
    assert (2.0 * t * BPS as real) * low as real == 2.0 * BPS as real * Mul(t, low as real);
    MulLe(low as real, high as real, t);
    MulAtLeastOne(1.0, t);
    MulLe(1.0, t, high as real);
    MulOne(high as real);
  }

  /** `p` is the floored midpoint of two legs that agree within `t`. */
  predicate Blended(a: int, b: int, t: Reach, p: int) {
    t.Bounded? && t.ratio > 1.0 && Within(a as real, b as real, t) && p == Floor(a + b, 2)
  }

  lemma MidNear(a: int, b: int, c: int, d: int, p: int, q: int, u: Reach, v: Reach, t: Reach, pad: real, pad': real, least: nat)
    requires Near(a as real, c as real, u, pad) && Near(b as real, d as real, v, pad')
    requires Blended(a, b, t, p) && Blended(c, d, t, q) && 1 <= least <= p && least <= q
    ensures Near(p as real, q as real, MidpointReach(u, v, t), More(Mul(pad, pad'), least))
  {
    NearMid(a as real, b as real, c as real, d as real, u, v, t, pad, pad');
    MidCast(a, b);
    MidCast(c, d);
    RoundBoth(p, q, a + b, c + d, 2, MidpointReach(u, v, t), Mul(pad, pad'), least);
  }

  lemma MidCast(a: int, b: int)
    ensures Mid(a as real, b as real) == (a + b) as real / 2 as real
  {
  }

  /** The same with the pads counted. */
  lemma MidPadded(a: int, b: int, c: int, d: int, p: int, q: int, u: Reach, v: Reach, t: Reach, j: nat, k: nat, least: nat)
    requires least >= 1 && Near(a as real, c as real, u, Pad(Unit(least), j)) && Near(b as real, d as real, v, Pad(Unit(least), k))
    requires Blended(a, b, t, p) && Blended(c, d, t, q) && least <= p && least <= q
    ensures Near(p as real, q as real, MidpointReach(u, v, t), Pad(Unit(least), j + k + 1))
  {
    MidNear(a, b, c, d, p, q, u, v, t, Pad(Unit(least), j), Pad(Unit(least), k), least);
    OneMore(least, j, k);
  }

  lemma OneMore(least: nat, j: nat, k: nat)
    requires least >= 1
    ensures More(Mul(Pad(Unit(least), j), Pad(Unit(least), k)), least) == Pad(Unit(least), j + k + 1)
  {
    PadAdds(Unit(least), j, k);
    PadMore(least, j + k);
  }

  lemma PadMore(least: nat, k: nat)
    requires least >= 1
    ensures More(Pad(Unit(least), k), least) == Pad(Unit(least), k + 1)
  {
  }

  // ----- soundness

  ghost predicate OnlyMovesWad(provider: string, w: Moment, v: Moment) {
    && w.pool == v.pool && w.installed == v.installed
    && forall f: Feed :: f.contract != provider ==> w.report(f) == v.report(f)
  }

  /** Both moments price `key` on solid values, near each other by the reach of `provider`. */
  ghost predicate Held(n: Network, provider: string, w: Moment, v: Moment, least: nat, key: Key, stack: set<Key>)
    requires least >= 1
  {
    && ResolveWad(n, w, key, stack).Ok? && ResolveWad(n, v, key, stack).Ok? && ReachOf(n, provider, key, stack).Ok?
    && Near(ResolveWad(n, w, key, stack).value as real, ResolveWad(n, v, key, stack).value as real,
            ReachOf(n, provider, key, stack).value, Pad(Unit(least), Roundings(n, w.installed, key, stack)))
  }

  /** A source that both moments read on solid values. */
  ghost predicate BothRead(n: Network, provider: string, w: Moment, v: Moment, least: nat, source: Source, stack: set<Key>) {
    && least >= 1 && LegReach(n, provider, source, stack).Ok?
    && SourceWad(n, w, source, stack).Ok? && SolidSource(n, w, least, source, stack)
    && SourceWad(n, v, source, stack).Ok? && SolidSource(n, v, least, source, stack)
  }

  ghost predicate SourceHeld(n: Network, provider: string, w: Moment, v: Moment, least: nat, source: Source, stack: set<Key>)
    requires BothRead(n, provider, w, v, least, source, stack)
  {
    Near(SourceWad(n, w, source, stack).value as real, SourceWad(n, v, source, stack).value as real,
         LegReach(n, provider, source, stack).value, Pad(Unit(least), SourceRoundings(n, w.installed, source, stack)))
  }

  lemma PlainHeld(n: Network, provider: string, w: Moment, v: Moment, least: nat, source: Source, stack: set<Key>)
    requires source.Plain? && OnlyMovesWad(provider, w, v) && BothRead(n, provider, w, v, least, source, stack)
    ensures SourceHeld(n, provider, w, v, least, source, stack)
  {
    var p, q := SourceWad(n, w, source, stack).value as real, SourceWad(n, v, source, stack).value as real;
    MulOne(p);
    NearExact(p, q, LegReach(n, provider, source, stack).value);
  }

  lemma ScaledHeld(n: Network, provider: string, w: Moment, v: Moment, least: nat, source: Source, stack: set<Key>)
    requires source.Scaled? && OnlyMovesWad(provider, w, v) && BothRead(n, provider, w, v, least, source, stack)
    requires Held(n, provider, w, v, least, source.quote, stack)
    ensures SourceHeld(n, provider, w, v, least, source, stack)
  {
    var f, g := FeedWad(w, source.factor).value, FeedWad(v, source.factor).value;
    var q, r := ResolveWad(n, w, source.quote, stack).value, ResolveWad(n, v, source.quote, stack).value;
    var span := if source.factor.contract == provider then Span(source.minFactor, source.maxFactor) else Bounded(1.0);
    FactorPositive(f, q);
    FactorPositive(g, r);
    WithinSpan(f as real, g as real, source.minFactor, source.maxFactor);
    MulOne(f as real);
    ScaledNear(f, q, g, r, span, ReachOf(n, provider, source.quote, stack).value,
               Pad(Unit(least), Roundings(n, w.installed, source.quote, stack)), least);
    PadMore(least, Roundings(n, w.installed, source.quote, stack));
  }

  lemma FactorPositive(f: int, q: int)
    requires q > 0 && ScaledWad(f, q).Ok? && ScaledWad(f, q).value >= 1
    ensures f > 0 && ScaledWad(f, q).value == HalfUp(f * q, WAD)
  {
    if f == 0 { HalfUpUnique(0, 0, WAD); }
  }

  lemma VolatileRead(n: Network, w: Moment, least: nat, source: Source, stack: set<Key>)
    requires source.VolatileLp? && SourceWad(n, w, source, stack).Ok? && SolidSource(n, w, least, source, stack)
    ensures ResolveWad(n, w, source.keyA, stack).Ok? && ResolveWad(n, w, source.keyB, stack).Ok?
    ensures PricedPool(w.pool(source.pool), ResolveWad(n, w, source.keyA, stack).value, ResolveWad(n, w, source.keyB, stack).value,
                       least, SourceWad(n, w, source, stack).value)
  {
  }

  /** What the analysis says of a volatile LP source. */
  lemma VolatileShape(n: Network, provider: string, installed: Key -> nat, source: Source, stack: set<Key>)
    requires source.VolatileLp? && LegReach(n, provider, source, stack).Ok?
    ensures ReachOf(n, provider, source.keyA, stack).Ok? && ReachOf(n, provider, source.keyB, stack).Ok?
    ensures LegReach(n, provider, source, stack).value
         == RootOf(n.root, Times(ReachOf(n, provider, source.keyA, stack).value, ReachOf(n, provider, source.keyB, stack).value))
    ensures SourceRoundings(n, installed, source, stack)
         == Roundings(n, installed, source.keyA, stack) + Roundings(n, installed, source.keyB, stack) + 4
  {
  }

  lemma VolatileHeld(n: Network, provider: string, w: Moment, v: Moment, least: nat, source: Source, stack: set<Key>)
    requires source.VolatileLp? && n.Valid() && OnlyMovesWad(provider, w, v) && BothRead(n, provider, w, v, least, source, stack)
    requires Held(n, provider, w, v, least, source.keyA, stack) && Held(n, provider, w, v, least, source.keyB, stack)
    ensures SourceHeld(n, provider, w, v, least, source, stack)
  {
    VolatileRead(n, w, least, source, stack);
    VolatileRead(n, v, least, source, stack);
    VolatileShape(n, provider, w.installed, source, stack);
    VolatilePadded(n.root, w.pool(source.pool), SourceWad(n, w, source, stack).value, SourceWad(n, v, source, stack).value,
                   ResolveWad(n, w, source.keyA, stack).value, ResolveWad(n, w, source.keyB, stack).value,
                   ResolveWad(n, v, source.keyA, stack).value, ResolveWad(n, v, source.keyB, stack).value,
                   ReachOf(n, provider, source.keyA, stack).value, ReachOf(n, provider, source.keyB, stack).value,
                   Roundings(n, w.installed, source.keyA, stack), Roundings(n, w.installed, source.keyB, stack), least,
                   LegReach(n, provider, source, stack).value, SourceRoundings(n, w.installed, source, stack));
  }

  lemma VolatilePadded(root: real -> real, s: PoolState, p: int, q: int, a: i128, b: i128, c: i128, d: i128, u: Reach, v: Reach,
                       j: nat, k: nat, least: nat, reach: Reach, all: nat)
    requires IsRoot(root) && least >= 1 && PricedPool(s, a, b, least, p) && PricedPool(s, c, d, least, q)
    requires Near(a as real, c as real, u, Pad(Unit(least), j)) && Near(b as real, d as real, v, Pad(Unit(least), k))
    requires reach == RootOf(root, Times(u, v)) && all == j + k + 4
    ensures Near(p as real, q as real, reach, Pad(Unit(least), all))
  {
    FourMore(least, j, k);
    VolatileNear(root, s, p, q, a, b, c, d, u, v, Pad(Unit(least), j), Pad(Unit(least), k), least, reach, Pad(Unit(least), all));
  }

  lemma FourMore(least: nat, j: nat, k: nat)
    requires least >= 1
    ensures var l := Unit(least);
      More(More(Mul(More(Pad(l, j), least), More(Pad(l, k), least)), least), least) == Pad(l, j + k + 4)
  {
    PadMore(least, j);
    PadMore(least, k);
    PadAdds(Unit(least), j + 1, k + 1);
    PadMore(least, j + k + 2);
    PadMore(least, j + k + 3);
  }

  lemma StableRead(n: Network, w: Moment, least: nat, source: Source, stack: set<Key>)
    requires source.StableLp? && SourceWad(n, w, source, stack).Ok? && SolidSource(n, w, least, source, stack)
    ensures ResolveWad(n, w, source.keyA, stack).Ok? && ResolveWad(n, w, source.keyB, stack).Ok?
    ensures StablePriced(w.pool(source.pool), ResolveWad(n, w, source.keyA, stack).value, ResolveWad(n, w, source.keyB, stack).value,
                         least, SourceWad(n, w, source, stack).value)
  {
  }

  /** What the analysis says of a stable LP source. */
  lemma StableShape(n: Network, provider: string, installed: Key -> nat, source: Source, stack: set<Key>)
    requires source.StableLp? && LegReach(n, provider, source, stack).Ok?
    ensures ReachOf(n, provider, source.keyA, stack).Ok? && ReachOf(n, provider, source.keyB, stack).Ok?
    ensures LegReach(n, provider, source, stack).value
         == Wider(ReachOf(n, provider, source.keyA, stack).value, ReachOf(n, provider, source.keyB, stack).value)
    ensures SourceRoundings(n, installed, source, stack)
         == Roundings(n, installed, source.keyA, stack) + Roundings(n, installed, source.keyB, stack) + 1
  {
  }

  lemma StableHeld(n: Network, provider: string, w: Moment, v: Moment, least: nat, source: Source, stack: set<Key>)
    requires source.StableLp? && OnlyMovesWad(provider, w, v) && BothRead(n, provider, w, v, least, source, stack)
    requires Held(n, provider, w, v, least, source.keyA, stack) && Held(n, provider, w, v, least, source.keyB, stack)
    ensures SourceHeld(n, provider, w, v, least, source, stack)
  {
    StableRead(n, w, least, source, stack);
    StableRead(n, v, least, source, stack);
    StableShape(n, provider, w.installed, source, stack);
    StablePadded(w.pool(source.pool), SourceWad(n, w, source, stack).value, SourceWad(n, v, source, stack).value,
                 ResolveWad(n, w, source.keyA, stack).value, ResolveWad(n, w, source.keyB, stack).value,
                 ResolveWad(n, v, source.keyA, stack).value, ResolveWad(n, v, source.keyB, stack).value,
                 ReachOf(n, provider, source.keyA, stack).value, ReachOf(n, provider, source.keyB, stack).value,
                 Roundings(n, w.installed, source.keyA, stack), Roundings(n, w.installed, source.keyB, stack), least,
                 LegReach(n, provider, source, stack).value, SourceRoundings(n, w.installed, source, stack));
  }

  predicate StablePriced(s: PoolState, a: i128, b: i128, least: nat, p: int) {
    StableSwap.StablePriceSpec(LegA(s, a), LegB(s, b), s.supply, s.amp) == Ok(p) && p >= least
  }

  lemma StablePadded(s: PoolState, p: int, q: int, a: i128, b: i128, c: i128, d: i128, u: Reach, v: Reach, j: nat, k: nat, least: nat, reach: Reach, all: nat)
    requires least >= 1 && Near(a as real, c as real, u, Pad(Unit(least), j)) && Near(b as real, d as real, v, Pad(Unit(least), k))
    requires StablePriced(s, a, b, least, p) && StablePriced(s, c, d, least, q) && reach == Wider(u, v) && all == j + k + 1
    ensures Near(p as real, q as real, reach, Pad(Unit(least), all))
  {
    OneMore(least, j, k);
    StablePoolNear(s, p, q, a, b, c, d, u, v, Pad(Unit(least), j), Pad(Unit(least), k), least, reach, Pad(Unit(least), all));
  }

  lemma StablePoolNear(s: PoolState, p: int, q: int, a: i128, b: i128, c: i128, d: i128, u: Reach, v: Reach, pad: real, pad': real,
                       least: nat, reach: Reach, all: real)
    requires least >= 1 && Near(a as real, c as real, u, pad) && Near(b as real, d as real, v, pad')
    requires StablePriced(s, a, b, least, p) && StablePriced(s, c, d, least, q)
    requires reach == Wider(u, v) && all == More(Mul(pad, pad'), least)
    ensures Near(p as real, q as real, reach, all)
  {
    var xa, xb := LpPrice.AmountToWad(s.reserveA, s.decimalsA).value, LpPrice.AmountToWad(s.reserveB, s.decimalsB).value;
    var shares := LpPrice.AmountToWad(s.supply.totalShares, s.supply.decimals).value;
    StableNear(StableSwap.StableD(xa, xb, s.amp).value, shares, a, b, c, d, u, v, pad, pad', least);
  }

  lemma {:induction false} SourceIsHeld(n: Network, provider: string, w: Moment, v: Moment, least: nat, source: Source, stack: set<Key>)
    requires n.Valid() && OnlyMovesWad(provider, w, v) && BothRead(n, provider, w, v, least, source, stack)
    ensures SourceHeld(n, provider, w, v, least, source, stack)
    decreases |n.oracles.Keys - stack|, 3
  {
    match source
    case Plain(_) =>
      PlainHeld(n, provider, w, v, least, source, stack);
    case Scaled(_, _, _, quote) =>
      RoundedReachIsSound(n, provider, w, v, least, quote, stack);
      ScaledHeld(n, provider, w, v, least, source, stack);
    case VolatileLp(_, keyA, keyB) =>
      RoundedReachIsSound(n, provider, w, v, least, keyA, stack);
      RoundedReachIsSound(n, provider, w, v, least, keyB, stack);
      VolatileHeld(n, provider, w, v, least, source, stack);
    case StableLp(_, keyA, keyB) =>
      RoundedReachIsSound(n, provider, w, v, least, keyA, stack);
      RoundedReachIsSound(n, provider, w, v, least, keyB, stack);
      StableHeld(n, provider, w, v, least, source, stack);
  }

  /** One provider alone moves a price as the aggregator computes it by at most its reach, stretched by
      a whole unit in `least` for each rounding of each price; a price it cannot move stays the same. */
  lemma {:induction false} RoundedReachIsSound(n: Network, provider: string, w: Moment, v: Moment, least: nat, key: Key, stack: set<Key>)
    requires n.Valid() && OnlyMovesWad(provider, w, v) && ReachOf(n, provider, key, stack).Ok? && least >= 1
    requires ResolveWad(n, w, key, stack).Ok? && Solid(n, w, least, key, stack)
    requires ResolveWad(n, v, key, stack).Ok? && Solid(n, v, least, key, stack)
    ensures Near(ResolveWad(n, w, key, stack).value as real, ResolveWad(n, v, key, stack).value as real,
                 ReachOf(n, provider, key, stack).value, Pad(Unit(least), Roundings(n, w.installed, key, stack)))
    decreases |n.oracles.Keys - stack|, 2
  {
    Smaller(n, key, stack);
    var i, below := w.installed(key), stack + {key};
    WidestCovers(n, provider, n.oracles[key], i, below);
    OracleIsHeld(n, provider, w, v, least, n.oracles[key][i], below);
    NearWider(ResolveWad(n, w, key, stack).value as real, ResolveWad(n, v, key, stack).value as real,
              OracleReach(n, provider, n.oracles[key][i], below).value, ReachOf(n, provider, key, stack).value,
              Pad(Unit(least), Roundings(n, w.installed, key, stack)));
  }

  lemma {:induction false} OracleIsHeld(n: Network, provider: string, w: Moment, v: Moment, least: nat, o: Oracle, stack: set<Key>)
    requires n.Valid() && OnlyMovesWad(provider, w, v) && OracleReach(n, provider, o, stack).Ok? && least >= 1
    requires OracleWad(n, w, o, stack).Ok? && SolidOracle(n, w, least, o, stack)
    requires OracleWad(n, v, o, stack).Ok? && SolidOracle(n, v, least, o, stack)
    ensures Near(OracleWad(n, w, o, stack).value as real, OracleWad(n, v, o, stack).value as real,
                 OracleReach(n, provider, o, stack).value, Pad(Unit(least), OracleRoundings(n, w.installed, o, stack)))
    decreases |n.oracles.Keys - stack|, 4
  {
    var p, q := OracleWad(n, w, o, stack).value, OracleWad(n, v, o, stack).value;
    var first := LegReach(n, provider, o.sources[0], stack).value;
    var pad := Pad(Unit(least), OracleRoundings(n, w.installed, o, stack));
    SourceIsHeld(n, provider, w, v, least, o.sources[0], stack);
    var moved := first;
    if |o.sources| == 2 {
      SourceIsHeld(n, provider, w, v, least, o.sources[1], stack);
      moved := SecondLeg(n, provider, o, first, stack).value;
      BlendIs(n, w, o, stack);
      BlendIs(n, v, o, stack);
      BlendHeld(n, w, least, o, stack, SourceWad(n, w, o.sources[0], stack).value, SourceWad(n, w, o.sources[1], stack).value,
                SourceWad(n, v, o.sources[0], stack).value, SourceWad(n, v, o.sources[1], stack).value, p, q,
                first, LegReach(n, provider, o.sources[1], stack).value);
    }
    WithinSpan(p as real, q as real, o.minSanity, o.maxSanity);
    NearClipped(p as real, q as real, moved, Span(o.minSanity, o.maxSanity), pad);
  }

  /** An accepted blend is the floored midpoint of two agreeing sources. */
  lemma BlendIs(n: Network, w: Moment, o: Oracle, stack: set<Key>)
    requires |o.sources| == 2 && OracleWad(n, w, o, stack).Ok?
    ensures SourceWad(n, w, o.sources[0], stack).Ok? && SourceWad(n, w, o.sources[1], stack).Ok?
    ensures Blended(SourceWad(n, w, o.sources[0], stack).value, SourceWad(n, w, o.sources[1], stack).value,
                    Tolerance(o.upperRatioBps), OracleWad(n, w, o, stack).value)
  {
    AgreeWadRatio(o.upperRatioBps, SourceWad(n, w, o.sources[0], stack).value, SourceWad(n, w, o.sources[1], stack).value);
  }

  lemma BlendHeld(n: Network, w: Moment, least: nat, o: Oracle, stack: set<Key>,
                  a: int, b: int, c: int, d: int, p: int, q: int, u: Reach, u': Reach)
    requires |o.sources| == 2 && least >= 1 && least <= p && least <= q
    requires Near(a as real, c as real, u, Pad(Unit(least), SourceRoundings(n, w.installed, o.sources[0], stack)))
    requires Near(b as real, d as real, u', Pad(Unit(least), SourceRoundings(n, w.installed, o.sources[1], stack)))
    requires Blended(a, b, Tolerance(o.upperRatioBps), p) && Blended(c, d, Tolerance(o.upperRatioBps), q)
    ensures Near(p as real, q as real, MidpointReach(u, u', Tolerance(o.upperRatioBps)),
                 Pad(Unit(least), OracleRoundings(n, w.installed, o, stack)))
  {
    MidPadded(a, b, c, d, p, q, u, u', Tolerance(o.upperRatioBps), SourceRoundings(n, w.installed, o.sources[0], stack),
              SourceRoundings(n, w.installed, o.sources[1], stack), least);
  }

  // ----- every accepted price is solid at one unit

  lemma RootIsPositive(va: nat, vb: nat, shares: int)
    requires shares > 0 && Floor(2 * LpPrice.RootOf(va, vb) * WAD, shares) >= 1
    ensures LpPrice.RootOf(va, vb) >= 1 && va >= 1 && vb >= 1
  {
    var r := LpPrice.RootOf(va, vb);
    FloorBounds(2 * r * WAD, shares);
    MulMono(1, Floor(2 * r * WAD, shares), shares);
    MulMono(1, r, r);
  }

  lemma PoolSolidAtOne(s: PoolState, a: i128, b: i128)
    requires LpPrice.LpPriceSpec(LegA(s, a), LegB(s, b), s.supply).Ok? && LpPrice.LpPriceSpec(LegA(s, a), LegB(s, b), s.supply).value >= 1
    ensures SolidPool(s, a, b, 1)
  {
    RootIsPositive(LpPrice.ReserveValue(LegA(s, a)).value, LpPrice.ReserveValue(LegB(s, b)).value,
                 LpPrice.AmountToWad(s.supply.totalShares, s.supply.decimals).value);
  }

  lemma {:induction false} SolidAtOne(n: Network, w: Moment, key: Key, stack: set<Key>)
    requires ResolveWad(n, w, key, stack).Ok?
    ensures Solid(n, w, 1, key, stack)
    decreases |n.oracles.Keys - stack|, 2
  {
    Smaller(n, key, stack);
    OracleSolidAtOne(n, w, n.oracles[key][w.installed(key)], stack + {key});
  }

  lemma {:induction false} OracleSolidAtOne(n: Network, w: Moment, o: Oracle, stack: set<Key>)
    requires OracleWad(n, w, o, stack).Ok?
    ensures SolidOracle(n, w, 1, o, stack)
    decreases |n.oracles.Keys - stack|, 4
  {
    SourceSolidAtOne(n, w, o.sources[0], stack);
    if |o.sources| == 2 { SourceSolidAtOne(n, w, o.sources[1], stack); }
  }

  lemma {:induction false} SourceSolidAtOne(n: Network, w: Moment, source: Source, stack: set<Key>)
    requires SourceWad(n, w, source, stack).Ok? && SourceWad(n, w, source, stack).value >= 1
    ensures SolidSource(n, w, 1, source, stack)
    decreases |n.oracles.Keys - stack|, 3
  {
    match source
    case Plain(_) =>
    case Scaled(_, _, _, quote) =>
      SolidAtOne(n, w, quote, stack);
    case VolatileLp(pool, keyA, keyB) =>
      SolidAtOne(n, w, keyA, stack);
      SolidAtOne(n, w, keyB, stack);
      PoolSolidAtOne(w.pool(pool), ResolveWad(n, w, keyA, stack).value, ResolveWad(n, w, keyB, stack).value);
    case StableLp(_, keyA, keyB) =>
      SolidAtOne(n, w, keyA, stack);
      SolidAtOne(n, w, keyB, stack);
  }

  /** With nothing assumed of the sizes, each rounding at most doubles a price; one that the
      provider cannot reach does not move at all. */
  lemma AcceptedPricesAreNear(n: Network, provider: string, w: Moment, v: Moment, key: Key)
    requires n.Valid() && OnlyMovesWad(provider, w, v) && ReachOf(n, provider, key, {}).Ok?
    requires ResolveWad(n, w, key, {}).Ok? && ResolveWad(n, v, key, {}).Ok?
    ensures Near(ResolveWad(n, w, key, {}).value as real, ResolveWad(n, v, key, {}).value as real,
                 ReachOf(n, provider, key, {}).value, Pad(2.0, Roundings(n, w.installed, key, {})))
  {
    SolidAtOne(n, w, key, {});
    SolidAtOne(n, v, key, {});
    RoundedReachIsSound(n, provider, w, v, 1, key, {});
  }
}
