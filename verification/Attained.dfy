/** The reach analysis from below: for every way of composing prices, worlds in which one provider moves
    the price by the whole computed reach, so that no smaller reach is sound and no larger one is computed. */
module Attained {
  import opened Numbers
  import opened Ratios
  import opened Oracles
  import opened PaddedRatios
  import Envelope

  /** `q` is `p` moved up by the whole of `u`. */
  predicate Moves(p: real, q: real, u: Reach) {
    p > 0.0 && u.Bounded? && u.ratio >= 1.0 && q == Mul(u.ratio, p)
  }

  lemma MovesUp(p: real, q: real, u: Reach)
    requires Moves(p, q, u)
    ensures p <= q && 0.0 < q
  {
    MulLe(1.0, u.ratio, p);
    MulOne(p);
  }

  // ----- no computed reach exceeds the sanity band

  function WidestSpan(oracles: seq<Oracle>): Reach
    requires oracles != []
  {
    var first := Span(oracles[0].minSanity, oracles[0].maxSanity);
    if |oracles| == 1 then first else Wider(first, WidestSpan(oracles[1..]))
  }

  lemma {:induction false} WidestWithinSpan(n: Network, provider: string, oracles: seq<Oracle>, stack: set<Key>)
    requires oracles != [] && WidestReach(n, provider, oracles, stack).Ok?
    ensures var r := WidestReach(n, provider, oracles, stack).value; r == Bounded(1.0) || Le(r, WidestSpan(oracles))
    decreases |oracles|
  {
    if |oracles| > 1 { WidestWithinSpan(n, provider, oracles[1..], stack); }
  }

  /** Every computed reach is one, or at most the widest band its configurations accept. */
  lemma ReachWithinSpan(n: Network, provider: string, key: Key, stack: set<Key>)
    requires ReachOf(n, provider, key, stack).Ok?
    ensures key in n.oracles && n.oracles[key] != []
    ensures var r := ReachOf(n, provider, key, stack).value; r == Bounded(1.0) || Le(r, WidestSpan(n.oracles[key]))
  {
    Smaller(n, key, stack);
    WidestWithinSpan(n, provider, n.oracles[key], stack + {key});
  }

  // ----- sources

  /** Both worlds read the source, and the reading moves by its whole reach. */
  ghost predicate SourceMoves(n: Network, provider: string, w: World, v: World, source: Source, stack: set<Key>) {
    && LegReach(n, provider, source, stack).Ok? && ReadSource(n, w, source, stack).Ok? && ReadSource(n, v, source, stack).Ok?
    && Moves(ReadSource(n, w, source, stack).value, ReadSource(n, v, source, stack).value, LegReach(n, provider, source, stack).value)
  }

  ghost predicate KeyMoves(n: Network, provider: string, w: World, v: World, key: Key, stack: set<Key>) {
    && ReachOf(n, provider, key, stack).Ok? && Resolve(n, w, key, stack).Ok? && Resolve(n, v, key, stack).Ok?
    && Moves(Resolve(n, w, key, stack).value, Resolve(n, v, key, stack).value, ReachOf(n, provider, key, stack).value)
  }

  lemma MovesProduct(a: real, b: real, c: real, d: real, u: Reach, v: Reach)
    requires Moves(a, c, u) && Moves(b, d, v)
    ensures Moves(Mul(a, b), Mul(c, d), Times(u, v))
  {
    Positive(a, b);
    MulAtLeastOne(u.ratio, v.ratio);
    FourFactors(u.ratio, a, v.ratio, b);
  }

  /** A provider that reports the factor takes it from one end of its range to the other. */
  lemma ScaledMoves(n: Network, provider: string, w: World, v: World, source: Source, stack: set<Key>)
    requires source.Scaled? && source.factor.contract == provider && 0.0 < source.minFactor <= source.maxFactor
    requires w.report(source.factor) == Some(source.minFactor) && v.report(source.factor) == Some(source.maxFactor)
    requires KeyMoves(n, provider, w, v, source.quote, stack)
    ensures SourceMoves(n, provider, w, v, source, stack)
  {
    SpanMoves(source.minFactor, source.maxFactor);
    MovesProduct(source.minFactor, Resolve(n, w, source.quote, stack).value, source.maxFactor, Resolve(n, v, source.quote, stack).value,
                 Span(source.minFactor, source.maxFactor), ReachOf(n, provider, source.quote, stack).value);
  }

  lemma SpanMoves(low: real, high: real)
    requires 0.0 < low <= high
    ensures Moves(low, high, Span(low, high))
  {
    var u := high / low;
    assert u * low == high;
    if u < 1.0 { Shrink(low, u); }
  }

  /** One that does not report the factor moves the price with the quote. */
  lemma ScaledFollows(n: Network, provider: string, w: World, v: World, source: Source, stack: set<Key>)
    requires source.Scaled? && source.factor.contract != provider && OnlyMoves(provider, w, v)
    requires w.report(source.factor).Some? && source.minFactor <= w.report(source.factor).value <= source.maxFactor
    requires w.report(source.factor).value > 0.0 && KeyMoves(n, provider, w, v, source.quote, stack)
    ensures SourceMoves(n, provider, w, v, source, stack)
  {
    var f := w.report(source.factor).value;
    MulOne(f);
    MovesProduct(f, Resolve(n, w, source.quote, stack).value, f, Resolve(n, v, source.quote, stack).value,
                 Bounded(1.0), ReachOf(n, provider, source.quote, stack).value);
  }

  lemma RootUnique(root: real -> real, x: real, r: real)
    requires IsRoot(root) && x >= 0.0 && r >= 0.0 && Mul(r, r) == x
    ensures root(x) == r
  {
    if root(x) < r { Square(root(x), r); } else if root(x) > r { Square(r, root(x)); }
  }

  lemma MovesRoot(root: real -> real, x: real, y: real, u: Reach)
    requires IsRoot(root) && Moves(x, y, u)
    ensures Moves(root(x), root(y), RootOf(root, u))
  {
    RootPositive(root, x);
    RootOverOne(root, u.ratio);
    var r, s := root(u.ratio), root(x);
    FourFactors(r, s, r, s);
    MulAtLeastOne(r, r);
    assert Mul(Mul(r, s), Mul(r, s)) == Mul(u.ratio, x);
    Positive(r, s);
    Positive(u.ratio, x);
    RootUnique(root, y, Mul(r, s));
  }

  /** A volatile LP moves by the root of the product of its legs' reaches. */
  lemma VolatileMoves(n: Network, provider: string, w: World, v: World, source: Source, stack: set<Key>)
    requires source.VolatileLp? && n.Valid() && w.weight == v.weight && w.weight(source.pool) > 0.0
    requires KeyMoves(n, provider, w, v, source.keyA, stack) && KeyMoves(n, provider, w, v, source.keyB, stack)
    ensures SourceMoves(n, provider, w, v, source, stack)
  {
    var a, b := Resolve(n, w, source.keyA, stack).value, Resolve(n, w, source.keyB, stack).value;
    var c, d := Resolve(n, v, source.keyA, stack).value, Resolve(n, v, source.keyB, stack).value;
    var u := Times(ReachOf(n, provider, source.keyA, stack).value, ReachOf(n, provider, source.keyB, stack).value);
    MovesProduct(a, b, c, d, ReachOf(n, provider, source.keyA, stack).value, ReachOf(n, provider, source.keyB, stack).value);
    MovesWeighted(Mul(a, b), Mul(c, d), w.weight(source.pool), u);
    MovesRoot(n.root, Mul(w.weight(source.pool), Mul(a, b)), Mul(w.weight(source.pool), Mul(c, d)), u);
  }

  lemma MovesWeighted(x: real, y: real, k: real, u: Reach)
    requires Moves(x, y, u) && k > 0.0
    ensures Moves(Mul(k, x), Mul(k, y), u)
  {
    Positive(k, x);
    MulLaws(k, u.ratio, x);
    MulLaws(u.ratio, k, x);
  }

  /** A stable LP moves by the wider reach while the leg that has it is the cheaper one. */
  lemma StableMoves(n: Network, provider: string, w: World, v: World, source: Source, stack: set<Key>)
    requires source.StableLp? && w.weight == v.weight && w.weight(source.pool) > 0.0
    requires KeyMoves(n, provider, w, v, source.keyA, stack) && ReachOf(n, provider, source.keyB, stack).Ok?
    requires Resolve(n, w, source.keyB, stack).Ok? && Resolve(n, v, source.keyB, stack).Ok?
    requires Le(ReachOf(n, provider, source.keyB, stack).value, ReachOf(n, provider, source.keyA, stack).value)
    requires Resolve(n, w, source.keyA, stack).value <= Resolve(n, w, source.keyB, stack).value
    requires Resolve(n, v, source.keyA, stack).value <= Resolve(n, v, source.keyB, stack).value
    ensures SourceMoves(n, provider, w, v, source, stack)
  {
    MovesWeighted(Resolve(n, w, source.keyA, stack).value, Resolve(n, v, source.keyA, stack).value, w.weight(source.pool),
                  ReachOf(n, provider, source.keyA, stack).value);
    EqualReaches(ReachOf(n, provider, source.keyA, stack).value, ReachOf(n, provider, source.keyB, stack).value);
  }

  lemma EqualReaches(u: Reach, v: Reach)
    requires Le(v, u)
    ensures Wider(u, v) == u
  {
  }

  // ----- oracles and keys

  ghost predicate OracleMoves(n: Network, provider: string, w: World, v: World, o: Oracle, stack: set<Key>, u: Reach) {
    && ReadOracle(n, w, o, stack).Ok? && ReadOracle(n, v, o, stack).Ok?
    && Moves(ReadOracle(n, w, o, stack).value, ReadOracle(n, v, o, stack).value, u)
  }

  predicate Sane(o: Oracle, price: real) {
    o.minSanity <= price <= o.maxSanity
  }

  lemma SaneMoves(p: real, q: real, u: Reach, o: Oracle)
    requires Moves(p, q, u) && Sane(o, p) && Sane(o, q)
    ensures (if u.AtMostOne() then Bounded(1.0) else Tighter(u, Span(o.minSanity, o.maxSanity))) == u
  {
    var span := Span(o.minSanity, o.maxSanity);
    if span.Bounded? && span.ratio < u.ratio {
      WithinSpan(p, q, o.minSanity, o.maxSanity);
      RaiseStrictly(span.ratio, u.ratio, p);
    }
  }

  /** A single source inside the band moves the accepted price by its own reach. */
  lemma SingleSourceMoves(n: Network, provider: string, w: World, v: World, o: Oracle, stack: set<Key>)
    requires |o.sources| == 1 && SourceMoves(n, provider, w, v, o.sources[0], stack)
    requires Sane(o, ReadSource(n, w, o.sources[0], stack).value) && Sane(o, ReadSource(n, v, o.sources[0], stack).value)
    ensures OracleReach(n, provider, o, stack).Ok? && OracleMoves(n, provider, w, v, o, stack, OracleReach(n, provider, o, stack).value)
  {
    var p, q := ReadSource(n, w, o.sources[0], stack).value, ReadSource(n, v, o.sources[0], stack).value;
    MovesUp(p, q, LegReach(n, provider, o.sources[0], stack).value);
    SaneMoves(p, q, LegReach(n, provider, o.sources[0], stack).value, o);
  }

  /** One that reaches past the band moves it from end to end. */
  lemma BandMoves(n: Network, provider: string, w: World, v: World, o: Oracle, stack: set<Key>)
    requires |o.sources| == 1 && 0.0 < o.minSanity <= o.maxSanity
    requires LegReach(n, provider, o.sources[0], stack).Ok? && !LegReach(n, provider, o.sources[0], stack).value.AtMostOne()
    requires Le(Span(o.minSanity, o.maxSanity), LegReach(n, provider, o.sources[0], stack).value)
    requires ReadSource(n, w, o.sources[0], stack) == Ok(o.minSanity) && ReadSource(n, v, o.sources[0], stack) == Ok(o.maxSanity)
    ensures OracleReach(n, provider, o, stack).Ok? && OracleMoves(n, provider, w, v, o, stack, OracleReach(n, provider, o, stack).value)
  {
    SpanMoves(o.minSanity, o.maxSanity);
  }

  lemma AgreeBelow(upperRatioBps: nat, low: real, high: real, x: real)
    requires 0.0 < low <= high && high == Mul(x, low) && x < Tolerance(upperRatioBps).ratio
    ensures Agree(upperRatioBps, low, high) && Agree(upperRatioBps, high, low)
  {
    assert high * BPS as real / low == x * BPS as real;
    assert x * BPS as real + 0.5 < upperRatioBps as real + 1.0;
  }

  /** The fixed leg at `a`, the other at `a / x` and then at `a * x`: the midpoint moves by exactly `x`. */
  lemma MidpointMoves(a: real, x: real)
    requires a > 0.0 && x >= 1.0
    ensures Moves(Mid(a, a / x), Mid(a, Mul(x, a)), Bounded(x))
    ensures 0.0 < a / x <= a <= Mul(x, a) && a == Mul(x, a / x)
  {
    var b := a / x;
    assert b * x == a;
    if b <= 0.0 { MulLe(b, 0.0, x); }
    MulLe(1.0, x, b);
    MulOne(b);
    MulLe(1.0, x, a);
    MulOne(a);
    assert Mul(x, Mid(a, b)) == (x * a + x * b) / 2.0;
  }

  /** A two-source key of which the provider reaches one leg, by more than the tolerance: every ratio
      below the tolerance is brought about, and the computed reach is the tolerance or the band. */
  lemma TwoSourceMoves(n: Network, provider: string, w: World, v: World, o: Oracle, stack: set<Key>, a: real, x: real)
    requires |o.sources| == 2 && a > 0.0 && 1.0 <= x < Tolerance(o.upperRatioBps).ratio
    requires LegReach(n, provider, o.sources[0], stack).Ok? && LegReach(n, provider, o.sources[0], stack).value.AtMostOne()
    requires LegReach(n, provider, o.sources[1], stack).Ok? && !LegReach(n, provider, o.sources[1], stack).value.AtMostOne()
    requires Le(Tolerance(o.upperRatioBps), LegReach(n, provider, o.sources[1], stack).value)
    requires ReadSource(n, w, o.sources[0], stack) == Ok(a) && ReadSource(n, v, o.sources[0], stack) == Ok(a)
    requires ReadSource(n, w, o.sources[1], stack) == Ok(a / x) && ReadSource(n, v, o.sources[1], stack) == Ok(Mul(x, a))
    requires Sane(o, Mid(a, a / x)) && Sane(o, Mid(a, Mul(x, a)))
    ensures OracleMoves(n, provider, w, v, o, stack, Bounded(x))
    ensures OracleReach(n, provider, o, stack) == Ok(Tighter(Tolerance(o.upperRatioBps), Span(o.minSanity, o.maxSanity)))
  {
    MidpointMoves(a, x);
    MovesUp(Mid(a, a / x), Mid(a, Mul(x, a)), Bounded(x));
    AgreeBelow(o.upperRatioBps, a / x, a, x);
    AgreeBelow(o.upperRatioBps, a, Mul(x, a), x);
    EqualReaches(LegReach(n, provider, o.sources[1], stack).value, Tolerance(o.upperRatioBps));
  }

  /** Both legs reached: the less movable one moves by all of `u`, the other swings around it, and the
      midpoint moves by exactly `u * x`. */
  lemma AnchoredMidpointMoves(a: real, c: real, u: Reach, x: real)
    requires Moves(a, c, u) && x >= 1.0
    ensures Moves(Mid(a, a / x), Mid(c, Mul(x, c)), Bounded(Mul(u.ratio, x)))
    ensures 0.0 < a / x <= a && 0.0 < c <= Mul(x, c) && a == Mul(x, a / x)
  {
    MidpointMoves(a, x);
    MovesUp(a, c, u);
    MidpointMoves(c, x);
    MulAtLeastOne(u.ratio, x);
    AnchoredSum(a, a / x, u.ratio, x);
  }

  lemma AnchoredSum(a: real, b: real, u: real, x: real)
    requires a == Mul(x, b)
    ensures Mid(Mul(u, a), Mul(x, Mul(u, a))) == Mul(Mul(u, x), Mid(a, b))
  {
    assert (u * x) * ((a + b) / 2.0) == (x * (u * a) + u * (x * b)) / 2.0;
  }

  /** A two-source key of which the provider reaches both legs: every ratio below the smaller reach
      times the tolerance is brought about, and the computed reach is that product or the band. */
  lemma BothSourcesMove(n: Network, provider: string, w: World, v: World, o: Oracle, stack: set<Key>, a: real, c: real, x: real)
    requires |o.sources| == 2 && 1.0 <= x < Tolerance(o.upperRatioBps).ratio
    requires LegReach(n, provider, o.sources[0], stack).Ok? && !LegReach(n, provider, o.sources[0], stack).value.AtMostOne()
    requires LegReach(n, provider, o.sources[1], stack).Ok? && !LegReach(n, provider, o.sources[1], stack).value.AtMostOne()
    requires Moves(a, c, LegReach(n, provider, o.sources[0], stack).value)
    requires Le(Times(LegReach(n, provider, o.sources[0], stack).value, Tolerance(o.upperRatioBps)), LegReach(n, provider, o.sources[1], stack).value)
    requires ReadSource(n, w, o.sources[0], stack) == Ok(a) && ReadSource(n, v, o.sources[0], stack) == Ok(c)
    requires ReadSource(n, w, o.sources[1], stack) == Ok(a / x) && ReadSource(n, v, o.sources[1], stack) == Ok(Mul(x, c))
    requires Sane(o, Mid(a, a / x)) && Sane(o, Mid(c, Mul(x, c)))
    ensures OracleMoves(n, provider, w, v, o, stack, Bounded(Mul(LegReach(n, provider, o.sources[0], stack).value.ratio, x)))
    ensures OracleReach(n, provider, o, stack)
         == Ok(Tighter(Times(LegReach(n, provider, o.sources[0], stack).value, Tolerance(o.upperRatioBps)), Span(o.minSanity, o.maxSanity)))
  {
    var u, t := LegReach(n, provider, o.sources[0], stack).value, Tolerance(o.upperRatioBps);
    AnchoredMidpointMoves(a, c, u, x);
    MovesUp(Mid(a, a / x), Mid(c, Mul(x, c)), Bounded(Mul(u.ratio, x)));
    AgreeBelow(o.upperRatioBps, a / x, a, x);
    AgreeBelow(o.upperRatioBps, c, Mul(x, c), x);
    AnchorIsTighter(u, LegReach(n, provider, o.sources[1], stack).value, t);
  }

  lemma AnchorIsTighter(u: Reach, v: Reach, t: Reach)
    requires u.Bounded? && u.ratio > 1.0 && t.Bounded? && t.ratio > 1.0 && Le(Times(u, t), v) && !v.AtMostOne()
    ensures MidpointReach(u, v, t) == Times(u, t) && Times(u, t).ratio > 1.0
  {
    MulAtLeastOne(u.ratio, t.ratio);
    RaiseStrictly(1.0, t.ratio, u.ratio);
  }

  /** A key with one configuration moves as its oracle does. */
  lemma SingleConfigurationMoves(n: Network, provider: string, w: World, v: World, key: Key, stack: set<Key>)
    requires key !in stack && key in n.oracles && |n.oracles[key]| == 1 && w.installed(key) == 0 && v.installed(key) == 0
    requires OracleReach(n, provider, n.oracles[key][0], stack + {key}).Ok?
    requires OracleMoves(n, provider, w, v, n.oracles[key][0], stack + {key}, OracleReach(n, provider, n.oracles[key][0], stack + {key}).value)
    ensures KeyMoves(n, provider, w, v, key, stack)
  {
    Smaller(n, key, stack);
  }

  /** The world in which one feed reports `price` and everything else is as in `w`. */
  function Reporting(w: World, feed: Feed, price: real): World {
    w.(report := (f: Feed) => if f == feed then Some(price) else w.report(f))
  }

  /** A key priced by one feed alone: its provider takes it from one end of the band to the other, which
      is exactly the computed reach. */
  lemma SingleFeedAttained(n: Network, w: World, key: Key, feed: Feed)
    requires key in n.oracles && |n.oracles[key]| == 1 && w.installed(key) == 0
    requires n.oracles[key][0].sources == [Plain(feed)] && 0.0 < n.oracles[key][0].minSanity <= n.oracles[key][0].maxSanity
    ensures var o := n.oracles[key][0];
      var low, high := Reporting(w, feed, o.minSanity), Reporting(w, feed, o.maxSanity);
      && OnlyMoves(feed.contract, low, high) && KeyMoves(n, feed.contract, low, high, key, {})
      && Resolve(n, low, key, {}) == Ok(o.minSanity) && Resolve(n, high, key, {}) == Ok(o.maxSanity)
      && ReachOf(n, feed.contract, key, {}) == Ok(Bounded(o.maxSanity / o.minSanity))
  {
    var o := n.oracles[key][0];
    var low, high := Reporting(w, feed, o.minSanity), Reporting(w, feed, o.maxSanity);
    Smaller(n, key, {});
    BandMoves(n, feed.contract, low, high, o, {} + {key});
    SingleConfigurationMoves(n, feed.contract, low, high, key, {});
  }

  // ----- rows

  lemma Whole(debt: real, collateral: real, lt: real, u: real, v: real, pc: real, pd: real, qc: real, qd: real)
    requires pc == Mul(u, qc) && qd == Mul(v, pd) && Mul(debt, pd) == Mul(lt, Mul(collateral, pc))
    ensures Mul(debt, qd) == Mul(Mul(Mul(lt, u), v), Mul(collateral, qc))
  {
    var held := Mul(collateral, qc);
    Swap(debt, v, pd);
    Swap(collateral, u, qc);
    MulLaws(lt, u, held);
    MulLaws(v, Mul(lt, u), held);
  }

  lemma Swap(a: real, b: real, c: real)
    ensures Mul(a, Mul(b, c)) == Mul(b, Mul(a, c))
  {
  }

  /** A debt at the threshold, its collateral moved down and its price moved up by the whole reaches,
      leaves the lenders within one percent of the collateral exactly when the row violates. */
  lemma RowViolatesIff(row: Envelope.Pair, debt: real, collateral: real, pc: real, pd: real, qc: real, qd: real)
    requires Moves(qc, pc, row.reachC) && Moves(pd, qd, row.reachD) && collateral > 0.0
    requires Mul(debt, pd) == Mul(row.threshold as real / BPS as real, Mul(collateral, pc))
    ensures row.Violates() <==> Mul(collateral, qc) <= Mul(1.01, Mul(debt, qd))
  {
    var lt, product, held := row.threshold as real / BPS as real, row.Product().ratio, Mul(collateral, qc);
    Whole(debt, collateral, lt, row.reachC.ratio, row.reachD.ratio, pc, pd, qc, qd);
    Positive(collateral, qc);
    LimitScalars(product, held);
  }

  lemma LimitScalars(product: real, held: real)
    requires held > 0.0
    ensures product >= 1.0 / 1.01 <==> held <= Mul(1.01, Mul(product, held))
  {
    var k := 1.01 * product;
    assert Mul(1.01, Mul(product, held)) == k * held;
    if k >= 1.0 { Grow(held, 1.0, k); } else { Shrink(held, k); }
  }
}
