/** Oracle configurations, the price the aggregator accepts for each key, and how far one provider
    contract can move it. Prices and ratios are exact reals, with a point at infinity for ratios. */
module Oracles {
  import opened Numbers
  import opened Ratios

  datatype Key = Token(address: string) | Ref(name: string)

  datatype Feed = Feed(contract: string, id: string)

  datatype Source =
    | Plain(feed: Feed)
    | Scaled(factor: Feed, minFactor: real, maxFactor: real, quote: Key)
    | VolatileLp(pool: string, keyA: Key, keyB: Key)
    | StableLp(pool: string, keyA: Key, keyB: Key)

  datatype Oracle = Oracle(sources: seq<Source>, upperRatioBps: nat, minSanity: real, maxSanity: real)

  /** All configurations listed for each key, and the square root both readers use. */
  datatype Network = Network(oracles: map<Key, seq<Oracle>>, root: real -> real) {
    ghost predicate Valid() {
      IsRoot(root)
    }
  }

  // ----- what the aggregator accepts

  /** One observable moment: provider reports, pool reserves per share, installed configurations. */
  datatype World = World(report: Feed -> Option<real>, weight: string -> real, installed: Key -> nat)

  function ReadFeed(w: World, feed: Feed): Result<real> {
    match w.report(feed)
    case None => Err(InvalidPrice)
    case Some(price) => Ok(price)
  }

  /** The ratio of the legs in BPS, rounded half up, is at most the configured one. */
  predicate Agree(upperRatioBps: nat, a: real, b: real) {
    && Lesser(a, b) > 0.0
    && (Greater(a, b) * BPS as real / Lesser(a, b) + 0.5).Floor <= upperRatioBps
  }

  function Accept(o: Oracle, price: real): (r: Result<real>)
    ensures r.Ok? ==> r.value == price > 0.0 && o.minSanity <= price <= o.maxSanity
  {
    if price > 0.0 && o.minSanity <= price <= o.maxSanity then Ok(price) else Err(InvalidPrice)
  }

  function Resolve(n: Network, w: World, key: Key, stack: set<Key>): (r: Result<real>)
    ensures r.Ok? ==> r.value > 0.0
    decreases |n.oracles.Keys - stack|, 2
  {
    var _ :- Require(key !in stack, OracleCycle);
    var _ :- Require(key in n.oracles && w.installed(key) < |n.oracles[key]|, OracleMissing);
    Smaller(n, key, stack);
    ReadOracle(n, w, n.oracles[key][w.installed(key)], stack + {key})
  }

  function ReadOracle(n: Network, w: World, o: Oracle, stack: set<Key>): (r: Result<real>)
    ensures r.Ok? ==> r.value > 0.0
    decreases |n.oracles.Keys - stack|, 4
  {
    var _ :- Require(1 <= |o.sources| <= 2, SourceCount);
    var first :- ReadSource(n, w, o.sources[0], stack);
    if |o.sources| == 1 then Accept(o, first)
    else
      var second :- ReadSource(n, w, o.sources[1], stack);
      var _ :- Require(Agree(o.upperRatioBps, first, second), InvalidPrice);
      Accept(o, Mid(first, second))
  }

  function ReadSource(n: Network, w: World, source: Source, stack: set<Key>): Result<real>
    decreases |n.oracles.Keys - stack|, 3
  {
    match source
    case Plain(feed) => ReadFeed(w, feed)
    case Scaled(factor, minFactor, maxFactor, quote) =>
      var f :- ReadFeed(w, factor);
      var _ :- Require(minFactor <= f <= maxFactor, InvalidPrice);
      var q :- Resolve(n, w, quote, stack);
      Ok(Mul(f, q))
    case VolatileLp(pool, keyA, keyB) =>
      var a :- Resolve(n, w, keyA, stack);
      var b :- Resolve(n, w, keyB, stack);
      var _ :- Require(w.weight(pool) > 0.0, InvalidPrice);
      Ok(n.root(Mul(w.weight(pool), Mul(a, b))))
    case StableLp(pool, keyA, keyB) =>
      var a :- Resolve(n, w, keyA, stack);
      var b :- Resolve(n, w, keyB, stack);
      var _ :- Require(w.weight(pool) > 0.0, InvalidPrice);
      Ok(Mul(w.weight(pool), Lesser(a, b)))
  }

  lemma Smaller(n: Network, key: Key, stack: set<Key>)
    requires key in n.oracles && key !in stack
    ensures |n.oracles.Keys - (stack + {key})| < |n.oracles.Keys - stack|
  {
    assert n.oracles.Keys - stack == (n.oracles.Keys - (stack + {key})) + {key};
  }

  // ----- the static analysis

  /** Widest leg ratio that the half-up comparison admits. */
  function Tolerance(upperRatioBps: nat): Reach {
    Bounded((upperRatioBps as real + 0.5) / BPS as real)
  }

  function ReachOf(n: Network, provider: string, key: Key, stack: set<Key>): Result<Reach>
    decreases |n.oracles.Keys - stack|, 2, 0
  {
    var _ :- Require(key !in stack, OracleCycle);
    var _ :- Require(key in n.oracles && n.oracles[key] != [], OracleMissing);
    Smaller(n, key, stack);
    WidestReach(n, provider, n.oracles[key], stack + {key})
  }

  function WidestReach(n: Network, provider: string, oracles: seq<Oracle>, stack: set<Key>): Result<Reach>
    requires oracles != []
    decreases |n.oracles.Keys - stack|, 5, |oracles|
  {
    var first :- OracleReach(n, provider, oracles[0], stack);
    if |oracles| == 1 then Ok(first)
    else
      var rest :- WidestReach(n, provider, oracles[1..], stack);
      Ok(Wider(first, rest))
  }

  function OracleReach(n: Network, provider: string, o: Oracle, stack: set<Key>): Result<Reach>
    decreases |n.oracles.Keys - stack|, 4, 0
  {
    var _ :- Require(1 <= |o.sources| <= 2, SourceCount);
    var first :- LegReach(n, provider, o.sources[0], stack);
    var moved :- if |o.sources| == 1 then Ok(first)
                 else SecondLeg(n, provider, o, first, stack);
    Ok(if moved.AtMostOne() then Bounded(1.0) else Tighter(moved, Span(o.minSanity, o.maxSanity)))
  }

  function SecondLeg(n: Network, provider: string, o: Oracle, first: Reach, stack: set<Key>): Result<Reach>
    requires |o.sources| == 2
    decreases |n.oracles.Keys - stack|, 3, 1
  {
    var second :- LegReach(n, provider, o.sources[1], stack);
    Ok(MidpointReach(first, second, Tolerance(o.upperRatioBps)))
  }

  function LegReach(n: Network, provider: string, source: Source, stack: set<Key>): Result<Reach>
    decreases |n.oracles.Keys - stack|, 3, 0
  {
    match source
    case Plain(feed) => Ok(if feed.contract == provider then Unbounded else Bounded(1.0))
    case Scaled(factor, minFactor, maxFactor, quote) =>
      var quoted :- ReachOf(n, provider, quote, stack);
      Ok(Times(if factor.contract == provider then Span(minFactor, maxFactor) else Bounded(1.0), quoted))
    case VolatileLp(_, keyA, keyB) =>
      var a :- ReachOf(n, provider, keyA, stack);
      var b :- ReachOf(n, provider, keyB, stack);
      Ok(RootOf(n.root, Times(a, b)))
    case StableLp(_, keyA, keyB) =>
      var a :- ReachOf(n, provider, keyA, stack);
      var b :- ReachOf(n, provider, keyB, stack);
      Ok(Wider(a, b))
  }

  // ----- soundness

  /** The worlds differ only in what `provider` reports. */
  ghost predicate OnlyMoves(provider: string, w: World, v: World) {
    && w.weight == v.weight && w.installed == v.installed
    && forall f: Feed :: f.contract != provider ==> w.report(f) == v.report(f)
  }

  lemma AgreeRatio(upperRatioBps: nat, a: real, b: real)
    requires Agree(upperRatioBps, a, b)
    ensures Tolerance(upperRatioBps).ratio > 0.0 && Within(a, b, Tolerance(upperRatioBps))
  {
    var low, high := Lesser(a, b), Greater(a, b);
    var x := high * BPS as real / low;
    assert x < upperRatioBps as real + 0.5;
    assert x * low == high * BPS as real;
    AgreeScalars(low, high, x, Tolerance(upperRatioBps).ratio);
  }

  lemma AgreeScalars(low: real, high: real, x: real, t: real)
    requires 0.0 < low <= high && x * low == high * BPS as real && x < t * BPS as real && t > 0.0
    ensures low <= Mul(t, high) && high <= Mul(t, low)
  {
    Grow(low, x, t * BPS as real);
    assert t * BPS as real * low == (t * low) * BPS as real;
    Raise(low, high, t);
  }

  /** Both worlds price `key`, within the reach of `provider`. */
  ghost predicate Contained(n: Network, provider: string, w: World, v: World, key: Key, stack: set<Key>) {
    && Resolve(n, w, key, stack).Ok? && Resolve(n, v, key, stack).Ok? && ReachOf(n, provider, key, stack).Ok?
    && Within(Resolve(n, w, key, stack).value, Resolve(n, v, key, stack).value, ReachOf(n, provider, key, stack).value)
  }

  ghost predicate Readable(n: Network, provider: string, w: World, v: World, source: Source, stack: set<Key>) {
    && LegReach(n, provider, source, stack).Ok?
    && ReadSource(n, w, source, stack).Ok? && ReadSource(n, w, source, stack).value > 0.0
    && ReadSource(n, v, source, stack).Ok? && ReadSource(n, v, source, stack).value > 0.0
  }

  ghost predicate LegContained(n: Network, provider: string, w: World, v: World, source: Source, stack: set<Key>)
    requires Readable(n, provider, w, v, source, stack)
  {
    Within(ReadSource(n, w, source, stack).value, ReadSource(n, v, source, stack).value,
           LegReach(n, provider, source, stack).value)
  }

  lemma ScaledIsSound(n: Network, provider: string, w: World, v: World, source: Source, stack: set<Key>)
    requires source.Scaled? && OnlyMoves(provider, w, v) && Readable(n, provider, w, v, source, stack)
    requires Contained(n, provider, w, v, source.quote, stack)
    ensures LegContained(n, provider, w, v, source, stack)
  {
    var f, g := ReadFeed(w, source.factor).value, ReadFeed(v, source.factor).value;
    var q, r := Resolve(n, w, source.quote, stack).value, Resolve(n, v, source.quote, stack).value;
    PositiveFactor(f, q);
    PositiveFactor(g, r);
    WithinSpan(f, g, source.minFactor, source.maxFactor);
    WithinProduct(f, q, g, r, if source.factor.contract == provider then Span(source.minFactor, source.maxFactor) else Bounded(1.0),
                  ReachOf(n, provider, source.quote, stack).value);
  }

  lemma VolatileLpIsSound(n: Network, provider: string, w: World, v: World, source: Source, stack: set<Key>)
    requires source.VolatileLp? && n.Valid() && OnlyMoves(provider, w, v) && Readable(n, provider, w, v, source, stack)
    requires Contained(n, provider, w, v, source.keyA, stack) && Contained(n, provider, w, v, source.keyB, stack)
    ensures LegContained(n, provider, w, v, source, stack)
  {
    WithinRootProduct(n.root, Resolve(n, w, source.keyA, stack).value, Resolve(n, w, source.keyB, stack).value,
                     Resolve(n, v, source.keyA, stack).value, Resolve(n, v, source.keyB, stack).value,
                     w.weight(source.pool), ReachOf(n, provider, source.keyA, stack).value,
                     ReachOf(n, provider, source.keyB, stack).value);
  }

  lemma StableLpIsSound(n: Network, provider: string, w: World, v: World, source: Source, stack: set<Key>)
    requires source.StableLp? && OnlyMoves(provider, w, v) && Readable(n, provider, w, v, source, stack)
    requires Contained(n, provider, w, v, source.keyA, stack) && Contained(n, provider, w, v, source.keyB, stack)
    ensures LegContained(n, provider, w, v, source, stack)
  {
    WithinLesser(Resolve(n, w, source.keyA, stack).value, Resolve(n, w, source.keyB, stack).value,
                   Resolve(n, v, source.keyA, stack).value, Resolve(n, v, source.keyB, stack).value,
                   w.weight(source.pool), ReachOf(n, provider, source.keyA, stack).value,
                   ReachOf(n, provider, source.keyB, stack).value);
  }

  /** One provider alone moves an accepted price by at most its reach. */
  lemma {:induction false} ReachIsSound(n: Network, provider: string, w: World, v: World, key: Key, stack: set<Key>)
    requires n.Valid() && OnlyMoves(provider, w, v) && ReachOf(n, provider, key, stack).Ok?
    requires Resolve(n, w, key, stack).Ok? && Resolve(n, v, key, stack).Ok?
    ensures Within(Resolve(n, w, key, stack).value, Resolve(n, v, key, stack).value,
                   ReachOf(n, provider, key, stack).value)
    decreases |n.oracles.Keys - stack|, 2
  {
    Smaller(n, key, stack);
    var i, below := w.installed(key), stack + {key};
    WidestCovers(n, provider, n.oracles[key], i, below);
    OracleReachIsSound(n, provider, w, v, n.oracles[key][i], below);
    WithinWider(Resolve(n, w, key, stack).value, Resolve(n, v, key, stack).value,
                OracleReach(n, provider, n.oracles[key][i], below).value, ReachOf(n, provider, key, stack).value);
  }

  lemma {:induction false} WidestCovers(n: Network, provider: string, oracles: seq<Oracle>, i: nat, stack: set<Key>)
    requires i < |oracles| && WidestReach(n, provider, oracles, stack).Ok?
    ensures OracleReach(n, provider, oracles[i], stack).Ok?
    ensures Le(OracleReach(n, provider, oracles[i], stack).value, WidestReach(n, provider, oracles, stack).value)
    decreases |oracles|
  {
    if i > 0 { WidestCovers(n, provider, oracles[1..], i - 1, stack); }
  }

  lemma {:induction false} OracleReachIsSound(n: Network, provider: string, w: World, v: World, o: Oracle, stack: set<Key>)
    requires n.Valid() && OnlyMoves(provider, w, v) && OracleReach(n, provider, o, stack).Ok?
    requires ReadOracle(n, w, o, stack).Ok? && ReadOracle(n, v, o, stack).Ok?
    ensures Within(ReadOracle(n, w, o, stack).value, ReadOracle(n, v, o, stack).value,
                   OracleReach(n, provider, o, stack).value)
    decreases |n.oracles.Keys - stack|, 4
  {
    var p, q := ReadOracle(n, w, o, stack).value, ReadOracle(n, v, o, stack).value;
    var first := LegReach(n, provider, o.sources[0], stack).value;
    LegReachIsSound(n, provider, w, v, o.sources[0], stack);
    var moved := first;
    if |o.sources| == 2 {
      var second := LegReach(n, provider, o.sources[1], stack).value;
      LegReachIsSound(n, provider, w, v, o.sources[1], stack);
      moved := MidpointReach(first, second, Tolerance(o.upperRatioBps));
      var a, b := ReadSource(n, w, o.sources[0], stack).value, ReadSource(n, w, o.sources[1], stack).value;
      var c, d := ReadSource(n, v, o.sources[0], stack).value, ReadSource(n, v, o.sources[1], stack).value;
      AgreeRatio(o.upperRatioBps, a, b);
      AgreeRatio(o.upperRatioBps, c, d);
      WithinMidpoint(a, b, c, d, first, second, Tolerance(o.upperRatioBps));
    }
    if moved.AtMostOne() { WithinCollapse(p, q, moved); }
    WithinSpan(p, q, o.minSanity, o.maxSanity);
  }

  lemma {:induction false} LegReachIsSound(n: Network, provider: string, w: World, v: World, source: Source, stack: set<Key>)
    requires n.Valid() && OnlyMoves(provider, w, v) && Readable(n, provider, w, v, source, stack)
    ensures LegContained(n, provider, w, v, source, stack)
    decreases |n.oracles.Keys - stack|, 3
  {
    match source
    case Plain(_) =>
    case Scaled(_, _, _, quote) =>
      ReachIsSound(n, provider, w, v, quote, stack);
      ScaledIsSound(n, provider, w, v, source, stack);
    case VolatileLp(_, keyA, keyB) =>
      ReachIsSound(n, provider, w, v, keyA, stack);
      ReachIsSound(n, provider, w, v, keyB, stack);
      VolatileLpIsSound(n, provider, w, v, source, stack);
    case StableLp(_, keyA, keyB) =>
      ReachIsSound(n, provider, w, v, keyA, stack);
      ReachIsSound(n, provider, w, v, keyB, stack);
      StableLpIsSound(n, provider, w, v, source, stack);
  }

  // ----- the trust set

  /** Every provider contract that the price of `key` depends on. */
  function Contracts(n: Network, key: Key, stack: set<Key>): Result<set<string>>
    decreases |n.oracles.Keys - stack|, 2, 0
  {
    var _ :- Require(key !in stack, OracleCycle);
    var _ :- Require(key in n.oracles && n.oracles[key] != [], OracleMissing);
    Smaller(n, key, stack);
    OracleContracts(n, n.oracles[key], stack + {key})
  }

  function OracleContracts(n: Network, oracles: seq<Oracle>, stack: set<Key>): Result<set<string>>
    decreases |n.oracles.Keys - stack|, 5, |oracles|
  {
    if oracles == [] then Ok({})
    else
      var first :- SourceContracts(n, oracles[0].sources, stack);
      var rest :- OracleContracts(n, oracles[1..], stack);
      Ok(first + rest)
  }

  function SourceContracts(n: Network, sources: seq<Source>, stack: set<Key>): Result<set<string>>
    decreases |n.oracles.Keys - stack|, 4, |sources|
  {
    if sources == [] then Ok({})
    else
      var first :- LegContracts(n, sources[0], stack);
      var rest :- SourceContracts(n, sources[1..], stack);
      Ok(first + rest)
  }

  function LegContracts(n: Network, source: Source, stack: set<Key>): Result<set<string>>
    decreases |n.oracles.Keys - stack|, 3, 0
  {
    match source
    case Plain(feed) => Ok({feed.contract})
    case Scaled(factor, _, _, quote) =>
      var quoted :- Contracts(n, quote, stack);
      Ok({factor.contract} + quoted)
    case VolatileLp(_, keyA, keyB) =>
      var a :- Contracts(n, keyA, stack);
      var b :- Contracts(n, keyB, stack);
      Ok(a + b)
    case StableLp(_, keyA, keyB) =>
      var a :- Contracts(n, keyA, stack);
      var b :- Contracts(n, keyB, stack);
      Ok(a + b)
  }

  lemma {:induction false} OracleTrusted(n: Network, oracles: seq<Oracle>, i: nat, stack: set<Key>)
    requires i < |oracles| && OracleContracts(n, oracles, stack).Ok?
    ensures SourceContracts(n, oracles[i].sources, stack).Ok?
    ensures SourceContracts(n, oracles[i].sources, stack).value <= OracleContracts(n, oracles, stack).value
    decreases |oracles|
  {
    if i > 0 { OracleTrusted(n, oracles[1..], i - 1, stack); }
  }

  lemma {:induction false} LegTrusted(n: Network, sources: seq<Source>, i: nat, stack: set<Key>)
    requires i < |sources| && SourceContracts(n, sources, stack).Ok?
    ensures LegContracts(n, sources[i], stack).Ok?
    ensures LegContracts(n, sources[i], stack).value <= SourceContracts(n, sources, stack).value
    decreases |sources|
  {
    if i > 0 { LegTrusted(n, sources[1..], i - 1, stack); }
  }

  ghost predicate Untrusted(provider: string, contracts: Result<set<string>>) {
    contracts.Ok? && provider !in contracts.value
  }

  /** A provider outside the trust set cannot move the price at all: not even whether it is accepted. */
  lemma {:induction false} OutsiderMovesNothing(n: Network, provider: string, w: World, v: World, key: Key, stack: set<Key>)
    requires OnlyMoves(provider, w, v) && Untrusted(provider, Contracts(n, key, stack))
    ensures Resolve(n, w, key, stack) == Resolve(n, v, key, stack)
    decreases |n.oracles.Keys - stack|, 2
  {
    var i, below := w.installed(key), stack + {key};
    if i < |n.oracles[key]| {
      Smaller(n, key, stack);
      OracleTrusted(n, n.oracles[key], i, below);
      OutsiderMovesNoOracle(n, provider, w, v, n.oracles[key][i], below);
    }
  }

  lemma {:induction false} OutsiderMovesNoOracle(n: Network, provider: string, w: World, v: World, o: Oracle, stack: set<Key>)
    requires OnlyMoves(provider, w, v) && Untrusted(provider, SourceContracts(n, o.sources, stack))
    ensures ReadOracle(n, w, o, stack) == ReadOracle(n, v, o, stack)
    decreases |n.oracles.Keys - stack|, 4
  {
    if 1 <= |o.sources| <= 2 {
      LegTrusted(n, o.sources, 0, stack);
      OutsiderMovesNoLeg(n, provider, w, v, o.sources[0], stack);
      if |o.sources| == 2 {
        LegTrusted(n, o.sources, 1, stack);
        OutsiderMovesNoLeg(n, provider, w, v, o.sources[1], stack);
      }
    }
  }

  lemma {:induction false} OutsiderMovesNoLeg(n: Network, provider: string, w: World, v: World, source: Source, stack: set<Key>)
    requires OnlyMoves(provider, w, v) && Untrusted(provider, LegContracts(n, source, stack))
    ensures ReadSource(n, w, source, stack) == ReadSource(n, v, source, stack)
    decreases |n.oracles.Keys - stack|, 3
  {
    match source
    case Plain(_) =>
    case Scaled(_, _, _, quote) => OutsiderMovesNothing(n, provider, w, v, quote, stack);
    case VolatileLp(_, keyA, keyB) =>
      OutsiderMovesNothing(n, provider, w, v, keyA, stack);
      OutsiderMovesNothing(n, provider, w, v, keyB, stack);
    case StableLp(_, keyA, keyB) =>
      OutsiderMovesNothing(n, provider, w, v, keyA, stack);
      OutsiderMovesNothing(n, provider, w, v, keyB, stack);
  }

  /** The analysis agrees: outside the trust set every computed reach is exactly one. */
  lemma {:induction false} OutsiderReachIsOne(n: Network, provider: string, key: Key, stack: set<Key>)
    requires n.Valid() && Untrusted(provider, Contracts(n, key, stack)) && ReachOf(n, provider, key, stack).Ok?
    ensures ReachOf(n, provider, key, stack).value == Bounded(1.0)
    decreases |n.oracles.Keys - stack|, 2, 0
  {
    Smaller(n, key, stack);
    OutsiderWidestIsOne(n, provider, n.oracles[key], stack + {key});
  }

  lemma {:induction false} OutsiderWidestIsOne(n: Network, provider: string, oracles: seq<Oracle>, stack: set<Key>)
    requires n.Valid() && oracles != [] && Untrusted(provider, OracleContracts(n, oracles, stack))
    requires WidestReach(n, provider, oracles, stack).Ok?
    ensures WidestReach(n, provider, oracles, stack).value == Bounded(1.0)
    decreases |n.oracles.Keys - stack|, 5, |oracles|
  {
    OutsiderOracleIsOne(n, provider, oracles[0], stack);
    if |oracles| > 1 { OutsiderWidestIsOne(n, provider, oracles[1..], stack); }
  }

  lemma {:induction false} OutsiderOracleIsOne(n: Network, provider: string, o: Oracle, stack: set<Key>)
    requires n.Valid() && Untrusted(provider, SourceContracts(n, o.sources, stack)) && OracleReach(n, provider, o, stack).Ok?
    ensures OracleReach(n, provider, o, stack).value == Bounded(1.0)
    decreases |n.oracles.Keys - stack|, 4, 0
  {
    LegTrusted(n, o.sources, 0, stack);
    OutsiderLegIsOne(n, provider, o.sources[0], stack);
    if |o.sources| == 2 {
      LegTrusted(n, o.sources, 1, stack);
      OutsiderLegIsOne(n, provider, o.sources[1], stack);
    }
  }

  lemma {:induction false} OutsiderLegIsOne(n: Network, provider: string, source: Source, stack: set<Key>)
    requires n.Valid() && Untrusted(provider, LegContracts(n, source, stack)) && LegReach(n, provider, source, stack).Ok?
    ensures LegReach(n, provider, source, stack).value == Bounded(1.0)
    decreases |n.oracles.Keys - stack|, 3, 0
  {
    match source
    case Plain(_) =>
    case Scaled(_, _, _, quote) => OutsiderReachIsOne(n, provider, quote, stack);
    case VolatileLp(_, keyA, keyB) =>
      OutsiderReachIsOne(n, provider, keyA, stack);
      OutsiderReachIsOne(n, provider, keyB, stack);
      RootOfOne(n.root);
    case StableLp(_, keyA, keyB) =>
      OutsiderReachIsOne(n, provider, keyA, stack);
      OutsiderReachIsOne(n, provider, keyB, stack);
  }

  // ----- the path to a key does not change its price

  lemma {:induction false} PriceIgnoresStack(n: Network, w: World, key: Key, s: set<Key>, t: set<Key>)
    requires Resolve(n, w, key, s).Ok? && Resolve(n, w, key, t).Ok?
    ensures Resolve(n, w, key, s) == Resolve(n, w, key, t)
    decreases |n.oracles.Keys - s|, 2
  {
    Smaller(n, key, s);
    var o := n.oracles[key][w.installed(key)];
    SameSourcesSamePrice(n, w, o, o, s + {key}, t + {key});
  }

  lemma {:induction false} SameSourcesSamePrice(n: Network, w: World, o: Oracle, q: Oracle, s: set<Key>, t: set<Key>)
    requires o.sources == q.sources && ReadOracle(n, w, o, s).Ok? && ReadOracle(n, w, q, t).Ok?
    ensures ReadOracle(n, w, o, s) == ReadOracle(n, w, q, t)
    decreases |n.oracles.Keys - s|, 4
  {
    LegIgnoresStack(n, w, o.sources[0], s, t);
    if |o.sources| == 2 { LegIgnoresStack(n, w, o.sources[1], s, t); }
  }

  lemma {:induction false} LegIgnoresStack(n: Network, w: World, source: Source, s: set<Key>, t: set<Key>)
    requires ReadSource(n, w, source, s).Ok? && ReadSource(n, w, source, t).Ok?
    ensures ReadSource(n, w, source, s) == ReadSource(n, w, source, t)
    decreases |n.oracles.Keys - s|, 3
  {
    match source
    case Plain(_) =>
    case Scaled(_, _, _, quote) => PriceIgnoresStack(n, w, quote, s, t);
    case VolatileLp(_, keyA, keyB) =>
      PriceIgnoresStack(n, w, keyA, s, t);
      PriceIgnoresStack(n, w, keyB, s, t);
    case StableLp(_, keyA, keyB) =>
      PriceIgnoresStack(n, w, keyA, s, t);
      PriceIgnoresStack(n, w, keyB, s, t);
  }

  /** The sources of all configurations of a key, in order. */
  function Signature(n: Network, key: Key): seq<seq<Source>>
    requires key in n.oracles
  {
    seq(|n.oracles[key]|, i requires 0 <= i < |n.oracles[key]| => n.oracles[key][i].sources)
  }

  /** In this world the two keys read the same sources. */
  predicate ReadAlike(n: Network, w: World, c: Key, d: Key) {
    && c in n.oracles && w.installed(c) < |n.oracles[c]|
    && d in n.oracles && w.installed(d) < |n.oracles[d]|
    && n.oracles[c][w.installed(c)].sources == n.oracles[d][w.installed(d)].sources
  }

  /** Keys whose installed configurations read the same sources price alike. */
  lemma SameSourcesInstalled(n: Network, w: World, c: Key, d: Key)
    requires ReadAlike(n, w, c, d) && Resolve(n, w, c, {}).Ok? && Resolve(n, w, d, {}).Ok?
    ensures Resolve(n, w, c, {}).value == Resolve(n, w, d, {}).value
  {
    SameSourcesSamePrice(n, w, n.oracles[c][w.installed(c)], n.oracles[d][w.installed(d)], {} + {c}, {} + {d});
  }

  /** Every configuration of either key lists the same sources. */
  predicate OneSourceList(n: Network, c: Key, d: Key)
    requires c in n.oracles && d in n.oracles
  {
    forall i, j :: 0 <= i < |n.oracles[c]| && 0 <= j < |n.oracles[d]| ==> n.oracles[c][i].sources == n.oracles[d][j].sources
  }

  /** With one configuration each, the same signature is the same source list. */
  lemma SingleConfigurationsAlike(n: Network, c: Key, d: Key)
    requires c in n.oracles && d in n.oracles && Signature(n, c) == Signature(n, d) && |n.oracles[c]| == 1
    ensures OneSourceList(n, c, d)
  {
    assert Signature(n, c)[0] == Signature(n, d)[0];
  }

  /** Read off the configuration alone: when all configurations of two keys list the same sources,
      their prices are equal in every world that prices both. */
  lemma SameSignatureSamePrice(n: Network, w: World, c: Key, d: Key)
    requires c in n.oracles && d in n.oracles && OneSourceList(n, c, d)
    requires Resolve(n, w, c, {}).Ok? && Resolve(n, w, d, {}).Ok?
    ensures ReadAlike(n, w, c, d) && Resolve(n, w, c, {}).value == Resolve(n, w, d, {}).value
  {
    SameSourcesInstalled(n, w, c, d);
  }

  // ----- the analysis covers every key the aggregator can price

  /** With one configuration per key, whatever the aggregator prices in some world gets a reach. */
  lemma {:induction false} PricedKeysHaveReach(n: Network, provider: string, w: World, key: Key, stack: set<Key>)
    requires forall k <- n.oracles :: |n.oracles[k]| == 1
    requires Resolve(n, w, key, stack).Ok?
    ensures ReachOf(n, provider, key, stack).Ok?
    decreases |n.oracles.Keys - stack|, 2
  {
    Smaller(n, key, stack);
    var o, below := n.oracles[key][0], stack + {key};
    LegHasReach(n, provider, w, o.sources[0], below);
    if |o.sources| == 2 { LegHasReach(n, provider, w, o.sources[1], below); }
    assert OracleReach(n, provider, o, below).Ok?;
    assert WidestReach(n, provider, n.oracles[key], below).Ok?;
  }

  lemma {:induction false} LegHasReach(n: Network, provider: string, w: World, source: Source, stack: set<Key>)
    requires forall k <- n.oracles :: |n.oracles[k]| == 1
    requires ReadSource(n, w, source, stack).Ok?
    ensures LegReach(n, provider, source, stack).Ok?
    decreases |n.oracles.Keys - stack|, 3
  {
    match source
    case Plain(_) =>
    case Scaled(_, _, _, quote) => PricedKeysHaveReach(n, provider, w, quote, stack);
    case VolatileLp(_, keyA, keyB) =>
      PricedKeysHaveReach(n, provider, w, keyA, stack);
      PricedKeysHaveReach(n, provider, w, keyB, stack);
    case StableLp(_, keyA, keyB) =>
      PricedKeysHaveReach(n, provider, w, keyA, stack);
      PricedKeysHaveReach(n, provider, w, keyB, stack);
  }
}
