/** The lender-envelope gate: every (spoke, collateral, debt, provider) row of a network, and what a
    network without violating rows guarantees its lenders. */
module Envelope {
  import opened Numbers
  import opened Ratios
  import opened Oracles

  datatype Reference = Reference(key: Key, oracle: Oracle)
  datatype Market = Market(name: string, address: string, enabled: bool, oracle: Oracle)

  /** Liquidation threshold and loan-to-value are in BPS. */
  datatype Listing = Listing(name: string, enabled: bool, collateral: bool, borrowable: bool, threshold: int, ltv: int)
  datatype Spoke = Spoke(id: string, enabled: bool, listings: seq<Listing>)

  // ----- loading

  datatype Entry = Entry(key: Key, oracle: Oracle)

  /** The configurations that count, in document order: references, then markets. */
  function Entries(references: seq<Reference>, markets: seq<Market>, includeDisabled: bool): seq<Entry> {
    if markets != [] then
      var last := markets[|markets| - 1];
      var before := Entries(references, markets[..|markets| - 1], includeDisabled);
      if includeDisabled || last.enabled then before + [Entry(Token(last.address), last.oracle)] else before
    else if references != [] then
      var last := references[|references| - 1];
      Entries(references[..|references| - 1], [], includeDisabled) + [Entry(last.key, last.oracle)]
    else []
  }

  /** The entries of one key, in order. */
  function Configured(entries: seq<Entry>, key: Key): seq<Oracle> {
    if entries == [] then []
    else
      var last := entries[|entries| - 1];
      var before := Configured(entries[..|entries| - 1], key);
      if last.key == key then before + [last.oracle] else before
  }

  function At(oracles: map<Key, seq<Oracle>>, key: Key): seq<Oracle> {
    if key in oracles then oracles[key] else []
  }

  /** `oracles` holds exactly the keys that have an entry, each with all of its entries. */
  ghost predicate Holds(oracles: map<Key, seq<Oracle>>, entries: seq<Entry>) {
    && (forall key: Key :: At(oracles, key) == Configured(entries, key))
    && (forall key <- oracles :: oracles[key] != [])
  }

  function Append(oracles: map<Key, seq<Oracle>>, e: Entry): map<Key, seq<Oracle>> {
    oracles[e.key := At(oracles, e.key) + [e.oracle]]
  }

  lemma AppendHolds(oracles: map<Key, seq<Oracle>>, entries: seq<Entry>, e: Entry)
    requires Holds(oracles, entries)
    ensures Holds(Append(oracles, e), entries + [e])
  {
    assert (entries + [e])[..|entries|] == entries;
    var next := Append(oracles, e);
    forall key: Key ensures At(next, key) == Configured(entries + [e], key) {
      assert At(oracles, key) == Configured(entries, key);
    }
  }

  /** The key of the last market of that name that counts. */
  function LastKey(markets: seq<Market>, includeDisabled: bool, name: string): Option<Key> {
    if markets == [] then None
    else
      var last := markets[|markets| - 1];
      if (includeDisabled || last.enabled) && last.name == name then Some(Token(last.address))
      else LastKey(markets[..|markets| - 1], includeDisabled, name)
  }

  ghost predicate Names(marketKey: map<string, Key>, markets: seq<Market>, includeDisabled: bool) {
    forall name: string :: LastKey(markets, includeDisabled, name) == if name in marketKey then Some(marketKey[name]) else None
  }

  method Load(references: seq<Reference>, markets: seq<Market>, includeDisabled: bool)
    returns (oracles: map<Key, seq<Oracle>>, marketKey: map<string, Key>)
    ensures Holds(oracles, Entries(references, markets, includeDisabled))
    ensures Names(marketKey, markets, includeDisabled)
    ensures forall name <- marketKey :: marketKey[name] in oracles
  {
    oracles, marketKey := map[], map[];
    for i := 0 to |references|
      invariant Holds(oracles, Entries(references[..i], [], includeDisabled))
    {
      var entry := Entry(references[i].key, references[i].oracle);
      AppendHolds(oracles, Entries(references[..i], [], includeDisabled), entry);
      assert references[..i + 1][..i] == references[..i];
      oracles := Append(oracles, entry);
    }
    assert references[..|references|] == references;
    for i := 0 to |markets|
      invariant Holds(oracles, Entries(references, markets[..i], includeDisabled))
      invariant Names(marketKey, markets[..i], includeDisabled)
      invariant forall name <- marketKey :: marketKey[name] in oracles
    {
      NamesNext(marketKey, markets, i, includeDisabled);
      assert markets[..i + 1][..i] == markets[..i];
      if includeDisabled || markets[i].enabled {
        var entry := Entry(Token(markets[i].address), markets[i].oracle);
        AppendHolds(oracles, Entries(references, markets[..i], includeDisabled), entry);
        oracles := Append(oracles, entry);
        marketKey := marketKey[markets[i].name := entry.key];
      }
    }
    assert markets[..|markets|] == markets;
  }

  lemma NamesNext(marketKey: map<string, Key>, markets: seq<Market>, i: nat, includeDisabled: bool)
    requires i < |markets| && Names(marketKey, markets[..i], includeDisabled)
    ensures Names(if includeDisabled || markets[i].enabled then marketKey[markets[i].name := Token(markets[i].address)] else marketKey,
                  markets[..i + 1], includeDisabled)
  {
    var m := markets[i];
    var next := if includeDisabled || m.enabled then marketKey[m.name := Token(m.address)] else marketKey;
    assert markets[..i + 1][..i] == markets[..i];
    forall name: string
      ensures LastKey(markets[..i + 1], includeDisabled, name) == if name in next then Some(next[name]) else None
    {
      assert LastKey(markets[..i], includeDisabled, name) == if name in marketKey then Some(marketKey[name]) else None;
    }
  }

  // ----- the rows

  datatype Pair = Pair(spoke: string, collateral: string, debt: string, provider: string, threshold: int, ltv: int,
                       reachC: Reach, reachD: Reach) {
    function Product(): Reach {
      Times(Times(Bounded(threshold as real / BPS as real), reachC), reachD)
    }

    /** At or above the limit `1 / (1 + 1%)`. */
    predicate Violates() {
      Product().Unbounded? || Product().ratio >= 1.0 / 1.01
    }
  }

  /** What is read from the configuration: oracles per key and the key of each market. */
  datatype Book = Book(network: Network, marketKey: map<string, Key>, includeDisabled: bool) {
    predicate Collateral(s: Spoke, c: Listing) {
      (includeDisabled || (s.enabled && c.enabled)) && c.collateral && c.threshold > 0
    }

    predicate Debt(s: Spoke, d: Listing) {
      (includeDisabled || (s.enabled && d.enabled)) && d.borrowable
    }

    /** A name that is listed must have a market, and the market's key a configuration. */
    predicate Named(s: Spoke, l: Listing) {
      includeDisabled || (s.enabled && l.enabled) ==> Known(l)
    }

    predicate Known(l: Listing) {
      l.name in marketKey && marketKey[l.name] in network.oracles
    }

    /** Both prices come from the same inputs. */
    predicate Skipped(c: Key, d: Key)
      requires c in network.oracles && d in network.oracles
    {
      c == d || Signature(network, c) == Signature(network, d)
    }

    /** The providers of the pair, when both trust sets and all their reaches can be computed. */
    function Providers(c: Key, d: Key): Result<set<string>> {
      var a :- Contracts(network, c, {});
      var b :- Contracts(network, d, {});
      Ok(a + b)
    }

    predicate Reached(c: Key, d: Key, provider: string) {
      ReachOf(network, provider, c, {}).Ok? && ReachOf(network, provider, d, {}).Ok?
    }

    ghost predicate PairOk(s: Spoke, c: Listing, d: Listing) {
      Collateral(s, c) && Debt(s, d) ==>
        && Known(c) && Known(d)
        && var keyC, keyD := marketKey[c.name], marketKey[d.name];
          !Skipped(keyC, keyD) ==>
            Providers(keyC, keyD).Ok? && forall p <- Providers(keyC, keyD).value :: Reached(keyC, keyD, p)
    }

    ghost predicate SpokeOk(s: Spoke) {
      && (forall l <- s.listings :: Named(s, l))
      && forall c <- s.listings, d <- s.listings :: PairOk(s, c, d)
    }

    ghost predicate InSpoke(s: Spoke, row: Pair) {
      exists c <- s.listings, d <- s.listings :: Covers(s, c, d, row)
    }

    predicate Covers(s: Spoke, c: Listing, d: Listing, row: Pair) {
      && Collateral(s, c) && Debt(s, d) && Known(c) && Known(d)
      && var keyC, keyD := marketKey[c.name], marketKey[d.name];
        && !Skipped(keyC, keyD) && Providers(keyC, keyD).Ok? && row.provider in Providers(keyC, keyD).value
        && Reached(keyC, keyD, row.provider)
        && row == Pair(s.id, c.name, d.name, row.provider, c.threshold, c.ltv,
                       ReachOf(network, row.provider, keyC, {}).value, ReachOf(network, row.provider, keyD, {}).value)
    }
  }

  method PairRows(b: Book, s: Spoke, c: Listing, d: Listing) returns (r: Result<seq<Pair>>)
    requires b.Collateral(s, c) && b.Debt(s, d) && b.Known(c) && b.Known(d)
    ensures r.Ok? <==> b.PairOk(s, c, d)
    ensures r.Ok? ==> forall row :: row in r.value <==> b.Covers(s, c, d, row)
    ensures r.Ok? ==> forall i, j :: 0 <= i < j < |r.value| ==> r.value[i].provider != r.value[j].provider
  {
    var keyC, keyD := b.marketKey[c.name], b.marketKey[d.name];
    if b.Skipped(keyC, keyD) {
      return Ok([]);
    }
    var providers :- b.Providers(keyC, keyD);
    var left, rows := providers, [];
    while left != {}
      invariant left <= providers
      invariant forall p :: p in providers - left ==> b.Reached(keyC, keyD, p)
      invariant forall row :: row in rows <==> b.Covers(s, c, d, row) && row.provider !in left
      invariant forall i, j :: 0 <= i < j < |rows| ==> rows[i].provider != rows[j].provider
      decreases left
    {
      var provider :| provider in left;
      var reachC :- ReachOf(b.network, provider, keyC, {});
      var reachD :- ReachOf(b.network, provider, keyD, {});
      var row := Pair(s.id, c.name, d.name, provider, c.threshold, c.ltv, reachC, reachD);
      assert b.Reached(keyC, keyD, provider);
      assert forall i :: 0 <= i < |rows| ==> rows[i] in rows;
      rows := rows + [row];
      left := left - {provider};
    }
    return Ok(rows);
  }

  method CollateralRows(b: Book, s: Spoke, c: Listing) returns (r: Result<seq<Pair>>)
    requires b.Collateral(s, c) && forall l <- s.listings :: b.Named(s, l)
    requires c in s.listings
    ensures r.Ok? <==> forall d <- s.listings :: b.PairOk(s, c, d)
    ensures r.Ok? ==> forall row :: row in r.value <==> exists d <- s.listings :: b.Covers(s, c, d, row)
  {
    var rows := [];
    for i := 0 to |s.listings|
      invariant forall d <- s.listings[..i] :: b.PairOk(s, c, d)
      invariant forall row :: row in rows <==> exists d <- s.listings[..i] :: b.Covers(s, c, d, row)
    {
      var d := s.listings[i];
      assert s.listings[..i + 1] == s.listings[..i] + [d];
      assert b.Named(s, c) && b.Named(s, d);
      if b.Debt(s, d) {
        var more :- PairRows(b, s, c, d);
        rows := rows + more;
      }
    }
    return Ok(rows);
  }

  method SpokeRows(b: Book, s: Spoke) returns (r: Result<seq<Pair>>)
    ensures r.Ok? <==> b.SpokeOk(s)
    ensures r.Ok? ==> forall row :: row in r.value <==> b.InSpoke(s, row)
  {
    for i := 0 to |s.listings|
      invariant forall l <- s.listings[..i] :: b.Named(s, l)
    {
      assert s.listings[..i + 1] == s.listings[..i] + [s.listings[i]];
      if !b.Named(s, s.listings[i]) {
        return Err(OracleMissing);
      }
    }
    assert s.listings[..|s.listings|] == s.listings;
    var rows := [];
    for i := 0 to |s.listings|
      invariant forall c <- s.listings[..i], d <- s.listings :: b.PairOk(s, c, d)
      invariant forall row :: row in rows <==> exists c <- s.listings[..i], d <- s.listings :: b.Covers(s, c, d, row)
    {
      var c := s.listings[i];
      assert s.listings[..i + 1] == s.listings[..i] + [c];
      if b.Collateral(s, c) {
        var more :- CollateralRows(b, s, c);
        rows := rows + more;
      }
    }
    return Ok(rows);
  }

  /** All rows of all spokes, or the first configuration error. */
  method Evaluate(b: Book, spokes: seq<Spoke>) returns (r: Result<seq<Pair>>)
    ensures r.Ok? <==> forall s <- spokes :: b.SpokeOk(s)
    ensures r.Ok? ==> forall row :: row in r.value <==> exists s <- spokes :: b.InSpoke(s, row)
  {
    var rows := [];
    for i := 0 to |spokes|
      invariant forall s <- spokes[..i] :: b.SpokeOk(s)
      invariant forall row :: row in rows <==> exists s <- spokes[..i] :: b.InSpoke(s, row)
    {
      assert spokes[..i + 1] == spokes[..i] + [spokes[i]];
      var more :- SpokeRows(b, spokes[i]);
      rows := rows + more;
    }
    assert spokes[..|spokes|] == spokes;
    return Ok(rows);
  }

  // ----- what the gate guarantees

  lemma CoverScalars(debt: real, collateral: real, lt: real, u: real, v: real, pc: real, pd: real, qc: real, qd: real)
    requires collateral > 0.0 && debt >= 0.0 && lt > 0.0 && qc > 0.0 && u >= 1.0 && v >= 1.0
    requires pc <= Mul(u, qc) && qd <= Mul(v, pd) && Mul(Mul(lt, u), v) < 1.0
    requires Mul(debt, pd) <= Mul(lt, Mul(collateral, pc))
    ensures Mul(debt, qd) < Mul(collateral, qc)
  {
    HoldingAtMost(debt, qd, pd, v);
    HoldingAtMost(collateral, pc, qc, u);
    Positive(collateral, qc);
    Chain(Mul(debt, qd), Mul(debt, pd), Mul(collateral, pc), Mul(collateral, qc), lt, u, v);
  }

  lemma HoldingAtMost(units: real, p: real, q: real, u: real)
    requires units >= 0.0 && p <= Mul(u, q)
    ensures Mul(units, p) <= Mul(u, Mul(units, q))
  {
    calc {
      units * p;
    <= { Raise(p, u * q, units); }
      units * (u * q);
    ==
      u * (units * q);
    }
  }

  lemma Chain(owedAfter: real, owed: real, held: real, heldAfter: real, lt: real, u: real, v: real)
    requires owedAfter <= Mul(v, owed) && owed <= Mul(lt, held) && held <= Mul(u, heldAfter)
    requires lt > 0.0 && v >= 1.0 && heldAfter > 0.0 && Mul(Mul(lt, u), v) < 1.0
    ensures owedAfter < heldAfter
  {
    calc {
      owedAfter;
    <=
      v * owed;
    <= { Raise(owed, lt * held, v); }
      v * (lt * held);
    == 
      (v * lt) * held;
    <= { Positive(v, lt); Raise(held, u * heldAfter, v * lt); }
      (v * lt) * (u * heldAfter);
    ==
      ((lt * u) * v) * heldAfter;
    < { Shrink(heldAfter, (lt * u) * v); }
      heldAfter;
    }
  }

  /** The price of a listed market in one world, when the aggregator accepts it. */
  function Price(b: Book, w: World, l: Listing): Result<real>
    requires b.Known(l)
  {
    Resolve(b.network, w, b.marketKey[l.name], {})
  }

  ghost predicate Priced(b: Book, w: World, v: World, c: Listing, d: Listing) {
    && b.Known(c) && b.Known(d)
    && Price(b, w, c).Ok? && Price(b, w, d).Ok? && Price(b, v, c).Ok? && Price(b, v, d).Ok?
  }

  /** `debt` units of `d` are worth at most the liquidation threshold of `collateral` units of `c`. */
  ghost predicate Healthy(b: Book, w: World, c: Listing, d: Listing, collateral: real, debt: real)
    requires b.Known(c) && b.Known(d) && Price(b, w, c).Ok? && Price(b, w, d).Ok?
  {
    Mul(debt, Price(b, w, d).value) <= Mul(c.threshold as real / BPS as real, Mul(collateral, Price(b, w, c).value))
  }

  /** One row inside the envelope: however its provider moves, a healthy debt stays below its collateral. */
  lemma RowCoversLenders(b: Book, s: Spoke, c: Listing, d: Listing, row: Pair, w: World, v: World, collateral: real, debt: real)
    requires b.network.Valid() && b.Covers(s, c, d, row) && !row.Violates() && OnlyMoves(row.provider, w, v)
    requires Priced(b, w, v, c, d) && collateral > 0.0 && debt >= 0.0 && Healthy(b, w, c, d, collateral, debt)
    ensures Mul(debt, Price(b, v, d).value) < Mul(collateral, Price(b, v, c).value)
  {
    ReachIsSound(b.network, row.provider, w, v, b.marketKey[c.name], {});
    ReachIsSound(b.network, row.provider, w, v, b.marketKey[d.name], {});
    WithinCovers(debt, collateral, c.threshold as real / BPS as real, row.reachC, row.reachD,
                 Price(b, w, c).value, Price(b, w, d).value, Price(b, v, c).value, Price(b, v, d).value);
  }

  lemma WithinCovers(debt: real, collateral: real, lt: real, u: Reach, v: Reach, pc: real, pd: real, qc: real, qd: real)
    requires collateral > 0.0 && debt >= 0.0 && lt > 0.0 && pc > 0.0 && pd > 0.0 && qc > 0.0 && qd > 0.0
    requires Within(pc, qc, u) && Within(pd, qd, v)
    requires var product := Times(Times(Bounded(lt), u), v); product.Bounded? && product.ratio < 1.0
    requires Mul(debt, pd) <= Mul(lt, Mul(collateral, pc))
    ensures Mul(debt, qd) < Mul(collateral, qc)
  {
    ReachAtLeastOne(pc, qc, u);
    ReachAtLeastOne(pd, qd, v);
    CoverScalars(debt, collateral, lt, u.ratio, v.ratio, pc, pd, qc, qd);
  }

  /** A network whose evaluation shows no violating row: for every collateral and debt of a spoke and
      every provider contract at all, a debt within the threshold at one accepted pair of prices stays
      below its collateral at every other that the provider can bring about. */
  lemma EnvelopeCoversLenders(b: Book, rows: seq<Pair>, s: Spoke, c: Listing, d: Listing, provider: string,
                              w: World, v: World, collateral: real, debt: real)
    requires b.network.Valid() && c in s.listings && d in s.listings && b.SpokeOk(s)
    requires forall row :: b.InSpoke(s, row) ==> row in rows
    requires forall row <- rows :: !row.Violates()
    requires b.Collateral(s, c) && b.Debt(s, d) && c.threshold < BPS
    requires OnlyMoves(provider, w, v) && Priced(b, w, v, c, d)
    requires b.Skipped(b.marketKey[c.name], b.marketKey[d.name]) ==>
      ReadAlike(b.network, w, b.marketKey[c.name], b.marketKey[d.name])
    requires collateral > 0.0 && debt >= 0.0 && Healthy(b, w, c, d, collateral, debt)
    ensures Mul(debt, Price(b, v, d).value) < Mul(collateral, Price(b, v, c).value)
  {
    var keyC, keyD := b.marketKey[c.name], b.marketKey[d.name];
    assert b.PairOk(s, c, d);
    if b.Skipped(keyC, keyD) {
      SameSourcesInstalled(b.network, w, keyC, keyD);
      SameSourcesInstalled(b.network, v, keyC, keyD);
      StillCovers(debt, collateral, c.threshold as real / BPS as real, Price(b, w, c).value, Price(b, v, c).value);
    } else if provider in b.Providers(keyC, keyD).value {
      assert b.Reached(keyC, keyD, provider);
      var row := Pair(s.id, c.name, d.name, provider, c.threshold, c.ltv,
                      ReachOf(b.network, provider, keyC, {}).value, ReachOf(b.network, provider, keyD, {}).value);
      assert b.Covers(s, c, d, row);
      RowCoversLenders(b, s, c, d, row, w, v, collateral, debt);
    } else {
      OutsiderMovesNothing(b.network, provider, w, v, keyC, {});
      OutsiderMovesNothing(b.network, provider, w, v, keyD, {});
      FixedPricesCover(debt, collateral, c.threshold as real / BPS as real, Price(b, w, c).value, Price(b, w, d).value);
    }
  }

  /** Every skipped pair of different keys has one source list: what a reader of the configuration checks. */
  ghost predicate Unambiguous(n: Network) {
    forall c <- n.oracles, d <- n.oracles :: c != d && Signature(n, c) == Signature(n, d) ==> OneSourceList(n, c, d)
  }

  lemma OneConfigurationEach(n: Network)
    requires forall key <- n.oracles :: |n.oracles[key]| == 1
    ensures Unambiguous(n)
  {
    forall c <- n.oracles, d <- n.oracles | c != d && Signature(n, c) == Signature(n, d) ensures OneSourceList(n, c, d) {
      SingleConfigurationsAlike(n, c, d);
    }
  }

  /** However one provider moves, a debt within the threshold stays below its collateral. */
  ghost predicate Protected(b: Book, c: Listing, d: Listing) {
    forall provider: string, w: World, v: World, collateral: real, debt: real ::
      OnlyMoves(provider, w, v) && Priced(b, w, v, c, d)
      && collateral > 0.0 && debt >= 0.0 && Healthy(b, w, c, d, collateral, debt)
      ==> Mul(debt, Price(b, v, d).value) < Mul(collateral, Price(b, v, c).value)
  }

  /** Every row of the spoke can be computed and is inside the envelope. */
  ghost predicate SpokeClean(b: Book, s: Spoke) {
    b.SpokeOk(s) && forall row :: b.InSpoke(s, row) ==> !row.Violates()
  }

  /** The whole check on one network: load, evaluate, and look for a violating row. A clean result
      protects the lenders of every pair, on any unambiguous configuration. */
  method CheckNetwork(references: seq<Reference>, markets: seq<Market>, spokes: seq<Spoke>, includeDisabled: bool,
                      root: real -> real) returns (b: Book, clean: bool)
    requires IsRoot(root)
    ensures b.includeDisabled == includeDisabled && b.network.root == root && Names(b.marketKey, markets, includeDisabled)
    ensures Holds(b.network.oracles, Entries(references, markets, includeDisabled))
    ensures clean <==> forall s <- spokes :: SpokeClean(b, s)
    ensures clean && Unambiguous(b.network) ==>
      forall s <- spokes, c <- s.listings, d <- s.listings ::
        b.Collateral(s, c) && b.Debt(s, d) && c.threshold < BPS ==> Protected(b, c, d)
  {
    var oracles, marketKey := Load(references, markets, includeDisabled);
    b := Book(Network(oracles, root), marketKey, includeDisabled);
    var r := Evaluate(b, spokes);
    if r.Err? {
      return b, false;
    }
    for i := 0 to |r.value|
      invariant forall j :: 0 <= j < i ==> !r.value[j].Violates()
    {
      if r.value[i].Violates() {
        assert r.value[i] in r.value;
        return b, false;
      }
    }
    assert forall row <- r.value :: !row.Violates();
    if Unambiguous(b.network) {
      forall s <- spokes, c <- s.listings, d <- s.listings | b.Collateral(s, c) && b.Debt(s, d) && c.threshold < BPS
        ensures Protected(b, c, d)
      {
        PairProtected(b, r.value, s, c, d);
      }
    }
    return b, true;
  }

  lemma PairProtected(b: Book, rows: seq<Pair>, s: Spoke, c: Listing, d: Listing)
    requires b.network.Valid() && Unambiguous(b.network) && c in s.listings && d in s.listings && b.SpokeOk(s)
    requires (forall row :: b.InSpoke(s, row) ==> row in rows) && forall row <- rows :: !row.Violates()
    requires b.Collateral(s, c) && b.Debt(s, d) && c.threshold < BPS
    ensures Protected(b, c, d)
  {
    forall provider: string, w: World, v: World, collateral: real, debt: real
      | OnlyMoves(provider, w, v) && Priced(b, w, v, c, d)
        && collateral > 0.0 && debt >= 0.0 && Healthy(b, w, c, d, collateral, debt)
      ensures Mul(debt, Price(b, v, d).value) < Mul(collateral, Price(b, v, c).value)
    {
      SkippedReadAlike(b, w, c, d);
      EnvelopeCoversLenders(b, rows, s, c, d, provider, w, v, collateral, debt);
    }
  }

  lemma SkippedReadAlike(b: Book, w: World, c: Listing, d: Listing)
    requires Unambiguous(b.network) && b.Known(c) && b.Known(d) && Price(b, w, c).Ok? && Price(b, w, d).Ok?
    ensures b.Skipped(b.marketKey[c.name], b.marketKey[d.name]) ==>
      ReadAlike(b.network, w, b.marketKey[c.name], b.marketKey[d.name])
  {
    var keyC, keyD := b.marketKey[c.name], b.marketKey[d.name];
    if b.Skipped(keyC, keyD) && keyC != keyD { SameSignatureSamePrice(b.network, w, keyC, keyD); }
  }

  lemma FixedPricesCover(debt: real, collateral: real, lt: real, pc: real, pd: real)
    requires pc > 0.0 && collateral > 0.0 && lt < 1.0 && Mul(debt, pd) <= Mul(lt, Mul(collateral, pc))
    ensures Mul(debt, pd) < Mul(collateral, pc)
  {
    Positive(collateral, pc);
    Undercut(Mul(debt, pd), Mul(collateral, pc), lt);
  }

  lemma Undercut(x: real, y: real, lt: real)
    requires y > 0.0 && lt < 1.0 && x <= Mul(lt, y)
    ensures x < y
  {
    Shrink(y, lt);
  }

  /** One price for both sides: its level does not matter. */
  lemma StillCovers(debt: real, collateral: real, lt: real, p: real, q: real)
    requires p > 0.0 && q > 0.0 && collateral > 0.0 && lt < 1.0
    requires Mul(debt, p) <= Mul(lt, Mul(collateral, p))
    ensures Mul(debt, q) < Mul(collateral, q)
  {
    FixedPricesCover(debt, collateral, lt, p, p);
    FewerUnits(debt, collateral, p);
    MoreValue(debt, collateral, q);
  }

  lemma FewerUnits(a: real, b: real, p: real)
    requires p > 0.0 && Mul(a, p) < Mul(b, p)
    ensures a < b
  {
    if b <= a { Grow(p, b, a); }
  }

  lemma MoreValue(a: real, b: real, p: real)
    requires p > 0.0 && a < b
    ensures Mul(a, p) < Mul(b, p)
  {
    RaiseStrictly(a, b, p);
  }

  // ----- the skip rule needs the same configuration installed

  const TokenC := Token("C")
  const TokenD := Token("D")

  function ByContract(contract: string): Oracle {
    Oracle([Plain(Feed(contract, "price"))], 10_000, 0.1, 10.0)
  }

  function TwoHubs(root: real -> real): Book {
    var both := [ByContract("A"), ByContract("B")];
    Book(Network(map[TokenC := both, TokenD := both], root), map["c" := TokenC, "d" := TokenD], false)
  }

  const Pledged := Listing("c", true, true, false, 9_000, 8_000)
  const Borrowed := Listing("d", true, false, true, 0, 0)
  const BothListed := Spoke("1", true, [Pledged, Borrowed])

  /** Collateral reads its first configuration and debt its second; `A` reports `price`, `B` one. */
  function Reporting(price: real): World {
    World((f: Feed) => Some(if f.contract == "A" then price else 1.0), (pool: string) => 1.0,
          (k: Key) => if k == TokenC then 0 else 1)
  }

  lemma PricesThere(root: real -> real, price: real)
    requires 0.1 <= price <= 10.0
    ensures Resolve(TwoHubs(root).network, Reporting(price), TokenC, {}) == Ok(price)
    ensures Resolve(TwoHubs(root).network, Reporting(price), TokenD, {}) == Ok(1.0)
  {
    var n, w := TwoHubs(root).network, Reporting(price);
    assert ReadSource(n, w, Plain(Feed("A", "price")), {TokenC}) == Ok(price);
    assert ReadSource(n, w, Plain(Feed("B", "price")), {TokenD}) == Ok(1.0);
    assert ReadOracle(n, w, ByContract("A"), {TokenC}) == Ok(price);
    assert ReadOracle(n, w, ByContract("B"), {TokenD}) == Ok(1.0);
    assert {} + {TokenC} == {TokenC} && {} + {TokenD} == {TokenD};
  }

  /** Two keys that list the same two configurations but have different ones installed: the pair is
      skipped, no row is produced, and one provider puts a healthy position under water. */
  lemma SkipNeedsSameInstallation(root: real -> real)
    requires IsRoot(root)
    ensures var b, w, v := TwoHubs(root), Reporting(1.0), Reporting(0.5);
      && b.network.Valid() && b.SpokeOk(BothListed) && (forall row :: !b.InSpoke(BothListed, row))
      && b.Collateral(BothListed, Pledged) && b.Debt(BothListed, Borrowed) && Pledged.threshold < BPS
      && OnlyMoves("A", w, v) && Priced(b, w, v, Pledged, Borrowed)
      && Healthy(b, w, Pledged, Borrowed, 1.0, 0.9)
      && Mul(0.9, Price(b, v, Borrowed).value) > Mul(1.0, Price(b, v, Pledged).value)
  {
    var b := TwoHubs(root);
    PricesThere(root, 1.0);
    PricesThere(root, 0.5);
    assert Signature(b.network, TokenC) == Signature(b.network, TokenD);
    assert b.Skipped(TokenC, TokenD);
  }
}
