/** Per-spoke cap accounting: usage rows kept beside the accounts' scaled positions, updated leg by
    leg in a buffered context, and what they equal in every run. */
module SpokeUsage {
  import opened Numbers
  import opened Rounding
  import Scaling
  import Accrual
  import FixedPoint
  import Runs

  datatype HubAsset = HubAsset(hub: nat, asset: string)
  datatype Side = Supply | Borrow

  /** Scaled usage of one asset on one spoke. */
  datatype Row = Row(supplied: int, borrowed: int) {
    function Of(side: Side): int {
      if side == Supply then supplied else borrowed
    }

    function Set(side: Side, value: int): (r: Row)
      ensures r.Of(side) == value && forall other: Side :: other != side ==> r.Of(other) == Of(other)
    {
      if side == Supply then this.(supplied := value) else this.(borrowed := value)
    }
  }

  const EmptyRow := Row(0, 0)

  datatype Account = Account(spoke: nat, supply: map<HubAsset, int>, debt: map<HubAsset, int>) {
    function Positions(side: Side): map<HubAsset, int> {
      if side == Supply then supply else debt
    }

    function Position(side: Side, asset: HubAsset): int {
      if asset in Positions(side) then Positions(side)[asset] else 0
    }

    /** Stores a position, or removes it at zero. */
    function Put(side: Side, asset: HubAsset, scaled: int): (r: Account)
      ensures r.spoke == spoke
      ensures forall s: Side, a: HubAsset :: r.Position(s, a) == if s == side && a == asset then scaled else Position(s, a)
    {
      var next := if scaled == 0 then Positions(side) - {asset} else Positions(side)[asset := scaled];
      if side == Supply then this.(supply := next) else this.(debt := next)
    }

    ghost predicate Valid() {
      forall side: Side, a: HubAsset :: a in Positions(side) ==> Positions(side)[a] > 0
    }
  }

  datatype Cell = Cell(spoke: nat, asset: HubAsset)

  /** Usage rows loaded or written by the running call, for the one spoke it is bound to. */
  datatype Buffer = Buffer(spoke: nat, rows: map<HubAsset, Row>)

  datatype State = State(accounts: seq<Account>, store: map<Cell, Row>, buffer: Option<Buffer>) {
    function Usage(cell: Cell, side: Side): int {
      UsageIn(store, buffer, cell, side)
    }
  }

  /** The row as the running call sees it. */
  function Find(store: map<Cell, Row>, buffer: Option<Buffer>, cell: Cell): Option<Row> {
    if buffer.Some? && buffer.value.spoke == cell.spoke && cell.asset in buffer.value.rows
    then Some(buffer.value.rows[cell.asset])
    else if cell in store then Some(store[cell]) else None
  }

  function UsageIn(store: map<Cell, Row>, buffer: Option<Buffer>, cell: Cell, side: Side): int {
    var row := Find(store, buffer, cell);
    if row.Some? then row.value.Of(side) else 0
  }

  // ----- the buffered context

  function Load(store: map<Cell, Row>, b: Buffer, asset: HubAsset): Option<Row> {
    Find(store, Some(b), Cell(b.spoke, asset))
  }

  function ScaledCap(cap: int, decimals: nat, index: int): Result<int>
    requires decimals <= RAY_DECIMALS
  {
    var ray :- Scaling.FromAsset(cap, decimals);
    Accrual.SaturatingFloor(ray, RAY, index)
  }

  datatype Limit = Limit(cap: int, index: int, decimals: nat) {
    predicate Valid() {
      decimals <= RAY_DECIMALS
    }
  }

  /** A missing row counts as zero; the total may not pass the scaled cap. */
  function Enter(store: map<Cell, Row>, b: Buffer, side: Side, asset: HubAsset, delta: int, limit: Limit): Result<Buffer>
    requires limit.Valid()
  {
    var loaded := Load(store, b, asset);
    var row := if loaded.Some? then loaded.value else EmptyRow;
    var cap :- ScaledCap(limit.cap, limit.decimals, limit.index);
    var next :- Narrow(row.Of(side) + delta);
    var _ :- Require(next <= cap, CapReached);
    Ok(b.(rows := b.rows[asset := row.Set(side, next)]))
  }

  /** Zero deltas and missing rows change nothing; a negative result is a panic. */
  function Exit(store: map<Cell, Row>, b: Buffer, side: Side, asset: HubAsset, delta: int): Result<Buffer> {
    var loaded := Load(store, b, asset);
    if delta == 0 || loaded.None? then Ok(b)
    else
      var next :- Narrow(loaded.value.Of(side) - delta);
      var _ :- Require(next >= 0, InternalError);
      Ok(b.(rows := b.rows[asset := loaded.value.Set(side, next)]))
  }

  /** Writes every buffered row; a row with both sides zero is deleted. */
  function Flush(store: map<Cell, Row>, b: Buffer): map<Cell, Row> {
    map cell: Cell | cell in store.Keys + BufferedCells(b) && (cell in BufferedCells(b) ==> b.rows[cell.asset] != EmptyRow)
      :: if cell in BufferedCells(b) then b.rows[cell.asset] else store[cell]
  }

  function BufferedCells(b: Buffer): set<Cell> {
    set asset <- b.rows :: Cell(b.spoke, asset)
  }

  lemma BufferedExactly(b: Buffer)
    ensures forall cell: Cell :: cell in BufferedCells(b) <==> cell.spoke == b.spoke && cell.asset in b.rows
  {
    forall cell: Cell ensures cell in BufferedCells(b) <==> cell.spoke == b.spoke && cell.asset in b.rows {
      if cell.spoke == b.spoke { assert cell == Cell(b.spoke, cell.asset); }
    }
  }

  lemma SameRows(m: map<Cell, Row>, n: map<Cell, Row>)
    requires forall cell: Cell :: Find(m, None, cell) == Find(n, None, cell)
    ensures m == n
  {
    forall cell: Cell ensures cell in m <==> cell in n {
      assert Find(m, None, cell) == Find(n, None, cell);
    }
    assert m.Keys == n.Keys;
    forall cell <- m ensures m[cell] == n[cell] {
      assert Find(m, None, cell) == Find(n, None, cell);
    }
  }

  /** The context as the program keeps it; storage is passed in. */
  class Context {
    const spoke: nat
    var usage: map<HubAsset, Row>

    constructor (spokeId: nat)
      ensures spoke == spokeId && usage == map[]
    {
      spoke, usage := spokeId, map[];
    }

    function View(): Buffer
      reads this
    {
      Buffer(spoke, usage)
    }

    /** A stored row is cached when it is first read; an absent one is not. */
    method LoadRow(store: map<Cell, Row>, asset: HubAsset) returns (row: Option<Row>)
      modifies this
      ensures row == Load(store, old(View()), asset)
      ensures usage == if row.Some? then old(usage)[asset := row.value] else old(usage)
    {
      if asset in usage {
        return Some(usage[asset]);
      }
      if Cell(spoke, asset) !in store {
        return None;
      }
      usage := usage[asset := store[Cell(spoke, asset)]];
      return Some(usage[asset]);
    }

    method ApplyEntry(store: map<Cell, Row>, side: Side, asset: HubAsset, delta: int, limit: Limit) returns (r: Result<bool>)
      requires limit.Valid()
      modifies this
      ensures match Enter(store, old(View()), side, asset, delta, limit)
        case Err(e) => r == Err(e)
        case Ok(next) => r.Ok? && View() == next
    {
      var loaded := LoadRow(store, asset);
      var row := if loaded.Some? then loaded.value else EmptyRow;
      var cap :- ScaledCap(limit.cap, limit.decimals, limit.index);
      var next :- Narrow(row.Of(side) + delta);
      if next > cap {
        return Err(CapReached);
      }
      usage := usage[asset := row.Set(side, next)];
      return Ok(true);
    }

    method ApplyExit(store: map<Cell, Row>, side: Side, asset: HubAsset, delta: int) returns (r: Result<bool>)
      modifies this
      ensures match Exit(store, old(View()), side, asset, delta)
        case Err(e) => r == Err(e)
        case Ok(next) => r.Ok? && View() == next
    {
      if delta == 0 {
        return Ok(true);
      }
      var loaded := LoadRow(store, asset);
      if loaded.None? {
        return Ok(true);
      }
      var next :- Narrow(loaded.value.Of(side) - delta);
      if next < 0 {
        return Err(InternalError);
      }
      usage := usage[asset := loaded.value.Set(side, next)];
      return Ok(true);
    }

    /** Cleanup's loop over one side of an account. */
    method ReleaseAll(store: map<Cell, Row>, side: Side, positions: map<HubAsset, int>, order: seq<HubAsset>) returns (r: Result<bool>)
      requires forall a <- order :: a in positions
      modifies this
      ensures match Release(store, old(View()), side, positions, order)
        case Err(e) => r == Err(e)
        case Ok(next) => r.Ok? && View() == next
    {
      for i := 0 to |order|
        invariant Release(store, old(View()), side, positions, order[..i]) == Ok(View())
      {
        assert order[..i + 1][..i] == order[..i];
        ReleaseFails(store, old(View()), side, positions, order, i + 1);
        var _ :- ApplyExit(store, side, order[i], positions[order[i]]);
      }
      assert order[..|order|] == order;
      return Ok(true);
    }

    method Persist(store: map<Cell, Row>) returns (next: map<Cell, Row>)
      ensures next == Flush(store, View())
    {
      next := store;
      var left := usage.Keys;
      while left != {}
        invariant left <= usage.Keys
        invariant forall a <- left :: Find(next, None, Cell(spoke, a)) == Find(store, None, Cell(spoke, a))
        invariant forall cell: Cell :: cell.spoke != spoke || cell.asset !in usage ==> Find(next, None, cell) == Find(store, None, cell)
        invariant forall a :: a in usage.Keys - left ==>
          Find(next, None, Cell(spoke, a)) == if usage[a] == EmptyRow then None else Some(usage[a])
        decreases left
      {
        var asset :| asset in left;
        var cell := Cell(spoke, asset);
        next := if usage[asset] == EmptyRow then next - {cell} else next[cell := usage[asset]];
        left := left - {asset};
      }
      BufferedExactly(View());
      SameRows(next, Flush(store, View()));
    }
  }

  // ----- legs

  function Bind(s: State, spoke: nat): Result<Buffer> {
    match s.buffer
    case None => Ok(Buffer(spoke, map[]))
    case Some(b) => if b.spoke == spoke then Ok(b) else Err(SpokeMismatch)
  }

  function EntryLeg(s: State, id: nat, side: Side, asset: HubAsset, scaled: int, limit: Limit): Result<State>
    requires limit.Valid()
  {
    var _ :- Require(id < |s.accounts|, PositionMissing);
    var account := s.accounts[id];
    var delta :- CheckedSub(scaled, account.Position(side, asset));
    var b :- Bind(s, account.spoke);
    var next :- Enter(s.store, b, side, asset, delta, limit);
    Ok(s.(accounts := s.accounts[id := account.Put(side, asset, scaled)], buffer := Some(next)))
  }

  function ExitLeg(s: State, id: nat, side: Side, asset: HubAsset, scaled: int): Result<State> {
    var _ :- Require(id < |s.accounts| && asset in s.accounts[id].Positions(side), PositionMissing);
    var account := s.accounts[id];
    var delta :- CheckedSub(account.Position(side, asset), scaled);
    var b :- Bind(s, account.spoke);
    var next :- Exit(s.store, b, side, asset, delta);
    Ok(s.(accounts := s.accounts[id := account.Put(side, asset, scaled)], buffer := Some(next)))
  }

  datatype Shares = Shares(fee: int, net: int)

  function SplitSeized(seized: int, bonus: int, feeBps: int): (r: Result<Shares>)
    ensures r.Ok? ==> r.value.fee + r.value.net == seized && r.value.fee >= 0 && r.value.net >= 0
  {
    var _ :- Require(0 <= bonus <= seized && feeBps < BPS, InternalError);
    var fee :- FixedPoint.MulCeil(bonus, feeBps, BPS);
    var _ :- Require(0 <= fee <= seized, InternalError);
    Ok(Shares(fee, seized - fee))
  }

  /** A split succeeds for every bonus within the seizure and every rate below one; the fee is the
      rate of the bonus rounded up, and the rest is the receiver's. */
  lemma SplitSeizedExact(seized: int, bonus: int, feeBps: nat)
    requires seized <= I128_MAX
    ensures SplitSeized(seized, bonus, feeBps).Ok? <==> 0 <= bonus <= seized && feeBps < BPS
    ensures SplitSeized(seized, bonus, feeBps).Ok? ==>
      var shares := SplitSeized(seized, bonus, feeBps).value;
      && shares.net == seized - shares.fee && 0 <= shares.fee <= bonus
      && shares.fee * BPS - BPS < bonus * feeBps <= shares.fee * BPS
  {
    if 0 <= bonus <= seized && feeBps < BPS {
      MulNonNeg(bonus, feeBps);
      CeilNonNeg(bonus * feeBps, BPS);
      CeilBounds(bonus * feeBps, BPS);
      MulMono(feeBps, BPS, bonus);
      CeilLe(bonus, bonus * feeBps, BPS);
    }
  }

  /** Moves seized supply to the receiver; only the protocol's fee leaves the spoke. */
  function CreditLeg(s: State, from: nat, to: nat, asset: HubAsset, seized: int, bonus: int, feeBps: int): Result<State> {
    var _ :- Require(from < |s.accounts| && to < |s.accounts|, PositionMissing);
    var _ :- Require(from != to, SelfLiquidation);
    var account, receiver := s.accounts[from], s.accounts[to];
    var shares :- SplitSeized(seized, bonus, feeBps);
    var _ :- Require(account.spoke == receiver.spoke, SpokeMismatch);
    var _ :- Require(asset in account.supply, PositionMissing);
    var left :- CheckedSub(account.Position(Supply, asset), seized);
    var held :- Narrow(receiver.Position(Supply, asset) + shares.net);
    var b :- Bind(s, account.spoke);
    var next :- Exit(s.store, b, Supply, asset, shares.fee);
    Ok(s.(accounts := s.accounts[from := account.Put(Supply, asset, left)][to := receiver.Put(Supply, asset, held)],
          buffer := Some(next)))
  }

  /** Releases the usage of the listed positions, in order. */
  function Release(store: map<Cell, Row>, b: Buffer, side: Side, positions: map<HubAsset, int>, order: seq<HubAsset>): Result<Buffer>
    requires forall a <- order :: a in positions
  {
    if order == [] then Ok(b)
    else
      var last := order[|order| - 1];
      var before :- Release(store, b, side, positions, order[..|order| - 1]);
      Exit(store, before, side, last, positions[last])
  }

  /** Every key once. */
  ghost predicate Enumerates(order: seq<HubAsset>, keys: set<HubAsset>) {
    && (forall i, j :: 0 <= i < j < |order| ==> order[i] != order[j])
    && (forall a :: a in order <==> a in keys)
  }

  function CleanupLeg(s: State, id: nat, supplies: seq<HubAsset>, debts: seq<HubAsset>): Result<State>
    requires id < |s.accounts|
    requires forall a <- supplies :: a in s.accounts[id].supply
    requires forall a <- debts :: a in s.accounts[id].debt
  {
    var account := s.accounts[id];
    var b :- Bind(s, account.spoke);
    var released :- Release(s.store, b, Supply, account.supply, supplies);
    var cleared :- Release(s.store, released, Borrow, account.debt, debts);
    Ok(State(s.accounts[id := Account(account.spoke, map[], map[])], Flush(s.store, cleared), Some(cleared)))
  }

  /** The end of a call: buffered usage is written and the context dropped. */
  function EndCall(s: State): State {
    match s.buffer
    case None => s
    case Some(b) => s.(store := Flush(s.store, b), buffer := None)
  }

  lemma {:induction false} ReleaseFails(store: map<Cell, Row>, b: Buffer, side: Side, positions: map<HubAsset, int>, order: seq<HubAsset>, i: nat)
    requires i <= |order| && forall a <- order :: a in positions
    ensures Release(store, b, side, positions, order[..i]).Err? ==>
      Release(store, b, side, positions, order) == Release(store, b, side, positions, order[..i])
    decreases |order|
  {
    if i < |order| {
      ReleaseFails(store, b, side, positions, order[..|order| - 1], i);
      assert order[..|order| - 1][..i] == order[..i];
    } else {
      assert order[..i] == order;
    }
  }

  // ----- how usage moves

  /** From `b` to `c`, only the usage of one cell and side moves, by `delta`. */
  ghost predicate Moves(store: map<Cell, Row>, b: Buffer, c: Buffer, side: Side, asset: HubAsset, delta: int) {
    && c.spoke == b.spoke
    && forall cell, s ::
      UsageIn(store, Some(c), cell, s)
      == UsageIn(store, Some(b), cell, s) + if cell == Cell(b.spoke, asset) && s == side then delta else 0
  }

  lemma EnterMoves(store: map<Cell, Row>, b: Buffer, side: Side, asset: HubAsset, delta: int, limit: Limit)
    requires limit.Valid() && Enter(store, b, side, asset, delta, limit).Ok?
    ensures Moves(store, b, Enter(store, b, side, asset, delta, limit).value, side, asset, delta)
    ensures UsageIn(store, Some(b), Cell(b.spoke, asset), side) + delta <= I128_MAX
  {
  }

  /** An exit covered by the recorded usage always succeeds and is recorded. */
  lemma ExitMoves(store: map<Cell, Row>, b: Buffer, side: Side, asset: HubAsset, delta: int)
    requires Covered(store, b, side, asset, delta)
    ensures Exit(store, b, side, asset, delta).Ok?
    ensures Moves(store, b, Exit(store, b, side, asset, delta).value, side, asset, -delta)
  {
  }

  lemma BindKeepsAt(s: State, spoke: nat, cell: Cell, side: Side)
    requires Bind(s, spoke).Ok?
    ensures Bind(s, spoke).value.spoke == spoke
    ensures UsageIn(s.store, Some(Bind(s, spoke).value), cell, side) == s.Usage(cell, side)
  {
  }

  /** Writing the buffer out changes no usage, and leaves no empty row behind. */
  lemma FlushKeeps(store: map<Cell, Row>, b: Buffer)
    ensures forall cell, side :: UsageIn(Flush(store, b), None, cell, side) == UsageIn(store, Some(b), cell, side)
    ensures forall cell, side :: UsageIn(Flush(store, b), Some(b), cell, side) == UsageIn(store, Some(b), cell, side)
    ensures (forall cell <- store :: store[cell] != EmptyRow) ==> forall cell <- Flush(store, b) :: Flush(store, b)[cell] != EmptyRow
  {
    BufferedExactly(b);
  }

  ghost predicate Covered(store: map<Cell, Row>, b: Buffer, side: Side, asset: HubAsset, amount: int) {
    0 <= amount <= UsageIn(store, Some(b), Cell(b.spoke, asset), side) <= I128_MAX
  }

  /** From `b` to `c` the listed positions left the usage of one side, and nothing else moved. */
  ghost predicate Releases(store: map<Cell, Row>, b: Buffer, c: Buffer, side: Side, positions: map<HubAsset, int>, order: seq<HubAsset>)
    requires forall a <- order :: a in positions
  {
    && c.spoke == b.spoke
    && forall cell, s ::
      UsageIn(store, Some(c), cell, s)
      == UsageIn(store, Some(b), cell, s) - if cell.spoke == b.spoke && s == side && cell.asset in order then positions[cell.asset] else 0
  }

  lemma ReleasesNext(store: map<Cell, Row>, b: Buffer, c: Buffer, d: Buffer, side: Side, positions: map<HubAsset, int>,
                     rest: seq<HubAsset>, last: HubAsset)
    requires (forall a <- rest :: a in positions) && last in positions && last !in rest
    requires Releases(store, b, c, side, positions, rest) && Moves(store, c, d, side, last, -positions[last])
    ensures Releases(store, b, d, side, positions, rest + [last])
  {
    forall cell, s
      ensures UsageIn(store, Some(d), cell, s) == UsageIn(store, Some(b), cell, s)
        - if cell.spoke == b.spoke && s == side && cell.asset in rest + [last] then positions[cell.asset] else 0
    {
      assert cell.asset in rest + [last] <==> cell.asset in rest || cell.asset == last;
    }
  }

  /** Releasing distinct covered positions succeeds and takes each of them down once. */
  lemma {:induction false} ReleaseMoves(store: map<Cell, Row>, b: Buffer, side: Side, positions: map<HubAsset, int>, order: seq<HubAsset>)
    requires forall i, j :: 0 <= i < j < |order| ==> order[i] != order[j]
    requires forall a <- order :: a in positions && Covered(store, b, side, a, positions[a])
    ensures Release(store, b, side, positions, order).Ok?
    ensures Releases(store, b, Release(store, b, side, positions, order).value, side, positions, order)
  {
    if order != [] {
      var last, rest := order[|order| - 1], order[..|order| - 1];
      assert order == rest + [last] && last in order;
      ReleaseMoves(store, b, side, positions, rest);
      assert last !in rest;
      var c := Release(store, b, side, positions, rest).value;
      StillCovered(store, b, c, side, positions, rest, last);
      ExitMoves(store, c, side, last, positions[last]);
      ReleasesNext(store, b, c, Exit(store, c, side, last, positions[last]).value, side, positions, rest, last);
    }
  }

  lemma StillCovered(store: map<Cell, Row>, b: Buffer, c: Buffer, side: Side, positions: map<HubAsset, int>, rest: seq<HubAsset>, last: HubAsset)
    requires (forall a <- rest :: a in positions) && last in positions && last !in rest
    requires Releases(store, b, c, side, positions, rest) && Covered(store, b, side, last, positions[last])
    ensures Covered(store, c, side, last, positions[last])
  {
    assert UsageIn(store, Some(c), Cell(b.spoke, last), side) == UsageIn(store, Some(b), Cell(b.spoke, last), side);
  }

  // ----- sums over the accounts of a spoke

  function Part(a: Account, cell: Cell, side: Side): int {
    if a.spoke == cell.spoke then a.Position(side, cell.asset) else 0
  }

  /** Scaled positions in one asset over all accounts of a spoke. */
  function Sum(accounts: seq<Account>, cell: Cell, side: Side): int {
    if accounts == [] then 0
    else Sum(accounts[..|accounts| - 1], cell, side) + Part(accounts[|accounts| - 1], cell, side)
  }

  lemma {:induction false} SumUpdate(accounts: seq<Account>, i: nat, a: Account, cell: Cell, side: Side)
    requires i < |accounts|
    ensures Sum(accounts[i := a], cell, side)
         == Sum(accounts, cell, side) - Part(accounts[i], cell, side) + Part(a, cell, side)
  {
    var n := |accounts| - 1;
    if i < n {
      SumUpdate(accounts[..n], i, a, cell, side);
      assert accounts[i := a][..n] == accounts[..n][i := a];
    } else {
      assert accounts[i := a][..n] == accounts[..n];
    }
  }

  ghost predicate AllValid(accounts: seq<Account>) {
    forall i :: 0 <= i < |accounts| ==> accounts[i].Valid()
  }

  lemma {:induction false} SumCovers(accounts: seq<Account>, i: nat, cell: Cell, side: Side)
    requires i < |accounts| && AllValid(accounts)
    ensures 0 <= Part(accounts[i], cell, side) <= Sum(accounts, cell, side)
    decreases |accounts|
  {
    var n := |accounts| - 1;
    SumNonNeg(accounts[..n], cell, side);
    assert accounts[n].Valid();
    if i < n { SumCovers(accounts[..n], i, cell, side); }
  }

  lemma {:induction false} SumNonNeg(accounts: seq<Account>, cell: Cell, side: Side)
    requires AllValid(accounts)
    ensures 0 <= Sum(accounts, cell, side)
  {
    if accounts != [] {
      var n := |accounts| - 1;
      assert accounts[n].Valid();
      SumNonNeg(accounts[..n], cell, side);
    }
  }

  // ----- reconciliation

  /** Every usage row is the sum of the positions it stands for. */
  ghost predicate Reconciled(s: State) {
    && AllValid(s.accounts)
    && (forall cell, side :: s.Usage(cell, side) == Sum(s.accounts, cell, side) <= I128_MAX)
    && (forall cell <- s.store :: s.store[cell] != EmptyRow)
  }

  /** One account's position and the usage move together. */
  lemma LegKeeps(s: State, id: nat, side: Side, asset: HubAsset, scaled: int, c: Buffer)
    requires Reconciled(s) && id < |s.accounts| && scaled >= 0
    requires Bind(s, s.accounts[id].spoke).Ok?
    requires var delta := scaled - s.accounts[id].Position(side, asset);
      && Moves(s.store, Bind(s, s.accounts[id].spoke).value, c, side, asset, delta)
      && s.Usage(Cell(s.accounts[id].spoke, asset), side) + delta <= I128_MAX
    ensures Reconciled(s.(accounts := s.accounts[id := s.accounts[id].Put(side, asset, scaled)], buffer := Some(c)))
  {
    var account := s.accounts[id];
    var next := account.Put(side, asset, scaled);
    var t := s.(accounts := s.accounts[id := next], buffer := Some(c));
    PutValid(account, side, asset, scaled);
    forall cell, other ensures t.Usage(cell, other) == Sum(t.accounts, cell, other) <= I128_MAX {
      assert s.Usage(cell, other) == Sum(s.accounts, cell, other) <= I128_MAX;
      BindKeepsAt(s, account.spoke, cell, other);
      SumUpdate(s.accounts, id, next, cell, other);
    }
  }

  lemma PutValid(a: Account, side: Side, asset: HubAsset, scaled: int)
    requires a.Valid() && scaled >= 0
    ensures a.Put(side, asset, scaled).Valid()
  {
    var r := a.Put(side, asset, scaled);
    forall s: Side, x: HubAsset | x in r.Positions(s) ensures r.Positions(s)[x] > 0 {
      if s != side || x != asset { assert x in a.Positions(s); }
    }
  }

  /** An entry is admitted exactly while the whole usage, at the index, is within the cap in asset units. */
  lemma EntryAdmittedWithinCap(store: map<Cell, Row>, b: Buffer, side: Side, asset: HubAsset, delta: int, limit: Limit)
    requires limit.Valid() && limit.index > 0 && Scaling.FromAsset(limit.cap, limit.decimals).Ok?
    requires 0 <= UsageIn(store, Some(b), Cell(b.spoke, asset), side) + delta <= I128_MAX
    ensures var total := UsageIn(store, Some(b), Cell(b.spoke, asset), side) + delta;
      Enter(store, b, side, asset, delta, limit).Ok? <==>
      total * limit.index <= limit.cap * Scaling.Scale(limit.decimals) * RAY
  {
    var total := UsageIn(store, Some(b), Cell(b.spoke, asset), side) + delta;
    FloorGe(total, limit.cap * Scaling.Scale(limit.decimals) * RAY, limit.index);
  }

  lemma EntryKeeps(s: State, id: nat, side: Side, asset: HubAsset, scaled: int, limit: Limit)
    requires Reconciled(s) && limit.Valid() && EntryLeg(s, id, side, asset, scaled, limit).Ok?
    ensures Reconciled(EntryLeg(s, id, side, asset, scaled, limit).value)
  {
    var account := s.accounts[id];
    var b, delta := Bind(s, account.spoke).value, scaled - account.Position(side, asset);
    BindKeepsAt(s, account.spoke, Cell(account.spoke, asset), side);
    EnterMoves(s.store, b, side, asset, delta, limit);
    LegKeeps(s, id, side, asset, scaled, Enter(s.store, b, side, asset, delta, limit).value);
  }

  /** What an account holds is covered by the usage its context sees. */
  lemma HoldingCovered(s: State, id: nat, side: Side, asset: HubAsset, amount: int)
    requires Reconciled(s) && id < |s.accounts| && 0 <= amount <= s.accounts[id].Position(side, asset)
    requires Bind(s, s.accounts[id].spoke).Ok?
    ensures Bind(s, s.accounts[id].spoke).value.spoke == s.accounts[id].spoke
    ensures Covered(s.store, Bind(s, s.accounts[id].spoke).value, side, asset, amount)
    ensures s.accounts[id].Position(side, asset) <= s.Usage(Cell(s.accounts[id].spoke, asset), side) <= I128_MAX
  {
    var cell := Cell(s.accounts[id].spoke, asset);
    BindKeepsAt(s, cell.spoke, cell, side);
    SumCovers(s.accounts, id, cell, side);
    assert s.Usage(cell, side) == Sum(s.accounts, cell, side) <= I128_MAX;
  }

  /** While a position exists its row does too, and no reduction of it can fail or go unrecorded. */
  lemma ExitKeeps(s: State, id: nat, side: Side, asset: HubAsset, scaled: int)
    requires Reconciled(s) && id < |s.accounts| && asset in s.accounts[id].Positions(side)
    requires 0 <= scaled <= s.accounts[id].Position(side, asset) && Bind(s, s.accounts[id].spoke).Ok?
    ensures Find(s.store, s.buffer, Cell(s.accounts[id].spoke, asset)).Some?
    ensures ExitLeg(s, id, side, asset, scaled).Ok? && Reconciled(ExitLeg(s, id, side, asset, scaled).value)
  {
    var account := s.accounts[id];
    var b, delta := Bind(s, account.spoke).value, account.Position(side, asset) - scaled;
    assert account.Valid();
    HoldingCovered(s, id, side, asset, delta);
    ExitMoves(s.store, b, side, asset, delta);
    LegKeeps(s, id, side, asset, scaled, Exit(s.store, b, side, asset, delta).value);
  }

  lemma SumCoversTwo(accounts: seq<Account>, i: nat, j: nat, cell: Cell, side: Side)
    requires i < |accounts| && j < |accounts| && i != j && AllValid(accounts)
    ensures Part(accounts[i], cell, side) + Part(accounts[j], cell, side) <= Sum(accounts, cell, side)
  {
    var rest := accounts[i := Account(accounts[i].spoke, map[], map[])];
    SumUpdate(accounts, i, rest[i], cell, side);
    SumCovers(rest, j, cell, side);
  }

  lemma ReceiverFits(s: State, from: nat, to: nat, asset: HubAsset, net: int)
    requires Reconciled(s) && from < |s.accounts| && to < |s.accounts| && from != to
    requires s.accounts[from].spoke == s.accounts[to].spoke && 0 <= net <= s.accounts[from].Position(Supply, asset)
    ensures 0 <= s.accounts[to].Position(Supply, asset) + net <= I128_MAX
  {
    var cell := Cell(s.accounts[from].spoke, asset);
    assert s.accounts[to].Valid();
    SumCoversTwo(s.accounts, from, to, cell, Supply);
    assert s.Usage(cell, Supply) == Sum(s.accounts, cell, Supply) <= I128_MAX;
  }

  /** A credit seizure that splits and fits the position never fails on usage or on the receiver. */
  lemma CreditKeeps(s: State, from: nat, to: nat, asset: HubAsset, seized: int, bonus: int, feeBps: int)
    requires Reconciled(s) && from < |s.accounts| && to < |s.accounts| && from != to
    requires s.accounts[from].spoke == s.accounts[to].spoke && Bind(s, s.accounts[from].spoke).Ok?
    requires asset in s.accounts[from].supply && seized <= s.accounts[from].supply[asset]
    requires SplitSeized(seized, bonus, feeBps).Ok?
    ensures CreditLeg(s, from, to, asset, seized, bonus, feeBps).Ok?
    ensures Reconciled(CreditLeg(s, from, to, asset, seized, bonus, feeBps).value)
  {
    var account, receiver, shares := s.accounts[from], s.accounts[to], SplitSeized(seized, bonus, feeBps).value;
    var b := Bind(s, account.spoke).value;
    HoldingCovered(s, from, Supply, asset, shares.fee);
    ReceiverFits(s, from, to, asset, shares.net);
    ExitMoves(s.store, b, Supply, asset, shares.fee);
    CreditReconciles(s, from, to, asset, seized, shares.net, Exit(s.store, b, Supply, asset, shares.fee).value);
  }

  lemma CreditReconciles(s: State, from: nat, to: nat, asset: HubAsset, seized: int, net: int, c: Buffer)
    requires Reconciled(s) && from < |s.accounts| && to < |s.accounts| && from != to
    requires s.accounts[from].spoke == s.accounts[to].spoke && Bind(s, s.accounts[from].spoke).Ok?
    requires 0 <= net <= seized <= s.accounts[from].Position(Supply, asset)
    requires Moves(s.store, Bind(s, s.accounts[from].spoke).value, c, Supply, asset, net - seized)
    ensures var left := s.accounts[from].Position(Supply, asset) - seized;
      var held := s.accounts[to].Position(Supply, asset) + net;
      Reconciled(State(s.accounts[from := s.accounts[from].Put(Supply, asset, left)]
                                 [to := s.accounts[to].Put(Supply, asset, held)], s.store, Some(c)))
  {
    var account, receiver := s.accounts[from], s.accounts[to];
    assert account.Valid() && receiver.Valid();
    var left, held := account.Position(Supply, asset) - seized, receiver.Position(Supply, asset) + net;
    var paid, credited := account.Put(Supply, asset, left), receiver.Put(Supply, asset, held);
    var half := s.accounts[from := paid];
    var t := State(half[to := credited], s.store, Some(c));
    PutValid(account, Supply, asset, left);
    PutValid(receiver, Supply, asset, held);
    forall cell, side ensures t.Usage(cell, side) == Sum(t.accounts, cell, side) <= I128_MAX {
      assert s.Usage(cell, side) == Sum(s.accounts, cell, side) <= I128_MAX;
      BindKeepsAt(s, account.spoke, cell, side);
      TwoUpdates(s.accounts, from, paid, to, credited, cell, side);
      PartAfterPut(account, asset, left, cell, side);
      PartAfterPut(receiver, asset, held, cell, side);
    }
  }

  lemma TwoUpdates(accounts: seq<Account>, i: nat, a: Account, j: nat, b: Account, cell: Cell, side: Side)
    requires i < |accounts| && j < |accounts| && i != j
    ensures Sum(accounts[i := a][j := b], cell, side)
         == Sum(accounts, cell, side) - Part(accounts[i], cell, side) + Part(a, cell, side)
            - Part(accounts[j], cell, side) + Part(b, cell, side)
  {
    SumUpdate(accounts, i, a, cell, side);
    SumUpdate(accounts[i := a], j, b, cell, side);
  }

  lemma PartAfterPut(a: Account, asset: HubAsset, scaled: int, cell: Cell, side: Side)
    ensures Part(a.Put(Supply, asset, scaled), cell, side)
         == if cell == Cell(a.spoke, asset) && side == Supply then scaled else Part(a, cell, side)
  {
  }

  /** Cleanup takes every position of the account out of usage, never fails, and leaves exactly what
      the other accounts contribute. */
  lemma CleanupKeeps(s: State, id: nat, supplies: seq<HubAsset>, debts: seq<HubAsset>)
    requires Reconciled(s) && id < |s.accounts| && Bind(s, s.accounts[id].spoke).Ok?
    requires Enumerates(supplies, s.accounts[id].supply.Keys) && Enumerates(debts, s.accounts[id].debt.Keys)
    ensures CleanupLeg(s, id, supplies, debts).Ok?
    ensures Reconciled(CleanupLeg(s, id, supplies, debts).value)
  {
    var account := s.accounts[id];
    var b := Bind(s, account.spoke).value;
    assert account.Valid();
    forall a <- supplies ensures Covered(s.store, b, Supply, a, account.supply[a]) {
      assert a in account.Positions(Supply);
      HoldingCovered(s, id, Supply, a, account.supply[a]);
    }
    ReleaseMoves(s.store, b, Supply, account.supply, supplies);
    var released := Release(s.store, b, Supply, account.supply, supplies).value;
    forall a <- debts ensures Covered(s.store, released, Borrow, a, account.debt[a]) {
      assert a in account.Positions(Borrow);
      HoldingCovered(s, id, Borrow, a, account.debt[a]);
      assert UsageIn(s.store, Some(released), Cell(b.spoke, a), Borrow) == UsageIn(s.store, Some(b), Cell(b.spoke, a), Borrow);
    }
    ReleaseMoves(s.store, released, Borrow, account.debt, debts);
    BothSidesReleased(s, id, b, released, Release(s.store, released, Borrow, account.debt, debts).value, supplies, debts);
    CleanupReconciles(s, id, Release(s.store, released, Borrow, account.debt, debts).value);
  }

  lemma BothSidesReleased(s: State, id: nat, b: Buffer, c: Buffer, d: Buffer, supplies: seq<HubAsset>, debts: seq<HubAsset>)
    requires id < |s.accounts| && Bind(s, s.accounts[id].spoke) == Ok(b)
    requires Enumerates(supplies, s.accounts[id].supply.Keys) && Enumerates(debts, s.accounts[id].debt.Keys)
    requires Releases(s.store, b, c, Supply, s.accounts[id].supply, supplies)
    requires Releases(s.store, c, d, Borrow, s.accounts[id].debt, debts)
    ensures d.spoke == s.accounts[id].spoke
    ensures forall cell, side ::
      UsageIn(s.store, Some(d), cell, side) == s.Usage(cell, side) - Part(s.accounts[id], cell, side)
  {
    forall cell, side ensures UsageIn(s.store, Some(d), cell, side) == s.Usage(cell, side) - Part(s.accounts[id], cell, side) {
      BindKeepsAt(s, s.accounts[id].spoke, cell, side);
    }
  }

  lemma CleanupReconciles(s: State, id: nat, c: Buffer)
    requires Reconciled(s) && id < |s.accounts| && c.spoke == s.accounts[id].spoke
    requires forall cell, side ::
      UsageIn(s.store, Some(c), cell, side) == s.Usage(cell, side) - Part(s.accounts[id], cell, side)
    ensures var gone := Account(s.accounts[id].spoke, map[], map[]);
      Reconciled(State(s.accounts[id := gone], Flush(s.store, c), Some(c)))
  {
    var gone := Account(s.accounts[id].spoke, map[], map[]);
    var t := State(s.accounts[id := gone], Flush(s.store, c), Some(c));
    FlushKeeps(s.store, c);
    assert s.accounts[id].Valid();
    forall cell, side ensures t.Usage(cell, side) == Sum(t.accounts, cell, side) <= I128_MAX {
      SumUpdate(s.accounts, id, gone, cell, side);
      assert s.Usage(cell, side) == Sum(s.accounts, cell, side) <= I128_MAX;
    }
  }

  lemma EndCallKeeps(s: State)
    requires Reconciled(s)
    ensures Reconciled(EndCall(s))
  {
    if s.buffer.Some? {
      FlushKeeps(s.store, s.buffer.value);
      var t := EndCall(s);
      forall cell, side ensures t.Usage(cell, side) == Sum(t.accounts, cell, side) <= I128_MAX {
        assert s.Usage(cell, side) == Sum(s.accounts, cell, side) <= I128_MAX;
      }
    }
  }

  // ----- runs

  datatype Op =
    | Open(spoke: nat)
    | Entry(id: nat, side: Side, asset: HubAsset, scaled: int, limit: Limit)
    | Reduce(id: nat, side: Side, asset: HubAsset, scaled: int)
    | Credit(from: nat, to: nat, asset: HubAsset, seized: int, bonus: int, feeBps: int)
    | Cleanup(id: nat, supplies: seq<HubAsset>, debts: seq<HubAsset>)
    | End

  ghost function Apply(s: State, op: Op): Result<State> {
    match op
    case Open(spoke) => Ok(s.(accounts := s.accounts + [Account(spoke, map[], map[])]))
    case Entry(id, side, asset, scaled, limit) =>
      if limit.Valid() then EntryLeg(s, id, side, asset, scaled, limit) else Err(MathOverflow)
    case Reduce(id, side, asset, scaled) => ExitLeg(s, id, side, asset, scaled)
    case Credit(from, to, asset, seized, bonus, feeBps) => CreditLeg(s, from, to, asset, seized, bonus, feeBps)
    case Cleanup(id, supplies, debts) =>
      if id < |s.accounts| && Enumerates(supplies, s.accounts[id].supply.Keys) && Enumerates(debts, s.accounts[id].debt.Keys)
      then CleanupLeg(s, id, supplies, debts) else Err(PositionMissing)
    case End => Ok(EndCall(s))
  }

  lemma OpenKeeps(s: State, spoke: nat)
    requires Reconciled(s)
    ensures Reconciled(s.(accounts := s.accounts + [Account(spoke, map[], map[])]))
  {
    var t := s.(accounts := s.accounts + [Account(spoke, map[], map[])]);
    assert t.accounts[..|s.accounts|] == s.accounts;
    forall cell, side ensures t.Usage(cell, side) == Sum(t.accounts, cell, side) <= I128_MAX {
      assert s.Usage(cell, side) == Sum(s.accounts, cell, side) <= I128_MAX;
    }
  }

  lemma ApplyKeeps(s: State, op: Op)
    requires Reconciled(s) && Apply(s, op).Ok?
    ensures Reconciled(Apply(s, op).value)
  {
    match op
    case Open(spoke) => OpenKeeps(s, spoke);
    case Entry(id, side, asset, scaled, limit) => EntryKeeps(s, id, side, asset, scaled, limit);
    case Reduce(id, side, asset, scaled) => ExitKeeps(s, id, side, asset, scaled);
    case Credit(from, to, asset, seized, bonus, feeBps) => CreditKeeps(s, from, to, asset, seized, bonus, feeBps);
    case Cleanup(id, supplies, debts) => CleanupKeeps(s, id, supplies, debts);
    case End => EndCallKeeps(s);
  }

  ghost function Step(): (State, Op) -> Result<State> { (s: State, op: Op) => Apply(s, op) }
  ghost function Always(): (State, Op) -> bool { (s: State, op: Op) => true }
  ghost function Sound(): State -> bool { (s: State) => Reconciled(s) }
  ghost function Nothing(): State -> int { (s: State) => 0 }
  ghost function Free(): (State, Op) -> int { (s: State, op: Op) => 0 }

  const Start := State([], map[], None)

  /** In every run from an empty deployment each usage row equals the sum of the scaled positions
      over all accounts of its spoke. */
  lemma EveryRunReconciles(ops: seq<Op>)
    requires Runs.Run(Step(), Start, ops).Ok?
    ensures Reconciled(Runs.Run(Step(), Start, ops).value)
  {
    forall s: State, op: Op | Reconciled(s) && Step()(s, op).Ok? ensures Reconciled(Step()(s, op).value) {
      ApplyKeeps(s, op);
    }
    Runs.AlwaysSteady(Step(), Always(), Start, ops);
    Runs.RunKeeps(Step(), Always(), Sound(), Nothing(), Free(), Start, ops);
  }

  lemma {:induction false} SomePart(accounts: seq<Account>, cell: Cell, side: Side) returns (i: nat)
    requires AllValid(accounts) && Sum(accounts, cell, side) > 0
    ensures i < |accounts| && accounts[i].spoke == cell.spoke && cell.asset in accounts[i].Positions(side)
  {
    var n := |accounts| - 1;
    if Part(accounts[n], cell, side) > 0 {
      i := n;
    } else {
      i := SomePart(accounts[..n], cell, side);
    }
  }

  /** Between calls a row is stored exactly while some account of the spoke holds the asset, so a
      listing can be removed exactly when nobody holds it. */
  lemma RowExactlyWhileHeld(s: State, cell: Cell)
    requires Reconciled(s) && s.buffer.None?
    ensures cell in s.store <==> exists i: nat, side: Side ::
      i < |s.accounts| && s.accounts[i].spoke == cell.spoke && cell.asset in s.accounts[i].Positions(side)
  {
    if cell in s.store {
      var side := if s.store[cell].supplied != 0 then Supply else Borrow;
      assert s.Usage(cell, side) == Sum(s.accounts, cell, side);
      SumNonNeg(s.accounts, cell, side);
      var i := SomePart(s.accounts, cell, side);
    }
    forall i: nat, side: Side
      | i < |s.accounts| && s.accounts[i].spoke == cell.spoke && cell.asset in s.accounts[i].Positions(side)
      ensures cell in s.store
    {
      assert s.accounts[i].Valid();
      SumCovers(s.accounts, i, cell, side);
      assert s.Usage(cell, side) == Sum(s.accounts, cell, side);
    }
  }
}
