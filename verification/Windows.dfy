/** The borrow index over any number of accrual windows, against one window of their whole exponent. */
module Windows {
  import opened Numbers
  import opened Rounding
  import opened Exponential
  import opened Compound
  import opened Accrual
  import Ledger

  /** The rate in force during a window, per millisecond, and its length. */
  datatype Window = Window(rate: int, deltaMs: nat)

  function Exponent(windows: seq<Window>): int {
    if windows == [] then 0 else windows[0].rate * windows[0].deltaMs + Exponent(windows[1..])
  }

  function Charge(index: int, window: Window): Result<int> {
    var factor :- CompoundSpec(window.rate, window.deltaMs);
    UpdateBorrowIndex(index, factor)
  }

  /** The borrow index after the windows, each compounded onto the last. */
  function Grown(index: int, windows: seq<Window>): Result<int>
    decreases |windows|
  {
    if windows == [] then Ok(index)
    else
      var next :- Charge(index, windows[0]);
      Grown(next, windows[1..])
  }

  ghost predicate Charging(windows: seq<Window>) {
    && (forall i :: 0 <= i < |windows| ==> windows[i].rate >= 0)
    && Exponent(windows) <= 2 * RAY
  }

  lemma {:induction false} ExponentNonNeg(windows: seq<Window>)
    requires forall i :: 0 <= i < |windows| ==> windows[i].rate >= 0
    ensures Exponent(windows) >= 0
  {
    if windows != [] {
      ExponentNonNeg(windows[1..]);
      MulNonNeg(windows[0].rate, windows[0].deltaMs);
    }
  }

  // ----- one window

  /** `grown` compounds `index` by `f`, of which `s` is the exact series: at most a relative five and a
      half raw units are lost. All terms are scaled by `u`. */
  lemma WindowScalars(index: int, grown: int, f: int, s: int, u: int, r: int)
    requires u > 0 && r > 0 && index >= 0 && s >= u * r && s - 5 * u <= f * u && 2 * (index * f) <= 2 * r * grown + r
    ensures 2 * (r - 5) * (index * s) - r * (r * u) <= (2 * r * r * u) * grown
  {
    MulNonNeg(r, index);
    MulNonNeg(r, u);
    MulMono(s - 5 * u, f * u, r * index);
    MulMono(5 * (u * r), 5 * s, index);
    MulMono(2 * (index * f), 2 * r * grown + r, r * u);
    WindowIdentities(index, grown, f, s, u, r);
    WindowSum(r * (index * s), index * s, index * (5 * (u * r)), r * ((index * f) * u), (2 * r * r * u) * grown, r * (r * u), r);
  }

  lemma WindowSum(rs: int, s: int, five: int, f: int, g: int, unit: int, r: int)
    requires rs == r * s && five <= 5 * s && rs - five <= f && 2 * f <= g + unit
    ensures 2 * (r - 5) * s - unit <= g
  {
    assert 2 * (r - 5) * s == 2 * rs - 10 * s;
  }

  lemma WindowIdentities(index: int, grown: int, f: int, s: int, u: int, r: int)
    ensures (r * index) * (s - 5 * u) == r * (index * s) - index * (5 * (u * r))
    ensures (r * index) * (f * u) == r * ((index * f) * u) && (r * u) * (2 * (index * f)) == 2 * r * ((index * f) * u)
    ensures (r * u) * (2 * r * grown + r) == (2 * r * r * u) * grown + r * (r * u)
    ensures index * (5 * s) == 5 * (index * s)
  {
  }

  /** The relative loss `e` of `2 RAY` grows by eleven halves: `a` and `a'` are the exact values before
      and after. */
  lemma LossScalars(index: int, grown: int, s: int, u: int, m: int, a: int, a': int, e: int, r: int)
    requires u > 0 && r > 5 && s >= 0 && m == 2 * r * r * u && 0 < e <= 2 * r
    requires a * e <= m * index && (u * r) * a' <= a * s && r * (r * u) <= a'
    requires 2 * (r - 5) * (index * s) - r * (r * u) <= m * grown
    ensures a' * (e - 11) <= m * grown
  {
    MulMono(a * e, m * index, s);
    MulMono((u * r) * a', a * s, e);
    LossIdentities(index, s, u, m, a, a', e, r);
    MulMono(1, u, r);
    CancelLe(a' * e, 2 * r * (index * s), u * r);
    MulNonNeg(r, r * u);
    LossFinish(index * s, m * grown, r * (r * u), a', e, r);
  }

  lemma LossIdentities(index: int, s: int, u: int, m: int, a: int, a': int, e: int, r: int)
    requires m == 2 * r * r * u
    ensures (a * e) * s == e * (a * s) && (m * index) * s == (2 * r * (index * s)) * (u * r)
    ensures e * ((u * r) * a') == (a' * e) * (u * r)
  {
  }

  lemma LossFinish(t: int, g: int, unit: int, a: int, e: int, r: int)
    requires r > 5 && a >= 0 && 0 < e <= 2 * r && a * e <= 2 * r * t && unit <= a && 2 * (r - 5) * t - unit <= g
    ensures a * (e - 11) <= g
  {
    MulMono(e, 2 * r, a);
    MulMono(a * e, 2 * r * t, r - 5);
    MulMono(2 * (r - 5) * t - unit, g, r);
    MulMono(unit, a, r);
    FinishIdentities(t, unit, a, e, r);
    CancelLe(a * (e - 11), g, r);
  }

  lemma FinishIdentities(t: int, unit: int, a: int, e: int, r: int)
    ensures (r - 5) * (2 * r * t) == r * (2 * (r - 5) * t) && r * (2 * (r - 5) * t - unit) == r * (2 * (r - 5) * t) - r * unit
    ensures (r - 5) * (a * e) == r * (a * e) - 5 * (a * e) && a * (2 * r) == 2 * (r * a)
    ensures (a * (e - 11)) * r == r * (a * e) - 11 * (r * a)
  {
  }

  // ----- all windows

  /** The index is at its cap, or short of `index` times the exact series by eleven halves of a relative
      raw unit per window. */
  predicate Near(index: int, grown: int, exact: int, n: nat) {
    grown == MAX_INDEX_RAY || (index * exact) * (2 * RAY - 11 * n) <= (2 * RAY * RAY * UNIT) * grown
  }

  lemma UpdateInRange(index: int, factor: int)
    requires RAY <= index <= MAX_INDEX_RAY && RAY <= factor && 10 * factor < 74 * RAY
    ensures UpdateBorrowIndex(index, factor).Ok?
    ensures var next := UpdateBorrowIndex(index, factor).value;
      index <= next <= MAX_INDEX_RAY && (next == MAX_INDEX_RAY || 2 * (index * factor) <= 2 * RAY * next + RAY)
  {
    MulNonNeg(index, factor);
    FloorNonNeg(index * factor, RAY);
    MulMono(10 * factor, 74 * RAY, index);
    HalfUpLe(8 * index, index * factor, RAY);
    HalfUpBounds(index * factor, RAY);
    BorrowIndexGrows(index, factor);
  }

  /** One more window in scaled terms: `s`, `t` and `v` are the exact series before, of the window and after. */
  lemma NearAcross(index: int, before: int, next: int, f: int, s: int, t: int, v: int, u: int, r: int, n: nat)
    requires 5 < r <= index && 0 < u && 0 <= before && 0 <= next && u * r <= s && u * r <= t && u * r <= v && (u * r) * v <= s * t
    requires (index * s) * (2 * r - 11 * n) <= (2 * r * r * u) * before
    requires t - 5 * u <= f * u && 2 * (before * f) <= 2 * r * next + r
    ensures (index * v) * (2 * r - 11 * (n + 1)) <= (2 * r * r * u) * next
  {
    var e, m := 2 * r - 11 * n, 2 * r * r * u;
    ExactGrows(index, v, u, r);
    if e <= 0 {
      SpentLoss(index * v, next, u, r, e - 11);
    } else {
      MulMono((u * r) * v, s * t, index);
      SeriesRegroup(index, s, t, v, u * r);
      WindowScalars(before, next, f, t, u, r);
      MulNonNeg(u, r);
      LossScalars(before, next, t, u, m, index * s, index * v, e, r);
    }
  }

  lemma ExactGrows(index: int, v: int, u: int, r: int)
    requires 0 < r <= index && 0 < u && u * r <= v
    ensures r * (r * u) <= index * v && 0 <= index * v
  {
    MulNonNeg(u, r);
    MulMono(r, index, v);
    MulMono(u * r, v, r);
    MulNonNeg(r, r * u);
    assert (u * r) * r == r * (r * u);
  }

  lemma SpentLoss(a: int, next: int, u: int, r: int, e: int)
    requires 0 <= a && 0 <= next && 0 < u && 0 < r && e <= 0
    ensures a * e <= (2 * r * r * u) * next
  {
    MulMono(e, 0, a);
    MulNonNeg(2 * r, r);
    MulNonNeg(2 * r * r, u);
    MulNonNeg(2 * r * r * u, next);
  }

  lemma SeriesRegroup(index: int, s: int, t: int, v: int, c: int)
    ensures index * (c * v) == c * (index * v) && index * (s * t) == (index * s) * t
  {
  }

  lemma SeriesFacts(x: int, z: int)
    requires 0 <= x && 0 <= z
    ensures 0 < UNIT && UNIT * RAY <= Series(x) && UNIT * RAY <= Series(z) && UNIT * RAY <= Series(x + z)
    ensures (UNIT * RAY) * Series(x + z) <= Series(x) * Series(z)
  {
    PowerNonNeg(RAY, 7);
    SeriesOfSum(x, z);
    SeriesLower(x); SeriesLower(z); SeriesLower(x + z);
  }

  lemma OneMore(index: int, before: int, x: int, window: Window, n: nat)
    requires RAY <= index <= before <= MAX_INDEX_RAY && 0 <= x && 0 <= window.rate * window.deltaMs <= 2 * RAY
    requires Near(index, before, Series(x), n)
    ensures var r := Charge(before, window);
      r.Ok? && before <= r.value <= MAX_INDEX_RAY && Near(index, r.value, Series(x + window.rate * window.deltaMs), n + 1)
  {
    CompoundError(window.rate, window.deltaMs);
    CompoundRange(window.rate, window.deltaMs);
    var f := CompoundSpec(window.rate, window.deltaMs).value;
    UpdateInRange(before, f);
    var next := UpdateBorrowIndex(before, f).value;
    if next != MAX_INDEX_RAY {
      var z := window.rate * window.deltaMs;
      SeriesFacts(x, z);
      NearAcross(index, before, next, f, Series(x), Series(z), Series(x + z), UNIT, RAY, n);
    }
  }

  lemma NearAtStart(index: int)
    ensures Near(index, index, Series(0), 0)
  {
    SeriesAtZero();
    StartIdentity(index, UNIT, RAY);
  }

  lemma StartIdentity(index: int, u: int, r: int)
    ensures (index * (u * r)) * (2 * r - 11 * 0) == (2 * r * r * u) * index
  {
  }

  /** From an index `before` that is near after `n` windows, through the rest, to the exponent `end`. */
  lemma {:induction false} GrownStaysNear(index: int, before: int, x: int, n: nat, windows: seq<Window>, end: int, all: nat)
    requires RAY <= index <= before <= MAX_INDEX_RAY && 0 <= x && Near(index, before, Series(x), n)
    requires forall i :: 0 <= i < |windows| ==> windows[i].rate >= 0
    requires end == x + Exponent(windows) && end <= 2 * RAY && all == n + |windows|
    ensures Grown(before, windows).Ok? && before <= Grown(before, windows).value <= MAX_INDEX_RAY
    ensures Near(index, Grown(before, windows).value, Series(end), all)
    decreases |windows|
  {
    if windows != [] {
      var z, next, rest := windows[0].rate * windows[0].deltaMs, Charge(before, windows[0]), windows[1..];
      MulNonNeg(windows[0].rate, windows[0].deltaMs);
      ExponentNonNeg(rest);
      OneMore(index, before, x, windows[0], n);
      GrownStaysNear(index, next.value, x + z, n + 1, rest, end, all);
    }
  }

  lemma SeriesAtZero()
    ensures Series(0) == UNIT * RAY
  {
    RatioValues();
  }

  /** `grown` is at the cap, or charges `factor` on `index` less 41 raw units of it per window and 5. */
  predicate Charged(index: int, grown: int, factor: int, n: int) {
    grown == MAX_INDEX_RAY || index * (factor - 41 * n - 5) <= RAY * grown
  }

  /** However an interval is cut into windows, and whatever rate holds in each, the index is at its cap
      or charges at least what one window of the whole exponent does, less 41 raw units of the factor
      per window and 5. */
  lemma WindowsNeverUndercharge(index: int, windows: seq<Window>, whole: Window)
    requires RAY <= index <= MAX_INDEX_RAY && Charging(windows)
    requires whole.rate * whole.deltaMs == Exponent(windows)
    ensures Grown(index, windows).Ok? && CompoundSpec(whole.rate, whole.deltaMs).Ok?
    ensures Charged(index, Grown(index, windows).value, CompoundSpec(whole.rate, whole.deltaMs).value, |windows|)
  {
    ExponentNonNeg(windows);
    NearAtStart(index);
    GrownStaysNear(index, index, 0, 0, windows, Exponent(windows), |windows|);
    AgainstWhole(index, Grown(index, windows).value, whole, |windows|);
  }

  lemma AgainstWhole(index: int, grown: int, whole: Window, n: nat)
    requires RAY <= index <= grown && 0 <= whole.rate * whole.deltaMs <= 2 * RAY
    requires Near(index, grown, Series(whole.rate * whole.deltaMs), n)
    ensures CompoundSpec(whole.rate, whole.deltaMs).Ok?
    ensures Charged(index, grown, CompoundSpec(whole.rate, whole.deltaMs).value, n)
  {
    CompoundError(whole.rate, whole.deltaMs);
    CompoundRange(whole.rate, whole.deltaMs);
    PowerNonNeg(RAY, 7);
    if grown != MAX_INDEX_RAY {
      WholeScalars(index, grown, CompoundSpec(whole.rate, whole.deltaMs).value, Series(whole.rate * whole.deltaMs), UNIT, n, RAY);
    }
  }

  lemma WholeScalars(index: int, grown: int, h: int, v: int, u: int, n: nat, r: int)
    requires u > 0 && r > 0 && 0 < index && 0 <= grown && r <= h && 10 * h < 74 * r && h * u - 5 * u <= v
    requires (index * v) * (2 * r - 11 * n) <= (2 * r * r * u) * grown
    ensures index * (h - 41 * n - 5) <= r * grown
  {
    var e := 2 * r - 11 * n;
    if e <= 0 {
      MulMono(h - 41 * n - 5, 0, index);
    } else {
      FactorLoss(h, n, r);
      MulNonNeg(index, e);
      MulMono(h * u - 5 * u, v, index * e);
      MulMono(2 * r * (h - 41 * n - 5), (h - 5) * e, index * u) by { MulNonNeg(index, u); }
      WholeIdentities(index, grown, h, v, u, e, h - 41 * n - 5, r);
      MulMono(1, u, r);
      assert 2 * r * u == 2 * (u * r);
      CancelLe(index * (h - 41 * n - 5), r * grown, 2 * r * u);
    }
  }

  lemma FactorLoss(h: int, n: nat, r: int)
    requires r > 0 && 10 * h < 74 * r
    ensures 2 * r * (h - 41 * n - 5) <= (h - 5) * (2 * r - 11 * n)
  {
    MulMono(10 * h, 74 * r, n);
    MulNonNeg(r, n);
    assert (h - 5) * (2 * r - 11 * n) == 2 * r * (h - 5) - 11 * (h * n) + 55 * n;
    assert 2 * r * (h - 41 * n - 5) == 2 * r * (h - 5) - 82 * (r * n);
  }

  lemma WholeIdentities(index: int, grown: int, h: int, v: int, u: int, e: int, k: int, r: int)
    ensures (index * e) * (h * u - 5 * u) == (index * u) * ((h - 5) * e)
    ensures (index * e) * v == (index * v) * e
    ensures (index * u) * (2 * r * k) == (index * k) * (2 * r * u)
    ensures (2 * r * r * u) * grown == (r * grown) * (2 * r * u)
  {
  }

  // ----- the windows of a sync

  /** The windows a sync accrues, each at the rate quoted for the market the last one left. */
  function Quoted(p: Ledger.Params, curve: Ledger.State -> Result<int>, s: Ledger.State, elapsed: nat): seq<Window>
    requires Ledger.Sync(p, curve, s, elapsed).Ok?
    decreases elapsed
  {
    if elapsed == 0 then []
    else
      var window := Ledger.NextWindow(elapsed);
      [Window(curve(s).value, window)] + Quoted(p, curve, Ledger.AccrueWindow(p, curve, s, window).value, elapsed - window)
  }

  lemma WindowUpdates(p: Ledger.Params, curve: Ledger.State -> Result<int>, s: Ledger.State, window: nat)
    requires Ledger.AccrueWindow(p, curve, s, window).Ok?
    ensures curve(s).Ok?
    ensures Charge(s.borrowIndex, Window(curve(s).value, window))
         == Ok(Ledger.AccrueWindow(p, curve, s, window).value.borrowIndex)
  {
  }

  lemma {:induction false} SyncGrows(p: Ledger.Params, curve: Ledger.State -> Result<int>, s: Ledger.State, elapsed: nat)
    requires Ledger.Sync(p, curve, s, elapsed).Ok?
    ensures Grown(s.borrowIndex, Quoted(p, curve, s, elapsed)) == Ok(Ledger.Sync(p, curve, s, elapsed).value.borrowIndex)
    decreases elapsed
  {
    if elapsed > 0 {
      var window := Ledger.NextWindow(elapsed);
      var next := Ledger.AccrueWindow(p, curve, s, window).value;
      WindowUpdates(p, curve, s, window);
      SyncGrows(p, curve, next, elapsed - window);
      assert Quoted(p, curve, s, elapsed)[1..] == Quoted(p, curve, next, elapsed - window);
    }
  }

  lemma {:induction false} SyncWindows(p: Ledger.Params, curve: Ledger.State -> Result<int>, s: Ledger.State, elapsed: nat)
    requires Ledger.Sync(p, curve, s, elapsed).Ok?
    ensures |Quoted(p, curve, s, elapsed)| == Ceil(elapsed, Ledger.MAX_COMPOUND_DELTA_MS)
    decreases elapsed
  {
    if elapsed > 0 {
      var window := Ledger.NextWindow(elapsed);
      SyncWindows(p, curve, Ledger.AccrueWindow(p, curve, s, window).value, elapsed - window);
      Ledger.OneWindowLess(elapsed);
    }
  }

  /** A sync over any gap leaves the borrow index at its cap, or no lower than one window of the summed
      exponent would, less 41 raw units of the factor per started window and 5. */
  lemma SyncNeverUndercharges(p: Ledger.Params, curve: Ledger.State -> Result<int>, s: Ledger.State, elapsed: nat, whole: Window)
    requires s.Valid() && Ledger.Sync(p, curve, s, elapsed).Ok? && Charging(Quoted(p, curve, s, elapsed))
    requires whole.rate * whole.deltaMs == Exponent(Quoted(p, curve, s, elapsed))
    ensures CompoundSpec(whole.rate, whole.deltaMs).Ok?
    ensures Charged(s.borrowIndex, Ledger.Sync(p, curve, s, elapsed).value.borrowIndex,
                    CompoundSpec(whole.rate, whole.deltaMs).value, Ceil(elapsed, Ledger.MAX_COMPOUND_DELTA_MS))
  {
    SyncGrows(p, curve, s, elapsed);
    SyncWindows(p, curve, s, elapsed);
    WindowsNeverUndercharge(s.borrowIndex, Quoted(p, curve, s, elapsed), whole);
  }
}
