/** Exact rational rounding, defined without reference to how any program computes it,
    and the inequalities the other models are built on. */
module Rounding {

  /** Largest integer not above `n / d`. */
  function Floor(n: int, d: int): int
    requires d != 0
  {
    if d > 0 then n / d else (-n) / (-d)
  }

  /** Smallest integer not below `n / d`. */
  function Ceil(n: int, d: int): int
    requires d != 0
  {
    -Floor(-n, d)
  }

  /** Integer nearest to `n / d`, exact halves rounding up. */
  function HalfUp(n: int, d: int): int
    requires d > 0
  {
    Floor(2 * n + d, 2 * d)
  }

  lemma MulMono(x: int, y: int, z: int)
    requires x <= y && 0 <= z
    ensures x * z <= y * z && z * x <= z * y
  {
  }

  lemma MulNonNeg(x: int, y: int)
    requires 0 <= x && 0 <= y
    ensures 0 <= x * y
  {
  }

  lemma SquareNonNeg(x: int)
    ensures 0 <= x * x
  {
  }

  /** The division bounds, in the form every later proof uses. */
  lemma FloorBounds(n: int, d: int)
    requires d > 0
    ensures Floor(n, d) * d <= n < Floor(n, d) * d + d
  {
    assert n == d * (n / d) + n % d;
  }

  lemma CeilBounds(n: int, d: int)
    requires d > 0
    ensures Ceil(n, d) * d - d < n <= Ceil(n, d) * d
  {
    FloorBounds(-n, d);
  }

  lemma HalfUpBounds(n: int, d: int)
    requires d > 0
    ensures 2 * HalfUp(n, d) * d - d <= 2 * n < 2 * HalfUp(n, d) * d + d
  {
    FloorBounds(2 * n + d, 2 * d);
    var q := HalfUp(n, d);
    assert q * (2 * d) == 2 * q * d;
  }

  /** Cancelling a positive factor from a strict inequality. */
  lemma CancelLt(x: int, y: int, d: int)
    requires d > 0 && x * d < y * d
    ensures x < y
  {
    if x >= y { MulMono(y, x, d); }
  }

  lemma CancelLe(x: int, y: int, d: int)
    requires d > 0 && x * d <= y * d
    ensures x <= y
  {
    if x > y { MulMono(y + 1, x, d); }
  }

  /** Adjoint characterisation of floor: `q` is below the floor exactly when `q * d` is below `n`. */
  lemma FloorGe(q: int, n: int, d: int)
    requires d > 0
    ensures q <= Floor(n, d) <==> q * d <= n
  {
    FloorBounds(n, d);
    var f := Floor(n, d);
    if q <= f {
      MulMono(q, f, d);
    } else {
      MulMono(f + 1, q, d);
      assert (f + 1) * d == f * d + d;
    }
  }

  lemma CeilLe(q: int, n: int, d: int)
    requires d > 0
    ensures Ceil(n, d) <= q <==> n <= q * d
  {
    FloorGe(-q, -n, d);
    assert (-q) * d == -(q * d);
  }

  /** Half-up stays below `q` exactly while `n / d` is below `q + 1/2`. */
  lemma HalfUpLe(q: int, n: int, d: int)
    requires d > 0
    ensures HalfUp(n, d) <= q <==> 2 * n < 2 * q * d + d
  {
    FloorGe(q + 1, 2 * n + d, 2 * d);
    assert (q + 1) * (2 * d) == 2 * q * d + 2 * d;
  }

  lemma HalfUpGe(q: int, n: int, d: int)
    requires d > 0
    ensures q <= HalfUp(n, d) <==> 2 * q * d <= 2 * n + d
  {
    FloorGe(q, 2 * n + d, 2 * d);
    assert q * (2 * d) == 2 * q * d;
  }

  lemma FloorUnique(q: int, n: int, d: int)
    requires d > 0 && q * d <= n < q * d + d
    ensures q == Floor(n, d)
  {
    FloorGe(q, n, d);
    FloorGe(q + 1, n, d);
    assert (q + 1) * d == q * d + d;
  }

  lemma CeilUnique(q: int, n: int, d: int)
    requires d > 0 && q * d - d < n <= q * d
    ensures q == Ceil(n, d)
  {
    assert (-q) * d == -(q * d);
    FloorUnique(-q, -n, d);
  }

  lemma HalfUpUnique(q: int, n: int, d: int)
    requires d > 0 && 2 * q * d - d <= 2 * n < 2 * q * d + d
    ensures q == HalfUp(n, d)
  {
    HalfUpGe(q, n, d);
    HalfUpLe(q, n, d);
  }

  lemma FloorMono(m: int, n: int, d: int)
    requires d > 0 && m <= n
    ensures Floor(m, d) <= Floor(n, d)
  {
    FloorBounds(m, d);
    FloorGe(Floor(m, d), n, d);
  }

  lemma CeilMono(m: int, n: int, d: int)
    requires d > 0 && m <= n
    ensures Ceil(m, d) <= Ceil(n, d)
  {
    FloorMono(-n, -m, d);
  }

  lemma HalfUpMono(m: int, n: int, d: int)
    requires d > 0 && m <= n
    ensures HalfUp(m, d) <= HalfUp(n, d)
  {
    FloorMono(2 * m + d, 2 * n + d, 2 * d);
  }

  lemma FloorNonNeg(n: int, d: int)
    requires d > 0 && n >= 0
    ensures Floor(n, d) >= 0 && HalfUp(n, d) >= 0
  {
    FloorGe(0, n, d);
    HalfUpGe(0, n, d);
  }

  lemma CeilNonNeg(n: int, d: int)
    requires d > 0 && n >= 0
    ensures Ceil(n, d) >= 0
  {
    CeilBounds(n, d);
    if Ceil(n, d) <= -1 { MulMono(Ceil(n, d), -1, d); }
  }

  /** Two nested floors collapse into one division by the product. */
  lemma FloorFloor(n: int, d: int, k: int)
    requires d > 0 && k > 0
    ensures d * k > 0 && Floor(Floor(n, d), k) == Floor(n, d * k)
  {
    MulMono(1, k, d);
    var f, q := Floor(n, d), Floor(Floor(n, d), k);
    FloorBounds(f, k);
    FloorGe(q * k, n, d);
    FloorGe(q * k + k, n, d);
    assert q * k * d == q * (d * k) && (q * k + k) * d == q * (d * k) + d * k;
    FloorUnique(q, n, d * k);
  }

  lemma CeilCeil(n: int, d: int, k: int)
    requires d > 0 && k > 0
    ensures d * k > 0 && Ceil(Ceil(n, d), k) == Ceil(n, d * k)
  {
    FloorFloor(-n, d, k);
  }

  /** Splitting one floored conversion in two loses at most one unit and never gains. */
  lemma FloorSplit(m: int, n: int, d: int)
    requires d > 0
    ensures Floor(m + n, d) - 1 <= Floor(m, d) + Floor(n, d) <= Floor(m + n, d)
  {
    FloorBounds(m, d); FloorBounds(n, d);
    var f, g := Floor(m, d), Floor(n, d);
    assert (f + g) * d == f * d + g * d;
    FloorGe(f + g, m + n, d);
    FloorGe(f + g + 2, m + n, d);
    assert (f + g + 2) * d == f * d + g * d + 2 * d;
  }

  lemma CeilSplit(m: int, n: int, d: int)
    requires d > 0
    ensures Ceil(m + n, d) <= Ceil(m, d) + Ceil(n, d) <= Ceil(m + n, d) + 1
  {
    FloorSplit(-m, -n, d);
  }

  /** Half-up moves by at most one either way. */
  lemma HalfUpSplit(m: int, n: int, d: int)
    requires d > 0
    ensures HalfUp(m + n, d) - 1 <= HalfUp(m, d) + HalfUp(n, d) <= HalfUp(m + n, d) + 1
  {
    HalfUpBounds(m, d); HalfUpBounds(n, d);
    var f, g := HalfUp(m, d), HalfUp(n, d);
    HalfUpLe(f + g + 1, m + n, d);
    HalfUpGe(f + g - 1, m + n, d);
    assert 2 * (f + g + 1) * d == 2 * f * d + 2 * g * d + 2 * d;
    assert 2 * (f + g - 1) * d == 2 * f * d + 2 * g * d - 2 * d;
  }

  // ----- splitting into any number of parts

  function Total(xs: seq<int>): int {
    if xs == [] then 0 else Total(xs[..|xs| - 1]) + xs[|xs| - 1]
  }

  /** The sum of `f` over the parts. */
  ghost function SumOf(xs: seq<int>, f: int -> int): int {
    if xs == [] then 0 else SumOf(xs[..|xs| - 1], f) + f(xs[|xs| - 1])
  }

  /** `n` floored conversions fall short of one conversion of the total by at most `n - 1`. */
  lemma {:induction false} FloorManyParts(xs: seq<int>, b: int, d: int)
    requires d > 0 && |xs| >= 1
    ensures Floor(Total(xs) * b, d) - (|xs| - 1) <= SumOf(xs, x => if d != 0 then Floor(x * b, d) else 0) <= Floor(Total(xs) * b, d)
  {
    var last, rest := xs[|xs| - 1], xs[..|xs| - 1];
    if |xs| > 1 {
      FloorManyParts(rest, b, d);
      assert (Total(rest) + last) * b == Total(rest) * b + last * b;
      FloorSplit(Total(rest) * b, last * b, d);
    }
  }

  lemma {:induction false} CeilManyParts(xs: seq<int>, b: int, d: int)
    requires d > 0 && |xs| >= 1
    ensures Ceil(Total(xs) * b, d) <= SumOf(xs, x => if d != 0 then Ceil(x * b, d) else 0) <= Ceil(Total(xs) * b, d) + (|xs| - 1)
  {
    var last, rest := xs[|xs| - 1], xs[..|xs| - 1];
    if |xs| > 1 {
      CeilManyParts(rest, b, d);
      assert (Total(rest) + last) * b == Total(rest) * b + last * b;
      CeilSplit(Total(rest) * b, last * b, d);
    }
  }

  lemma {:induction false} HalfUpManyParts(xs: seq<int>, b: int, d: int)
    requires d > 0 && |xs| >= 1
    ensures HalfUp(Total(xs) * b, d) - (|xs| - 1) <= SumOf(xs, x => if d > 0 then HalfUp(x * b, d) else 0)
         <= HalfUp(Total(xs) * b, d) + (|xs| - 1)
  {
    var last, rest := xs[|xs| - 1], xs[..|xs| - 1];
    if |xs| > 1 {
      HalfUpManyParts(rest, b, d);
      assert (Total(rest) + last) * b == Total(rest) * b + last * b;
      HalfUpSplit(Total(rest) * b, last * b, d);
    }
  }
}
