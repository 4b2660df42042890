/** Model of the raw `i128` primitives: `x * y / d` on a native fast path with a 256-bit
    fallback, and rescaling between decimal precisions.

    The members below follow the program branch by branch. Each is then shown equal to exact
    rational rounding, so the other modules use the short `MulFloor`, `MulCeil`, ... forms. */
module FixedPoint {
  import opened Numbers
  import opened Rounding

  // ----- exact forms: round the rational, then ask whether it fits

  function MulFloor(x: int, y: int, d: int): Result<int> {
    if d == 0 then Err(DivisionByZero) else Narrow(Floor(x * y, d))
  }

  function MulCeil(x: int, y: int, d: int): Result<int> {
    if d == 0 then Err(DivisionByZero) else Narrow(Ceil(x * y, d))
  }

  function MulHalfUp(x: int, y: int, d: int): Result<int> {
    if d == 0 then Err(DivisionByZero)
    else if x < 0 || y < 0 || d < 0 then Err(MathOverflow)
    else Narrow(HalfUp(x * y, d))
  }

  /** Nearest multiple, exact halves away from zero. */
  function Nearest(a: int, b: int): int
    requires b > 0
  {
    if a >= 0 then HalfUp(a, b) else -HalfUp(-a, b)
  }

  /** Quotient truncated toward zero. */
  function Trunc(p: int, d: int): int
    requires d != 0
  {
    if (p < 0) == (d < 0) then Floor(p, d) else Ceil(p, d)
  }

  // ----- host integer operations

  function Abs(x: int): nat {
    if x < 0 then -x else x
  }

  /** Division of the machine integers: divide magnitudes, then apply the sign. */
  function MachineDiv(p: int, d: int): int
    requires d != 0
  {
    if (p < 0) == (d < 0) then Abs(p) / Abs(d) else -(Abs(p) / Abs(d))
  }

  function MachineRem(p: int, d: int): int
    requires d != 0
  {
    p - MachineDiv(p, d) * d
  }

  /** The remainder in `[0, |d|)`. */
  function RemEuclid(p: int, d: int): int
    requires d != 0
  {
    p % Abs(d)
  }

  function CheckedI128(x: int): (r: Option<i128>)
    ensures r == if FitsI128(x) then Some(x) else None
  {
    if FitsI128(x) then Some(x) else None
  }

  function CheckedDiv(p: i128, d: i128): Option<i128> {
    if d == 0 then None else CheckedI128(MachineDiv(p, d))
  }

  /** The 256-bit product of the fallback path. It never leaves `i256`, so the host cannot trap. */
  function WideProduct(x: i128, y: i128): (p: i256)
    ensures p == x * y && Abs(p) <= (I128_MAX + 1) * (I128_MAX + 1)
  {
    ProductMagnitude(x, y);
    x * y
  }

  lemma ProductMagnitude(x: int, y: int)
    requires Abs(x) <= I128_MAX + 1 && Abs(y) <= I128_MAX + 1
    ensures Abs(x * y) <= (I128_MAX + 1) * (I128_MAX + 1)
  {
    MulMono(Abs(x), I128_MAX + 1, Abs(y));
    assert Abs(x * y) == Abs(x) * Abs(y);
  }

  lemma QuotientShrinks(p: int, d: int)
    requires p >= 0 && d > 0
    ensures 0 <= MachineDiv(p, d) <= p
  {
    FloorGe(0, p, d);
    FloorGe(p + 1, p, d);
    MulMono(1, d, p + 1);
  }

  /** `10^n` where it fits `i128`. */
  function CheckedPow10(n: nat): Option<i128> {
    CheckedI128(Pow10(n))
  }

  // ----- the program's primitives

  predicate QuotientIsNegative(x: int, y: int, d: int) {
    if x == 0 || y == 0 then false else ((x < 0) != (y < 0)) != (d < 0)
  }

  function DivFloorI128(p: i128, d: i128): Option<i128> {
    var quotient := CheckedDiv(p, d);
    if quotient.None? then None
    else if MachineRem(p, d) != 0 && ((p < 0) != (d < 0)) then CheckedI128(quotient.value - 1)
    else quotient
  }

  function DivCeilI128(p: i128, d: i128): Option<i128> {
    var quotient := CheckedDiv(p, d);
    if quotient.None? then None
    else if MachineRem(p, d) != 0 && ((p < 0) == (d < 0)) then CheckedI128(quotient.value + 1)
    else quotient
  }

  /** `nonneg` is the caller's promise that the quotient is not negative. */
  function DivFloorWide(p: i256, d: i128, nonneg: bool): int
    requires d != 0
  {
    var quotient := MachineDiv(p, d);
    if nonneg then quotient
    else if RemEuclid(p, d) != 0 && ((p < 0) != (d < 0)) then quotient - 1
    else quotient
  }

  function DivCeilWide(p: i256, d: i128, nonneg: bool): int
    requires d != 0
  {
    var quotient := MachineDiv(p, d);
    var remainderIsNonzero := RemEuclid(p, d) != 0;
    var roundUp := if nonneg then remainderIsNonzero else remainderIsNonzero && ((p < 0) == (d < 0));
    if roundUp then quotient + 1 else quotient
  }

  function MulDivFloor(x: i128, y: i128, d: i128): Result<int> {
    if d == 0 then Err(DivisionByZero)
    else
      var product := CheckedI128(x * y);
      var native := if product.Some? then DivFloorI128(product.value, d) else None;
      if native.Some? then Ok(native.value)
      else Narrow(DivFloorWide(WideProduct(x, y), d, !QuotientIsNegative(x, y, d)))
  }

  function MulDivCeil(x: i128, y: i128, d: i128): Result<int> {
    if d == 0 then Err(DivisionByZero)
    else
      var product := CheckedI128(x * y);
      var native := if product.Some? then DivCeilI128(product.value, d) else None;
      if native.Some? then Ok(native.value)
      else Narrow(DivCeilWide(WideProduct(x, y), d, !QuotientIsNegative(x, y, d)))
  }

  function MulDivFloorSaturating(x: i128, y: i128, d: i128): Result<int> {
    if d == 0 then Err(DivisionByZero)
    else
      var product := CheckedI128(x * y);
      var native := if product.Some? then DivFloorI128(product.value, d) else None;
      if native.Some? then Ok(native.value)
      else
        var wide := DivFloorWide(WideProduct(x, y), d, !QuotientIsNegative(x, y, d));
        if FitsI128(wide) then Ok(wide)
        else if QuotientIsNegative(x, y, d) then Ok(I128_MIN)
        else Ok(I128_MAX)
  }

  function TryMulDivHalfUp(x: i128, y: i128, d: i128): Option<i128> {
    if x < 0 || y < 0 || d <= 0 then None
    else
      var half := MachineDiv(d, 2);
      var product := CheckedI128(x * y);
      var biased := if product.Some? then CheckedI128(product.value + half) else None;
      if biased.Some? then
        MulNonNeg(x, y);
        QuotientShrinks(biased.value, d);
        Some(MachineDiv(biased.value, d))
      else
        var sum: i256 := WideProduct(x, y) + half;
        CheckedI128(MachineDiv(sum, d))
  }

  function MulDivHalfUp(x: i128, y: i128, d: i128): Result<int> {
    if d == 0 then Err(DivisionByZero)
    else match TryMulDivHalfUp(x, y, d)
      case Some(q) => Ok(q)
      case None => Err(MathOverflow)
  }

  function DivByIntHalfUp(a: i128, b: i128): Result<int> {
    if b == 0 then Err(DivisionByZero)
    else if b < 0 then Err(MathOverflow)
    else
      var quotient, remainder := MachineDiv(a, b), MachineRem(a, b);
      var half := MachineDiv(b, 2) + MachineRem(b, 2);
      if remainder >= half then Ok(quotient + 1)
      else if remainder <= -half then Ok(quotient - 1)
      else Ok(quotient)
  }

  /** How a downscale divides: the program passes one of three roundings. */
  datatype Mode = ToNearest | TowardZero | Upward

  function RescaleBy(a: i128, factor: Option<i128>, mode: Mode): Result<int>
    requires factor.Some? ==> factor.value > 0
  {
    match mode
    case ToNearest => if factor.None? then Ok(0) else DivByIntHalfUp(a, factor.value)
    case TowardZero => if factor.None? then Ok(0) else Ok(MachineDiv(a, factor.value))
    case Upward =>
      if factor.None? then Ok(if a > 0 then 1 else 0)
      else
        var quotient := MachineDiv(a, factor.value);
        Ok(if a >= 0 && MachineRem(a, factor.value) != 0 then quotient + 1 else quotient)
  }

  function Rescale(a: i128, fromDecimals: nat, toDecimals: nat, mode: Mode): Result<int> {
    if fromDecimals == toDecimals then Ok(a)
    else if toDecimals > fromDecimals then
      var factor := CheckedPow10(toDecimals - fromDecimals);
      if factor.None? then Err(MathOverflow) else Narrow(a * factor.value)
    else
      RescaleBy(a, CheckedPow10(fromDecimals - toDecimals), mode)
  }

  // ----- exactness

  /** What "floor of the rational `n / d`" means for a divisor of either sign. */
  ghost predicate IsFloor(q: int, n: int, d: int) {
    if d > 0 then q * d <= n < (q + 1) * d else q * d >= n > (q + 1) * d
  }

  lemma FloorIsFloor(n: int, d: int)
    requires d != 0
    ensures IsFloor(Floor(n, d), n, d)
    ensures forall q :: IsFloor(q, n, d) ==> q == Floor(n, d)
  {
    if d > 0 { FloorBounds(n, d); } else { FloorBounds(-n, -d); }
    forall q | IsFloor(q, n, d) ensures q == Floor(n, d) {
      if d > 0 {
        assert (q + 1) * d == q * d + d;
        FloorUnique(q, n, d);
      } else {
        assert (q + 1) * d == q * d + d && q * -d == -(q * d);
        FloorUnique(q, -n, -d);
      }
    }
  }

  /** Machine division truncates; the signs and the remainder say where floor and ceiling lie. */
  lemma MachineDivRounds(p: int, d: int)
    requires d != 0
    ensures MachineDiv(p, d) == Trunc(p, d)
    ensures MachineRem(p, d) != 0 <==> RemEuclid(p, d) != 0
    ensures Ceil(p, d) == if RemEuclid(p, d) != 0 then Floor(p, d) + 1 else Floor(p, d)
  {
    if d > 0 {
      PositiveDivisorRounds(p, d);
    } else {
      PositiveDivisorRounds(-p, -d);
      FloorBounds(p, -d);
      FloorBounds(-p, -d);
      var m := MachineDiv(p, d);
      assert m * -d == -(m * d);
      NegateRemainder(p, -d);
    }
  }

  lemma PositiveDivisorRounds(p: int, d: int)
    requires d > 0
    ensures MachineDiv(p, d) == Trunc(p, d)
    ensures MachineRem(p, d) != 0 <==> p % d != 0
    ensures Ceil(p, d) == if p % d != 0 then Floor(p, d) + 1 else Floor(p, d)
  {
    var f := Floor(p, d);
    assert p == f * d + p % d;
    if p % d == 0 { CeilUnique(f, p, d); } else {
      assert (f + 1) * d == f * d + d;
      CeilUnique(f + 1, p, d);
    }
    if p < 0 {
      var c := Ceil(p, d);
      assert MachineDiv(p, d) == c;
      assert p % d != 0 ==> c * d == f * d + d;
    }
  }

  lemma NegateRemainder(p: int, b: int)
    requires b > 0
    ensures (-p) % b != 0 <==> p % b != 0
  {
    var f := Floor(p, b);
    var r := p % b;
    assert p == f * b + r;
    if r == 0 {
      assert (-f) * b == -(f * b);
      QuotientAndRemainder(-p, b, -f, 0);
    } else {
      assert (-f - 1) * b == -(f * b) - b;
      QuotientAndRemainder(-p, b, -f - 1, b - r);
    }
  }

  lemma QuotientAndRemainder(n: int, d: int, q: int, r: int)
    requires 0 <= r < d && n == q * d + r
    ensures n / d == q && n % d == r
  {
    FloorUnique(q, n, d);
    assert n == (n / d) * d + n % d;
  }

  lemma SignOfQuotient(x: int, y: int, d: int)
    requires d != 0
    ensures QuotientIsNegative(x, y, d) <==> x * y != 0 && (x * y < 0) != (d < 0)
  {
    if x > 0 && y > 0 { MulMono(1, x, y); }
    if x < 0 && y < 0 { MulMono(1, -x, -y); }
    if x > 0 && y < 0 { MulMono(1, x, -y); }
    if x < 0 && y > 0 { MulMono(1, -x, y); }
  }

  lemma DivFloorExact(p: i256, d: i128, nonneg: bool)
    requires d != 0
    requires nonneg ==> p == 0 || (p < 0) == (d < 0)
    ensures DivFloorWide(p, d, nonneg) == Floor(p, d)
    ensures FitsI128(p) && DivFloorI128(p, d).Some? ==> DivFloorI128(p, d).value == Floor(p, d)
  {
    MachineDivRounds(p, d);
  }

  lemma DivCeilExact(p: i256, d: i128, nonneg: bool)
    requires d != 0
    requires nonneg ==> p == 0 || (p < 0) == (d < 0)
    ensures DivCeilWide(p, d, nonneg) == Ceil(p, d)
    ensures FitsI128(p) && DivCeilI128(p, d).Some? ==> DivCeilI128(p, d).value == Ceil(p, d)
  {
    MachineDivRounds(p, d);
  }

  /** Native and widened path return the exact floor; the call fails exactly on a zero divisor
      or a floor outside `i128`. */
  lemma MulDivFloorExact(x: i128, y: i128, d: i128)
    ensures MulDivFloor(x, y, d) == MulFloor(x, y, d)
  {
    if d != 0 {
      SignOfQuotient(x, y, d);
      DivFloorExact(WideProduct(x, y), d, !QuotientIsNegative(x, y, d));
    }
  }

  lemma MulDivCeilExact(x: i128, y: i128, d: i128)
    ensures MulDivCeil(x, y, d) == MulCeil(x, y, d)
  {
    if d != 0 {
      SignOfQuotient(x, y, d);
      DivCeilExact(WideProduct(x, y), d, !QuotientIsNegative(x, y, d));
    }
  }

  /** The saturating form is the exact floor clamped into `i128`. */
  lemma SaturatingClamps(x: i128, y: i128, d: i128)
    ensures d != 0 ==>
      MulDivFloorSaturating(x, y, d) == Ok(Max(I128_MIN, Min(I128_MAX, Floor(x * y, d))))
    ensures d == 0 ==> MulDivFloorSaturating(x, y, d) == Err(DivisionByZero)
  {
    if d != 0 {
      SignOfQuotient(x, y, d);
      DivFloorExact(WideProduct(x, y), d, !QuotientIsNegative(x, y, d));
      FloorIsFloor(x * y, d);
      var q := Floor(x * y, d);
      if q >= 0 { MulNonNeg(q, Abs(d)); } else { MulMono(q, -1, Abs(d)); }
    }
  }

  lemma BiasedDivIsHalfUp(n: int, d: int)
    requires d > 0
    ensures Floor(n + d / 2, d) == HalfUp(n, d)
  {
    var q := Floor(n + d / 2, d);
    FloorBounds(n + d / 2, d);
    HalfUpUnique(q, n, d);
  }

  /** On its domain half-up is the nearest integer, and it fails exactly off that domain or
      outside `i128`. */
  lemma MulDivHalfUpExact(x: i128, y: i128, d: i128)
    ensures MulDivHalfUp(x, y, d) == MulHalfUp(x, y, d)
    ensures TryMulDivHalfUp(x, y, d).Some? <==> MulHalfUp(x, y, d).Ok?
  {
    if x >= 0 && y >= 0 && d > 0 {
      MulNonNeg(x, y);
      BiasedDivIsHalfUp(x * y, d);
    }
  }

  lemma DivByIntExact(a: i128, b: i128)
    ensures b > 0 ==> DivByIntHalfUp(a, b) == Ok(Nearest(a, b))
    ensures b <= 0 ==> DivByIntHalfUp(a, b).Err?
  {
    if b > 0 {
      var m := Abs(a);
      var q := m / b;
      NearestFromRemainder(m, b, q);
      var half := MachineDiv(b, 2) + MachineRem(b, 2);
      assert half == b / 2 + b % 2;
      FloorBounds(m, b);
      DivByIntBySign(a, b, m, q, half);
    }
  }

  lemma DivByIntBySign(a: i128, b: i128, m: int, q: int, half: int)
    requires b > 0 && m == Abs(a) && q == m / b && half == MachineDiv(b, 2) + MachineRem(b, 2) && half > 0
    requires 0 <= m - q * b
    requires HalfUp(m, b) == if m - q * b >= half then q + 1 else q
    ensures DivByIntHalfUp(a, b) == Ok(Nearest(a, b))
  {
    MachineBySign(a, b, m, q);
  }

  lemma MachineBySign(a: int, b: int, m: int, q: int)
    requires b > 0 && m == Abs(a) && q == m / b
    ensures a >= 0 ==> MachineDiv(a, b) == q && MachineRem(a, b) == m - q * b
    ensures a < 0 ==> MachineDiv(a, b) == -q && MachineRem(a, b) == -(m - q * b)
  {
    assert (-q) * b == -(q * b);
  }

  lemma NearestFromRemainder(m: int, b: int, q: int)
    requires b > 0 && q == m / b
    ensures HalfUp(m, b) == if m - q * b >= b / 2 + b % 2 then q + 1 else q
  {
    assert m == q * b + m % b;
    if m % b >= b / 2 + b % 2 {
      assert 2 * (q + 1) * b == 2 * (q * b) + 2 * b;
      HalfUpUnique(q + 1, m, b);
    } else {
      assert 2 * q * b == 2 * (q * b);
      HalfUpUnique(q, m, b);
    }
  }

  /** The exact rounding each mode stands for. */
  function Rounded(a: int, factor: int, mode: Mode): int
    requires factor > 0
  {
    match mode
    case ToNearest => Nearest(a, factor)
    case TowardZero => Trunc(a, factor)
    case Upward => Ceil(a, factor)
  }

  /** A downscale is the exact rounding for every `i128`, including when `10^k` itself does not
      fit; an upscale is exact or fails. */
  lemma RescaleExact(a: i128, fromDecimals: nat, toDecimals: nat, mode: Mode)
    ensures fromDecimals >= toDecimals ==>
      Rescale(a, fromDecimals, toDecimals, mode) == Ok(Rounded(a, Pow10(fromDecimals - toDecimals), mode))
    ensures toDecimals > fromDecimals ==>
      Rescale(a, fromDecimals, toDecimals, mode) ==
      if FitsI128(Pow10(toDecimals - fromDecimals)) then Narrow(a * Pow10(toDecimals - fromDecimals))
      else Err(MathOverflow)
  {
    if fromDecimals == toDecimals {
      RescaleNothing(a, mode);
    } else if fromDecimals > toDecimals {
      var k := fromDecimals - toDecimals;
      if FitsI128(Pow10(k)) { RescaleDown(a, Pow10(k), mode); } else { RescaleAway(a, k, mode); }
    }
  }

  lemma RescaleNothing(a: i128, mode: Mode)
    ensures Rounded(a, Pow10(0), mode) == a
  {
    HalfUpUnique(Abs(a), Abs(a), 1);
    CeilUnique(a, a, 1);
  }

  lemma RescaleDown(a: i128, factor: i128, mode: Mode)
    requires factor >= 1
    ensures RescaleBy(a, Some(factor), mode) == Ok(Rounded(a, factor, mode))
  {
    DivByIntExact(a, factor);
    MachineDivRounds(a, factor);
  }

  /** A power of ten beyond `i128` leaves nothing, or the one unit a ceiling keeps. */
  lemma RescaleAway(a: i128, k: nat, mode: Mode)
    requires !FitsI128(Pow10(k))
    ensures RescaleBy(a, None, mode) == Ok(Rounded(a, Pow10(k), mode))
  {
    OverflowingPow10(k);
    HalfUpUnique(0, Abs(a), Pow10(k));
    if a > 0 { CeilUnique(1, a, Pow10(k)); } else { CeilUnique(0, a, Pow10(k)); }
    FloorUnique(0, Abs(a), Pow10(k));
  }

  lemma OverflowingPow10(k: nat)
    requires !FitsI128(Pow10(k))
    ensures Pow10(k) > 2 * (I128_MAX + 1)
  {
    if k < 39 {
      Pow10Grows(k, 38);
      assert Pow10(38) == 100_000_000_000_000_000_000_000_000_000_000_000_000 by { Pow10Value(); }
    } else {
      Pow10Grows(39, k);
      Pow10Value();
    }
  }

  lemma Pow10Grows(m: nat, n: nat)
    requires m <= n
    ensures Pow10(m) <= Pow10(n)
  {
    if m < n { Pow10Grows(m, n - 1); }
  }

  lemma Pow10Value()
    ensures Pow10(9) == 1_000_000_000 && Pow10(18) == WAD && Pow10(27) == RAY
    ensures Pow10(38) == 100_000_000_000 * RAY
  {
    assert Pow10(9) == 1_000_000_000;
    assert Pow10(18) == WAD;
    assert Pow10(27) == RAY;
    assert Pow10(36) == 1_000_000_000 * RAY;
  }
}
