/** Machine integers, fixed-point scales and the error codes shared by the models. */
module Numbers {

  const I128_MAX: int := 0x7FFF_FFFF_FFFF_FFFF_FFFF_FFFF_FFFF_FFFF
  const I128_MIN: int := -0x8000_0000_0000_0000_0000_0000_0000_0000
  const U128_MAX: int := 0xFFFF_FFFF_FFFF_FFFF_FFFF_FFFF_FFFF_FFFF
  const U256_MAX: int := 0xFFFF_FFFF_FFFF_FFFF_FFFF_FFFF_FFFF_FFFF_FFFF_FFFF_FFFF_FFFF_FFFF_FFFF_FFFF_FFFF

  const RAY: int := 1_000_000_000_000_000_000_000_000_000
  const WAD: int := 1_000_000_000_000_000_000
  const BPS: int := 10_000
  const RAY_DECIMALS: nat := 27
  const WAD_DECIMALS: nat := 18

  type i128 = x: int | I128_MIN <= x <= I128_MAX
  type i256 = x: int | -(U256_MAX / 2) - 1 <= x <= U256_MAX / 2
  type u128 = x: int | 0 <= x <= U128_MAX
  type u256 = x: int | 0 <= x <= U256_MAX

  predicate FitsI128(x: int) {
    I128_MIN <= x <= I128_MAX
  }

  function Min(a: int, b: int): (m: int)
    ensures m <= a && m <= b && (m == a || m == b)
  {
    if a <= b then a else b
  }

  function Max(a: int, b: int): (m: int)
    ensures m >= a && m >= b && (m == a || m == b)
  {
    if a >= b then a else b
  }

  /** `10^n`, exact. */
  function Pow10(n: nat): (p: int)
    ensures p >= 1
  {
    if n == 0 then 1 else 10 * Pow10(n - 1)
  }

  datatype Error =
    | DivisionByZero
    | MathOverflow
    | InternalError
    | InvalidPrice
    | AmountMustBePositive
    | RoundsToZeroShares
    | WithdrawLessThanFee
    | InsufficientLiquidity
    | UtilizationAboveMax
    | PoolInsolvent
    | StrategyFeeExceeds
    | FlashloanNotEnabled
    | CapReached
    | SpokeMismatch
    | PositionMissing
    | SelfLiquidation
    | OracleCycle
    | OracleMissing
    | SourceCount

  /** A contract panic rolls the whole call back, so a panic is an `Err` value here. */
  datatype Result<+T> = Ok(value: T) | Err(error: Error) {
    predicate IsFailure() { Err? }

    function PropagateFailure<U>(): Result<U>
      requires Err?
    {
      Err(error)
    }

    function Extract(): T
      requires Ok?
    {
      value
    }
  }

  datatype Option<+T> = None | Some(value: T) {
    predicate IsFailure() { None? }

    function PropagateFailure<U>(): Option<U>
      requires None?
    {
      None
    }

    function Extract(): T
      requires Some?
    {
      value
    }
  }

  /** Keeps an exact integer that fits `i128`; anything else is `MathOverflow`. */
  function Narrow(x: int): (r: Result<int>)
    ensures r.Ok? <==> FitsI128(x)
  {
    if FitsI128(x) then Ok(x) else Err(MathOverflow)
  }

  /** Fixed-point subtraction: nonnegative operands and a nonnegative difference. */
  function CheckedSub(a: int, b: int): (r: Result<int>)
    ensures r.Ok? ==> r.value == a - b >= 0 && a >= 0 && b >= 0
  {
    if a < 0 || b < 0 || b > a then Err(MathOverflow) else Ok(a - b)
  }

  /** An assertion that panics with `error`. */
  function Require(condition: bool, error: Error): (r: Result<bool>)
    ensures r.Ok? <==> condition
  {
    if condition then Ok(true) else Err(error)
  }
}
