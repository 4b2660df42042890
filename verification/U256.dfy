/** The host's unsigned 256-bit arithmetic. An overflow, underflow or zero divisor traps the
    host, so it is a precondition here; only `CheckedMul` reports overflow as a value. */
module U256 {
  import opened Numbers
  import opened Rounding

  function Mul(a: u256, b: u256): (r: u256)
    requires a * b <= U256_MAX
    ensures r == a * b
  {
    MulNonNeg(a, b);
    a * b
  }

  function Add(a: u256, b: u256): (r: u256)
    requires a + b <= U256_MAX
    ensures r == a + b
  {
    a + b
  }

  function Sub(a: u256, b: u256): (r: u256)
    requires b <= a
    ensures r == a - b
  {
    a - b
  }

  function Div(a: u256, b: u256): (r: u256)
    requires b > 0
    ensures r == Floor(a, b) && r <= a
  {
    FloorNonNeg(a, b);
    FloorGe(a + 1, a, b);
    MulMono(1, b, a + 1);
    a / b
  }

  function CheckedMul(a: u256, b: u256): (r: Result<u256>)
    ensures r == if a * b <= U256_MAX then Ok(a * b) else Err(InvalidPrice)
  {
    MulNonNeg(a, b);
    if a * b <= U256_MAX then Ok(a * b) else Err(InvalidPrice)
  }
}
