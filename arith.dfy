/** The C integer operators the expression evaluator relies on, written out for Dafny's
    unbounded integers. */
module Arith {
  import opened Errors

  /** The range of the original's `int` (32-bit two's complement). */
  const IntMin: int := -0x8000_0000
  const IntMax: int := 0x7FFF_FFFF

  predicate InInt(x: int) { IntMin <= x <= IntMax }

  /** The result of an int operation: outside the range C leaves the behaviour undefined, so
      the model stops with an error there. */
  function Checked(x: int): (r: Result<int>)
    ensures r.Ok? <==> InInt(x)
    ensures r.Ok? ==> r.value == x
    ensures r.Fail? ==> r.err == IntOverflow
  {
    if InInt(x) then Ok(x) else Fail(IntOverflow)
  }

  /** C's `+`, `-` and `*` on int. */
  function CAdd(a: int, b: int): Result<int> { Checked(a + b) }

  function CSub(a: int, b: int): Result<int> { Checked(a - b) }

  function CMul(a: int, b: int): Result<int> { Checked(a * b) }

  function Abs(x: int): nat { if x < 0 then -x else x }

  /** C's `/`: the quotient is truncated toward zero (Dafny's `/` is Euclidean). */
  function CDiv(a: int, b: int): (q: int)
    requires b != 0
    ensures Abs(a - b * q) < Abs(b)
    ensures a - b * q == 0 || (a - b * q > 0 <==> a > 0)
  {
    if a >= 0 then
      if b > 0 then a / b else -(a / -b)
    else
      if b > 0 then -((-a) / b) else (-a) / (-b)
  }

  /** C's `%`: the remainder has the sign of the dividend. */
  function CRem(a: int, b: int): (r: int)
    requires b != 0
    ensures a == b * CDiv(a, b) + r
    ensures Abs(r) < Abs(b) && (r == 0 || (r > 0 <==> a > 0))
  {
    a - b * CDiv(a, b)
  }

  /** factor()'s `/`: a zero divisor is fatal; the one overflowing quotient, INT_MIN / -1,
      is undefined in C. */
  function CQuot(a: int, b: int): Result<int> {
    if b == 0 then Fail(DivisionByZero) else Checked(CDiv(a, b))
  }

  /** factor()'s `%`: a zero divisor and INT_MIN % -1 are undefined in C; both stop the
      model. */
  function CMod(a: int, b: int): Result<int> {
    if b == 0 then Fail(ModuloByZero)
    else if !InInt(CDiv(a, b)) then Fail(IntOverflow)
    else Ok(CRem(a, b))
  }

  /** power()'s `^`: mpow() refuses an exponent below 1, and a power outside int is
      undefined in C. */
  function CPow(a: int, e: int): Result<int> {
    if e < 1 then Fail(NegativeExponent) else Checked(Pow(a, e))
  }

  /** x to the power p, the value mpow computes for p >= 1. */
  function Pow(x: int, p: nat): int
  {
    if p == 0 then 1 else Pow(x, p - 1) * x
  }
}
