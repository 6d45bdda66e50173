/** Go's 64-bit signed integers and the wrap-around of their arithmetic.
    Dafny's `int` is unbounded; every int64 operation of the cache reader is
    routed through `Wrap` so that an overflow behaves as it does in Go. */
module GoInt {

  const TwoTo63: int := 0x8000_0000_0000_0000
  const TwoTo64: int := 0x1_0000_0000_0000_0000

  /** Go's int64. */
  type int64 = x: int | -0x8000_0000_0000_0000 <= x < 0x8000_0000_0000_0000

  /** A non-negative int64: what `strconv.ParseInt` yields for the route's `[0-9]+` segments. */
  type uint63 = x: int | 0 <= x < 0x8000_0000_0000_0000

  function Abs(x: int): nat {
    if x < 0 then -x else x
  }

  function Min(a: int, b: int): int {
    if a <= b then a else b
  }

  /** Two's-complement reduction modulo 2^64, as a Go int64 operation performs it. */
  function Wrap(x: int): (r: int64)
    ensures -TwoTo63 <= x < TwoTo63 ==> r == x
    ensures 0 <= x < TwoTo64 ==> r == x || r == x - TwoTo64
  {
    var m := x % TwoTo64;
    if m < TwoTo63 then m else m - TwoTo64
  }

  function Add(a: int64, b: int64): int64 {
    Wrap(a + b)
  }

  function Sub(a: int64, b: int64): int64 {
    Wrap(a - b)
  }

  function Mul(a: int64, b: int64): int64 {
    Wrap(a * b)
  }

  /** Go's `/` on int64: truncates toward zero (and MinInt64 / -1 wraps to MinInt64). */
  function Quot(a: int64, b: int64): (q: int64)
    requires b != 0
    ensures a >= 0 && b > 0 ==> q == a / b
    ensures a >= 0 && b < 0 ==> q == -(a / Abs(b))
  {
    var x: int, y: int := a, b;
    if y > 0 then
      if x >= 0 then DivLe(x, y); x / y
      else DivLe(-x, y); -((-x) / y)
    else
      if x >= 0 then DivLe(x, -y); -(x / -y)
      else DivLe(-x, -y); Wrap((-x) / (-y))
  }

  lemma MulMonotone(a: int, b: int, c: int)
    requires a <= b && c >= 0
    ensures a * c <= b * c
  {
    assert b * c == a * c + (b - a) * c;
  }

  lemma DivLe(a: nat, n: nat)
    requires n > 0
    ensures 0 <= a / n <= a
  {
    var q := a / n;
    assert a == q * n + a % n;
    if q < 0 {
      MulMonotone(q, -1, n);
    } else {
      MulMonotone(1, n, q);
    }
  }
}
