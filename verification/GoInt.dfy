/** Go's 64-bit integers: wrap-around addition and truncating halving. */
module GoInt {

  const TWO62: int := 0x4000_0000_0000_0000
  const TWO63: int := 0x8000_0000_0000_0000
  const TWO64: int := 0x1_0000_0000_0000_0000

  type int64 = x: int | -0x8000_0000_0000_0000 <= x < 0x8000_0000_0000_0000

  function Wrap(x: int): (r: int64)
    ensures -TWO63 <= x < TWO63 ==> r == x
    ensures TWO63 <= x < TWO64 ==> r == x - TWO64
    ensures -TWO64 <= x < -TWO63 ==> r == x + TWO64
  {
    (x + TWO63) % TWO64 - TWO63
  }

  /** Go's x / 2, which truncates toward zero. */
  function Half(x: int64): int64 {
    var i: int := x as int;
    if i >= 0 then i / 2 else -((-i) / 2)
  }

  function Add(x: int64, y: int64): int64 { Wrap(x as int + y as int) }

  function Sub(x: int64, y: int64): int64 { Wrap(x as int - y as int) }

  function Min(x: int, y: int): int { if x <= y then x else y }

  function Pow2(n: nat): (p: nat)
    ensures p >= 1
  {
    if n == 0 then 1 else 2 * Pow2(n - 1)
  }
}
