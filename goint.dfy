/** Go's integer operations that the frame producer relies on, written out
    explicitly because Dafny's integers are unbounded and its `%` is Euclidean. */
module GoInt {

  /** Go's `uint8`: an unsigned 8-bit value. */
  newtype Uint8 = v: int | 0 <= v < 256

  /** Go's conversion `uint8(v)` from `int`: it keeps the low eight bits of the
      two's-complement representation, i.e. the residue of `v` modulo 256. */
  function ToUint8(v: int): (r: Uint8)
    ensures 0 <= v < 256 ==> r as int == v
    ensures (v - r as int) % 256 == 0
  {
    (v % 256) as Uint8
  }

  /** Go's `a % m` on `int`: the remainder of division truncated toward zero,
      so it takes the sign of the dividend. */
  function Rem(a: int, m: int): (r: int)
    requires m > 0
    ensures a >= 0 ==> 0 <= r < m
    ensures a < 0 ==> -m < r <= 0
    ensures a >= 0 ==> r == a % m
  {
    if a >= 0 then a % m else -((-a) % m)
  }
}
