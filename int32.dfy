/**
 * Java `int` semantics on top of Dafny's unbounded integers: two's-complement
 * wrap-around of `+`, `-` and `*`, the unsigned view used by `>>>`, and
 * division that truncates toward zero.
 */
module Int32 {

  const MIN: int := -0x8000_0000
  const MAX: int := 0x7FFF_FFFF
  const MODULUS: int := 0x1_0000_0000

  /** A value of Java type `int`. */
  type JInt = x: int | MIN <= x <= MAX

  function Max(a: int, b: int): int { if a >= b then a else b }
  function Min(a: int, b: int): int { if a <= b then a else b }

  /** The `int` that a Java `int` operation yields when its exact result is `x`. */
  function Wrap(x: int): (r: JInt)
    ensures MIN <= x <= MAX ==> r == x
  {
    if MIN <= x <= MAX then x
    else
      var u := x % MODULUS;
      if u > MAX then u - MODULUS else u
  }

  /** `Wrap(x)` differs from `x` by a whole number of 2^32 steps, so it keeps the low 32 bits. */
  lemma WrapCongruent(x: int)
    ensures (x - Wrap(x)) % MODULUS == 0
  {
    if !(MIN <= x <= MAX) {
      var u := x % MODULUS;
      assert x == (x / MODULUS) * MODULUS + u;
    }
  }

  /** The 32 bits of `x` read as an unsigned number. */
  function Unsigned(x: JInt): (u: nat)
    ensures u < MODULUS
    ensures 0 <= x ==> u == x
    ensures x < 0 ==> u == x + MODULUS
  {
    if x < 0 then x + MODULUS else x
  }

  /** Java's `x >>> 8`: a logical right shift, so a negative `x` becomes a large positive value. */
  function Lshr8(x: JInt): (r: JInt)
    ensures 0 <= r < 0x100_0000
    ensures 0 <= x ==> r == x / 256
    ensures x < 0 ==> r >= 0x80_0000
  {
    Unsigned(x) / 256
  }

  /** Java's `a / b` on `int`: the quotient truncated toward zero. */
  function JavaDiv(a: int, b: int): (q: int)
    requires b != 0
    ensures 0 <= a && 0 < b ==> q == a / b
    ensures a < 0 && 0 < b ==> q == -((-a) / b)
  {
    var m := (if a < 0 then -a else a) / (if b < 0 then -b else b);
    if (a < 0) != (b < 0) then -m else m
  }
}
