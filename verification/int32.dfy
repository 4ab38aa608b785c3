/** The C# `int` type: 32-bit two's complement, with unchecked (wrapping)
    arithmetic, which is the compiler's default. */
module Int32 {

  const Modulus: int := 0x1_0000_0000

  type Int32 = x: int | InRange(x)

  predicate InRange(x: int) {
    -0x8000_0000 <= x < 0x8000_0000
  }

  /** Truncates an unbounded integer to 32 bits, as an unchecked C# `int`
      operation does. */
  function Wrap(x: int): (r: Int32)
    ensures InRange(x) ==> r == x
  {
    if InRange(x) then x
    else (x + 0x8000_0000) % Modulus - 0x8000_0000
  }

  /** `Wrap(x)` is the unique `Int32` congruent to `x` modulo 2^32. */
  lemma WrapIsCongruent(x: int, y: Int32)
    ensures (x - Wrap(x)) % Modulus == 0
    ensures (x - y) % Modulus == 0 ==> y == Wrap(x)
  {
    var m := (x + 0x8000_0000) % Modulus;
    var q := (x + 0x8000_0000) / Modulus;
    assert x + 0x8000_0000 == q * Modulus + m;
    if !InRange(x) {
      assert x - Wrap(x) == q * Modulus;
    } else {
      assert x - Wrap(x) == 0 * Modulus;
    }
    if (x - y) % Modulus == 0 {
      var k := (x - y) / Modulus;
      assert x - y == k * Modulus;
      assert y + 0x8000_0000 == (x + 0x8000_0000) - k * Modulus;
      assert InRange(y);
    }
  }
}
