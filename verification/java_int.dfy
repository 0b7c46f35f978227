/**
 Java's 32-bit two's-complement `int`, as far as the call counter needs it:
 `callsMade++` on an `int` wraps from 2^31 - 1 to -2^31.
 */
module JavaInt {

  const Modulus: int := 0x1_0000_0000
  const MinValue: int := -0x8000_0000
  const MaxValue: int := 0x7FFF_FFFF

  predicate InRange(x: int) {
    MinValue <= x <= MaxValue
  }

  /** The Java `int` that holds the mathematical integer n after wrap-around. */
  function Wrap(n: int): (r: int)
    ensures InRange(r)
    ensures (r - n) % Modulus == 0
    ensures InRange(n) ==> r == n
  {
    var m := n % Modulus;
    if m <= MaxValue then m else m - Modulus
  }

  /** Two integers that agree modulo 2^32 wrap to the same `int`. */
  lemma WrapCongruent(a: int, b: int)
    requires (a - b) % Modulus == 0
    ensures Wrap(a) == Wrap(b)
  {
    var k := (a - b) / Modulus;
    assert a == b + k * Modulus;
    ModShift(b, k);
  }

  lemma {:induction false} ModShift(b: int, k: int)
    ensures (b + k * Modulus) % Modulus == b % Modulus
    decreases if k < 0 then -k else k
  {
    if k > 0 {
      ModShift(b, k - 1);
      assert b + k * Modulus == (b + (k - 1) * Modulus) + Modulus;
    } else if k < 0 {
      ModShift(b, k + 1);
      assert b + k * Modulus == (b + (k + 1) * Modulus) - Modulus;
    }
  }

  /**
   Incrementing the `int` that holds n gives the `int` that holds n + 1: a Java
   counter bumped with `++` always equals its exact count wrapped to 32 bits.
   */
  lemma WrapIncrement(n: int)
    ensures Wrap(Wrap(n) + 1) == Wrap(n + 1)
  {
    WrapCongruent(Wrap(n) + 1, n + 1);
  }
}
