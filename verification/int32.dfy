/** C# `int` arithmetic: 32-bit two's complement with unchecked wrap-around. */
module Int32 {

  const MinInt32: int := -0x8000_0000
  const MaxInt32: int := 0x7FFF_FFFF
  const Modulus: int := 0x1_0000_0000

  type int32 = x: int | MinInt32 <= x <= MaxInt32

  /** The int32 that an unchecked C# operation produces for the exact result `x`. */
  function Wrap(x: int): (r: int32)
    ensures (r - x) % Modulus == 0
    ensures MinInt32 <= x <= MaxInt32 ==> r == x
  {
    var m := (x - MinInt32) % Modulus;
    m + MinInt32
  }

  /** The C# conversion `(uint)x` of an int32. */
  function ToUnsigned(x: int32): (u: nat)
    ensures u < Modulus
    ensures (u - x) % Modulus == 0
  {
    if x < 0 then x + Modulus else x
  }

  /** Wrapping twice is wrapping once: `unchecked((a + b) + c)` only depends on the exact sum. */
  lemma {:induction false} WrapAdd(a: int, b: int)
    ensures Wrap(Wrap(a) + b) == Wrap(a + b)
  {
    var d := Wrap(a) - a;
    assert d % Modulus == 0;
    var q := d / Modulus;
    assert d == q * Modulus;
    WrapShift(a + b, q);
  }

  lemma {:induction false} WrapShift(x: int, q: int)
    ensures Wrap(x + q * Modulus) == Wrap(x)
  {
    var y := x - MinInt32;
    assert (y + q * Modulus) % Modulus == y % Modulus;
  }
}
