/** Tile encoding of the 2048 board.

    A board cell holds an exponent `e`: 0 is an empty cell and `e > 0` is a
    tile worth `2^e`.  `move` converts the whole board to tile values before
    sliding (`2 ** x if x > 0 else 0`) and back to exponents afterwards
    (`bit_length() - 1`); this module models both conversions and proves
    that they are inverse on exponents. */
module Tiles {

  /** 2^n. */
  function Pow2(n: nat): (r: nat)
    ensures r >= 1
  {
    if n == 0 then 1 else 2 * Pow2(n - 1)
  }

  lemma {:induction false} Pow2StrictlyIncreasing(a: nat, b: nat)
    requires a < b
    ensures Pow2(a) < Pow2(b)
  {
    if b > a + 1 {
      Pow2StrictlyIncreasing(a, b - 1);
    }
  }

  /** Python's `int.bit_length` on a non-negative integer: the number of
      binary digits, 0 for 0. */
  function BitLength(x: nat): (r: nat)
    ensures x == 0 <==> r == 0
    ensures x > 0 ==> Pow2(r - 1) <= x < Pow2(r)
  {
    if x == 0 then 0 else 1 + BitLength(x / 2)
  }

  /** Exponent to tile value (Game2048.py line 28). */
  function ToValue(e: nat): (v: nat)
    ensures v == 0 <==> e == 0
    ensures e > 0 ==> v >= 2
  {
    if e > 0 then Pow2(e) else 0
  }

  /** Tile value back to exponent (Game2048.py line 68): the position of the
      highest set bit, and 0 for an empty cell. */
  function ToExponent(v: nat): (e: nat)
    ensures v == 0 ==> e == 0
    ensures v > 0 ==> Pow2(e) <= v < 2 * Pow2(e)
  {
    if v > 0 then BitLength(v) - 1 else 0
  }

  /** Converting an exponent to its value and back gives the exponent. */
  lemma ExponentRoundTrip(e: nat)
    ensures ToExponent(ToValue(e)) == e
  {
    if e > 0 {
      var x := ToExponent(Pow2(e));
      if x < e {
        Pow2StrictlyIncreasing(x + 1, e);
      } else if x > e {
        Pow2StrictlyIncreasing(e, x);
      }
    }
  }

  /** Distinct exponents have distinct values. */
  lemma ToValueInjective(a: nat, b: nat)
    requires ToValue(a) == ToValue(b)
    ensures a == b
  {
    ExponentRoundTrip(a);
    ExponentRoundTrip(b);
  }

  /** A value twice the tile of exponent `e` has exponent `e + 1`. */
  lemma DoubledExponent(v: nat, e: nat)
    requires e > 0 && v == 2 * ToValue(e)
    ensures ToExponent(v) == e + 1
  {
    MergedExponent(e);
  }

  /** Merging two tiles of exponent `e` gives the tile of exponent `e + 1`. */
  lemma MergedExponent(e: nat)
    requires e > 0
    ensures ToValue(e) + ToValue(e) == ToValue(e + 1)
    ensures ToExponent(ToValue(e) + ToValue(e)) == e + 1
  {
    ExponentRoundTrip(e + 1);
  }
}
