/** The 128- and 256-bit integers: their limbs, the value the limbs stand for, and
    the loops that assemble it. */
module Limbs {
  import opened Numerals

  const TWO64 := 0x1_0000_0000_0000_0000
  const TWO128 := TWO64 * TWO64
  const TWO192 := TWO128 * TWO64
  const TWO256 := TWO128 * TWO128

  type U64 = x: int | 0 <= x < 0x1_0000_0000_0000_0000
  type I64 = x: int | -0x8000_0000_0000_0000 <= x < 0x8000_0000_0000_0000

  function U128Value(hi: U64, lo: U64): int {
    hi * TWO64 + lo
  }

  function I128Value(hi: I64, lo: U64): int {
    hi * TWO64 + lo
  }

  function U256Value(hiHi: U64, hiLo: U64, loHi: U64, loLo: U64): int {
    hiHi * TWO192 + hiLo * TWO128 + loHi * TWO64 + loLo
  }

  function I256Value(hiHi: I64, hiLo: U64, loHi: U64, loLo: U64): int {
    hiHi * TWO192 + hiLo * TWO128 + loHi * TWO64 + loLo
  }

  /** The bits of a signed limb read as unsigned. */
  function Bits(x: I64): U64 {
    if x < 0 then x + TWO64 else x
  }

  /** Two's complement of a raw value of the given modulus. */
  function TwosComplement(raw: int, modulus: int): int {
    if raw < modulus / 2 then raw else raw - modulus
  }

  /** The signed strings print the two's complement of the 128 raw bits, and nothing out of range. */
  lemma I128IsTwosComplement(hi: I64, lo: U64)
    ensures I128Value(hi, lo) == TwosComplement(U128Value(Bits(hi), lo), TWO128)
    ensures -TWO128 / 2 <= I128Value(hi, lo) < TWO128 / 2
    ensures 0 <= U128Value(Bits(hi), lo) < TWO128
  {
  }

  lemma I256IsTwosComplement(hiHi: I64, hiLo: U64, loHi: U64, loLo: U64)
    ensures I256Value(hiHi, hiLo, loHi, loLo) == TwosComplement(U256Value(Bits(hiHi), hiLo, loHi, loLo), TWO256)
    ensures -TWO256 / 2 <= I256Value(hiHi, hiLo, loHi, loLo) < TWO256 / 2
    ensures 0 <= U256Value(Bits(hiHi), hiLo, loHi, loLo) < TWO256
  {
  }

  lemma U128Injective(hi: U64, lo: U64, hi': U64, lo': U64)
    requires U128Value(hi, lo) == U128Value(hi', lo')
    ensures hi == hi' && lo == lo'
  {
  }

  lemma I128Injective(hi: I64, lo: U64, hi': I64, lo': U64)
    requires I128Value(hi, lo) == I128Value(hi', lo')
    ensures hi == hi' && lo == lo'
  {
  }

  lemma U256Injective(a: U64, b: U64, c: U64, d: U64, a': U64, b': U64, c': U64, d': U64)
    requires U256Value(a, b, c, d) == U256Value(a', b', c', d')
    ensures a == a' && b == b' && c == c' && d == d'
  {
    assert (a * TWO64 + b) * TWO128 + (c * TWO64 + d) == (a' * TWO64 + b') * TWO128 + (c' * TWO64 + d');
    assert a * TWO64 + b == a' * TWO64 + b';
  }

  lemma I256Injective(a: I64, b: U64, c: U64, d: U64, a': I64, b': U64, c': U64, d': U64)
    requires I256Value(a, b, c, d) == I256Value(a', b', c', d')
    ensures a == a' && b == b' && c == c' && d == d'
  {
    assert (a * TWO64 + b) * TWO128 + (c * TWO64 + d) == (a' * TWO64 + b') * TWO128 + (c' * TWO64 + d');
    assert a * TWO64 + b == a' * TWO64 + b';
  }

  /** Every value of the type has limbs, so the strings cover the whole range. */
  lemma I256Onto(n: int) returns (hiHi: I64, hiLo: U64, loHi: U64, loLo: U64)
    requires -TWO256 / 2 <= n < TWO256 / 2
    ensures I256Value(hiHi, hiLo, loHi, loLo) == n
  {
    var n1, n2 := n / TWO64, n / TWO64 / TWO64;
    hiHi, hiLo, loHi, loLo := n2 / TWO64, n2 % TWO64, n1 % TWO64, n % TWO64;
  }

  // ---- The string methods ----

  method Int128String(hi: I64, lo: U64) returns (s: string)
    ensures s == FormatInt(I128Value(hi, lo))
  {
    var n: int := hi;
    n := n * TWO64;
    s := FormatInt(n + lo);
  }

  method Uint128String(hi: U64, lo: U64) returns (s: string)
    ensures s == FormatInt(U128Value(hi, lo))
  {
    var n: int := hi;
    n := n * TWO64;
    s := FormatInt(n + lo);
  }

  /** Shifts in three limbs below a starting value. */
  method ShiftIn(start: int, limbs: seq<U64>) returns (n: int)
    requires |limbs| == 3
    ensures n == start * TWO192 + limbs[0] * TWO128 + limbs[1] * TWO64 + limbs[2]
  {
    n := start;
    for i := 0 to |limbs|
      invariant i == 0 ==> n == start
      invariant i == 1 ==> n == start * TWO64 + limbs[0]
      invariant i == 2 ==> n == start * TWO128 + limbs[0] * TWO64 + limbs[1]
      invariant i == 3 ==> n == start * TWO192 + limbs[0] * TWO128 + limbs[1] * TWO64 + limbs[2]
    {
      n := n * TWO64;
      n := n + limbs[i];
    }
  }

  method Int256String(hiHi: I64, hiLo: U64, loHi: U64, loLo: U64) returns (s: string)
    ensures s == FormatInt(I256Value(hiHi, hiLo, loHi, loLo))
  {
    var n := ShiftIn(hiHi, [hiLo, loHi, loLo]);
    s := FormatInt(n);
  }

  method Uint256String(hiHi: U64, hiLo: U64, loHi: U64, loLo: U64) returns (s: string)
    ensures s == FormatInt(U256Value(hiHi, hiLo, loHi, loLo))
  {
    var n := ShiftIn(hiHi, [hiLo, loHi, loLo]);
    s := FormatInt(n);
  }

  /** Distinct limbs print differently. */
  lemma I256StringsDistinct(a: I64, b: U64, c: U64, d: U64, a': I64, b': U64, c': U64, d': U64)
    requires FormatInt(I256Value(a, b, c, d)) == FormatInt(I256Value(a', b', c', d'))
    ensures a == a' && b == b' && c == c' && d == d'
  {
    FormatIntInjective(I256Value(a, b, c, d), I256Value(a', b', c', d'));
    I256Injective(a, b, c, d, a', b', c', d');
  }
}
