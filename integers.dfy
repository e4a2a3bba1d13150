/**
 * The fixed-width C++ integer types used by the driver, and the C++ integer
 * operations whose semantics differ from Dafny's.
 */
module Integers {
  type uint8 = x: int | 0 <= x < 0x100
  type uint16 = x: int | 0 <= x < 0x1_0000
  type uint32 = x: int | 0 <= x < 0x1_0000_0000
  type uint64 = x: int | 0 <= x < 0x1_0000_0000_0000_0000
  type int8 = x: int | -0x80 <= x < 0x80
  type int16 = x: int | -0x8000 <= x < 0x8000
  type int32 = x: int | -0x8000_0000 <= x < 0x8000_0000
  type int64 = x: int | -0x8000_0000_0000_0000 <= x < 0x8000_0000_0000_0000

  const Uint32Modulus: int := 0x1_0000_0000

  /** Unsigned 32-bit addition, which wraps around modulo 2^32. */
  function AddUint32(a: uint32, b: uint32): (r: uint32)
    ensures a + b < Uint32Modulus ==> r == a + b
    ensures a + b >= Uint32Modulus ==> r == a + b - Uint32Modulus
  {
    (a + b) % Uint32Modulus
  }

  /** `static_cast<std::uint32_t>` of a signed 64-bit value: reduction modulo 2^32. */
  function CastToUint32(x: int64): (r: uint32)
    ensures 0 <= x < Uint32Modulus ==> r == x
    ensures (r - x) % Uint32Modulus == 0
  {
    x % Uint32Modulus
  }

  /** C++ integer division `a / b` for a positive divisor: rounds toward zero. */
  function TruncDiv(a: int, b: int): int
    requires b > 0
  {
    if a >= 0 then a / b else -((-a) / b)
  }

  /** C++ integer remainder `a % b` for a positive divisor: takes the sign of `a`. */
  function TruncMod(a: int, b: int): int
    requires b > 0
  {
    if a >= 0 then a % b else -((-a) % b)
  }

  /**
   * The C++ guarantee `(a / b) * b + a % b == a`, with a remainder smaller
   * than the divisor in magnitude and of the sign of the dividend.
   */
  lemma TruncDivMod(a: int, b: int)
    requires b > 0
    ensures TruncDiv(a, b) * b + TruncMod(a, b) == a
    ensures a >= 0 ==> 0 <= TruncMod(a, b) < b && TruncDiv(a, b) == a / b
    ensures a < 0 ==> -b < TruncMod(a, b) <= 0 && TruncDiv(a, b) <= 0
  {
    if a < 0 {
      assert (-a) / b * b + (-a) % b == -a;
    }
  }
}
