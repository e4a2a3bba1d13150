/**
 * The pieces of `std::ostream` formatting the driver relies on: `std::hex`
 * (lowercase digits, no prefix), `std::dec`, and `std::setw(w)` with
 * `std::setfill('0')` (right-aligned, padded on the left, never truncated).
 * Each printer has a parser beside it that reads its output back.
 */
module Text {

  predicate IsHexDigit(c: char) {
    '0' <= c <= '9' || 'a' <= c <= 'f' || 'A' <= c <= 'F'
  }

  predicate IsLowerHex(s: string) {
    forall i :: 0 <= i < |s| ==> '0' <= s[i] <= '9' || 'a' <= s[i] <= 'f'
  }

  predicate AllHexDigits(s: string) {
    forall i :: 0 <= i < |s| ==> IsHexDigit(s[i])
  }

  /** The value of a hexadecimal digit of either case. */
  function DigitValue(c: char): (d: nat)
    requires IsHexDigit(c)
    ensures d < 16
  {
    if '0' <= c <= '9' then c as int - '0' as int
    else if 'a' <= c <= 'f' then c as int - 'a' as int + 10
    else c as int - 'A' as int + 10
  }

  /** The lowercase digit `std::hex` prints for `d`. */
  function HexDigit(d: nat): (c: char)
    requires d < 16
    ensures IsHexDigit(c) && ('0' <= c <= '9' || 'a' <= c <= 'f')
    ensures DigitValue(c) == d
    ensures c == '0' <==> d == 0
  {
    if d < 10 then ('0' as int + d) as char else ('a' as int + d - 10) as char
  }

  function Pow16(w: nat): (p: nat)
    ensures p >= 1
  {
    if w == 0 then 1 else 16 * Pow16(w - 1)
  }

  /** The number a string of hexadecimal digits denotes, most significant first. */
  function HexValue(s: string): (v: nat)
    requires AllHexDigits(s)
    ensures v < Pow16(|s|)
  {
    if s == [] then 0 else HexValue(s[..|s| - 1]) * 16 + DigitValue(s[|s| - 1])
  }

  /** `os << std::hex << n`: the shortest lowercase hexadecimal numeral of `n`. */
  function Hex(n: nat): (s: string)
    ensures 1 <= |s| && IsLowerHex(s) && AllHexDigits(s)
    ensures |s| > 1 ==> s[0] != '0'
    ensures HexValue(s) == n
  {
    if n < 16 then [HexDigit(n)]
    else
      var s := Hex(n / 16) + [HexDigit(n % 16)];
      assert s[..|s| - 1] == Hex(n / 16);
      s
  }

  /** A byte in exactly two lowercase hexadecimal digits. */
  function HexByte(b: nat): (s: string)
    requires b < 0x100
    ensures |s| == 2 && IsLowerHex(s) && AllHexDigits(s)
    ensures HexValue(s) == b
  {
    var s := [HexDigit(b / 16), HexDigit(b % 16)];
    assert s[..1] == [HexDigit(b / 16)];
    s
  }

  /** A number below 16^w has at most `w` hexadecimal digits. */
  lemma {:induction false} HexLength(n: nat, w: nat)
    requires 1 <= w && n < Pow16(w)
    ensures |Hex(n)| <= w
  {
    if n >= 16 {
      HexLength(n / 16, w - 1);
    }
  }

  /** `std::setw(w)` with fill `fill`: right-aligns `s` in a field of at least `w` characters. */
  function PadLeft(s: string, w: nat, fill: char): (r: string)
    ensures |r| == if |s| >= w then |s| else w
    ensures r[|r| - |s|..] == s
    ensures forall i :: 0 <= i < |r| - |s| ==> r[i] == fill
  {
    if |s| >= w then s else seq(w - |s|, _ => fill) + s
  }

  /** Leading zeros do not change the value of a numeral. */
  lemma {:induction false} LeadingZeros(z: string, s: string)
    requires forall i :: 0 <= i < |z| ==> z[i] == '0'
    requires AllHexDigits(s)
    ensures AllHexDigits(z + s)
    ensures HexValue(z + s) == HexValue(s)
    decreases |s|
  {
    if s == [] {
      assert z + s == z;
      Zeros(z);
    } else {
      assert (z + s)[..|z + s| - 1] == z + s[..|s| - 1];
      LeadingZeros(z, s[..|s| - 1]);
    }
  }

  lemma {:induction false} Zeros(z: string)
    requires forall i :: 0 <= i < |z| ==> z[i] == '0'
    ensures AllHexDigits(z) && HexValue(z) == 0
  {
    if z != [] {
      Zeros(z[..|z| - 1]);
    }
  }

  /** `std::hex << std::setfill('0') << std::setw(w) << n`. */
  function ZeroPaddedHex(n: nat, w: nat): (s: string)
    ensures |s| == if |Hex(n)| >= w then |Hex(n)| else w
    ensures IsLowerHex(s) && AllHexDigits(s)
    ensures HexValue(s) == n
  {
    PaddingKeepsValue(Hex(n), w);
    PadLeft(Hex(n), w, '0')
  }

  lemma PaddingKeepsValue(h: string, w: nat)
    requires IsLowerHex(h) && AllHexDigits(h)
    ensures IsLowerHex(PadLeft(h, w, '0')) && AllHexDigits(PadLeft(h, w, '0'))
    ensures HexValue(PadLeft(h, w, '0')) == HexValue(h)
  {
    var s := PadLeft(h, w, '0');
    if |h| < w {
      LeadingZeros(s[..w - |h|], h);
      assert s == s[..w - |h|] + h;
    }
  }

  /** A single digit padded to `w` characters: `w - 1` zeros, then the digit. */
  lemma SmallPadded(d: nat, w: nat)
    requires d < 16 && w >= 1
    ensures ZeroPaddedHex(d, w) == seq(w - 1, _ => '0') + [HexDigit(d)]
  {
    assert Hex(d) == [HexDigit(d)];
  }

  /** A number below 16^w prints in exactly `w` characters. */
  lemma ZeroPaddedHexWidth(n: nat, w: nat)
    requires 1 <= w && n < Pow16(w)
    ensures |ZeroPaddedHex(n, w)| == w
  {
    HexLength(n, w);
  }

  predicate AllDecimalDigits(s: string) {
    forall i :: 0 <= i < |s| ==> '0' <= s[i] <= '9'
  }

  /** The number a string of decimal digits denotes. */
  function DecimalValue(s: string): (v: nat)
    requires AllDecimalDigits(s)
  {
    if s == [] then 0 else DecimalValue(s[..|s| - 1]) * 10 + (s[|s| - 1] as int - '0' as int)
  }

  /** `os << std::dec << n` for a non-negative `n`: the shortest decimal numeral. */
  function Decimal(n: nat): (s: string)
    ensures 1 <= |s| && AllDecimalDigits(s)
    ensures |s| > 1 ==> s[0] != '0'
    ensures DecimalValue(s) == n
  {
    var d := [('0' as int + n % 10) as char];
    if n < 10 then d
    else
      var s := Decimal(n / 10) + d;
      assert s[..|s| - 1] == Decimal(n / 10);
      s
  }
}
