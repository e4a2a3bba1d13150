/**
 * `toTimeval` of `myactuator_rmd/can/utilities.hpp` and of the legacy
 * `myactuator_rmd_driver/can/utilities.hpp` (the two are the same
 * computation): a `std::chrono::duration` with an integral count is cast to
 * whole microseconds, then split into seconds and microseconds with C++'s
 * truncating `/` and `%`.
 */
module Timevals {
  import opened Integers

  const MicrosPerSecond: int := 1_000_000

  /** `struct timeval`. */
  datatype Timeval = Timeval(sec: int, usec: int)

  /**
   * `duration_cast<duration<Rep, std::micro>>` of `count` ticks of
   * `num`/`den` seconds: the exact number of microseconds, rounded toward
   * zero.
   */
  function ToMicroseconds(count: int, num: int, den: int): (usec: int)
    requires num > 0 && den > 0
    ensures var exact := count * (num * MicrosPerSecond);
      if count >= 0 then 0 <= exact - usec * den < den else -den < exact - usec * den <= 0
  {
    ProductSign(count, num * MicrosPerSecond);
    RoundTowardZero(count * (num * MicrosPerSecond), den)
  }

  /** `x / den` in C++: the quotient rounded toward zero. */
  function RoundTowardZero(x: int, den: int): (q: int)
    requires den > 0
    ensures x >= 0 ==> 0 <= x - q * den < den
    ensures x < 0 ==> -den < x - q * den <= 0
  {
    TruncDivMod(x, den);
    var q := TruncDiv(x, den);
    var r := TruncMod(x, den);
    assert x - q * den == r;
    q
  }

  lemma ProductSign(c: int, k: int)
    requires k > 0
    ensures c >= 0 <==> c * k >= 0
  {
    if c < 0 {
      assert c * k == -((-c) * k);
    }
  }

  /**
   * The split of `usec` microseconds: seconds and a remainder that
   * together give `usec` back, the remainder smaller than one second and of
   * the sign of `usec`.
   */
  function SplitMicroseconds(usec: int): (tv: Timeval)
    ensures tv.sec * MicrosPerSecond + tv.usec == usec
    ensures usec >= 0 ==> 0 <= tv.usec < MicrosPerSecond
    ensures usec < 0 ==> -MicrosPerSecond < tv.usec <= 0
  {
    TruncDivMod(usec, MicrosPerSecond);
    Timeval(TruncDiv(usec, MicrosPerSecond), TruncMod(usec, MicrosPerSecond))
  }

  /** `toTimeval(duration)` for a duration of `count` ticks of `num`/`den` seconds. */
  function ToTimeval(count: int, num: int, den: int): (tv: Timeval)
    requires num > 0 && den > 0
    ensures TotalMicroseconds(tv) == ToMicroseconds(count, num, den)
    ensures ToMicroseconds(count, num, den) >= 0 ==> 0 <= tv.usec < MicrosPerSecond
    ensures ToMicroseconds(count, num, den) < 0 ==> -MicrosPerSecond < tv.usec <= 0
    ensures tv == SplitMicroseconds(ToMicroseconds(count, num, den))
  {
    SplitMicroseconds(ToMicroseconds(count, num, den))
  }

  /** The seconds and microseconds a `timeval` stands for. */
  function TotalMicroseconds(tv: Timeval): int {
    tv.sec * MicrosPerSecond + tv.usec
  }

  predicate Normalised(tv: Timeval) {
    (tv.sec >= 0 && 0 <= tv.usec < MicrosPerSecond) || (tv.sec <= 0 && -MicrosPerSecond < tv.usec <= 0)
  }

  /** Splitting loses no time, and is the only normalised representation of it. */
  lemma SplitRoundTrip(usec: int, tv: Timeval)
    ensures TotalMicroseconds(SplitMicroseconds(usec)) == usec
    ensures Normalised(SplitMicroseconds(usec))
    ensures Normalised(tv) && TotalMicroseconds(tv) == usec ==> SplitMicroseconds(usec) == tv
  {
    var s := SplitMicroseconds(usec);
    TruncDivMod(usec, MicrosPerSecond);
    if Normalised(tv) && TotalMicroseconds(tv) == usec {
      if usec >= 0 {
        DivisionUnique(usec, tv.sec, tv.usec);
        DivisionUnique(usec, s.sec, s.usec);
      } else {
        DivisionUnique(-usec, -tv.sec, -tv.usec);
        DivisionUnique(-usec, -s.sec, -s.usec);
      }
    }
  }

  /** The quotient and remainder of a non-negative number by one million are unique. */
  lemma DivisionUnique(u: int, q: int, r: int)
    requires u >= 0 && 0 <= r < MicrosPerSecond && q * MicrosPerSecond + r == u
    ensures q == u / MicrosPerSecond && r == u % MicrosPerSecond
  {
  }

  /** The chrono test cases: one second, and twenty milliseconds. */
  lemma ToTimevalExamples()
    ensures ToTimeval(1, 1, 1) == Timeval(1, 0)
    ensures ToTimeval(20, 1, 1000) == Timeval(0, 20000)
  {
    assert ToMicroseconds(1, 1, 1) == 1_000_000;
    assert ToMicroseconds(20, 1, 1000) == 20_000;
  }

  /**
   * A negative duration, which the tests do not cover: -1500 ms splits into
   * -1 s and -500000 us, both truncated toward zero as C++ `/` and `%` do.
   */
  lemma ToTimevalNegativeExample()
    ensures ToTimeval(-1500, 1, 1000) == Timeval(-1, -500000)
  {
    assert ToMicroseconds(-1500, 1, 1000) == -1_500_000;
  }
}
