/**
 * The `operator <<` overloads of `myactuator_rmd/io.hpp`, each as the
 * string it appends to the stream. An enumeration prints as "0x", its
 * value in zero-padded lowercase hexadecimal, and a description chosen by
 * a switch with a catch-all for values the enumeration does not list.
 */
module Io {
  import opened Integers
  import opened Text
  import opened ActuatorState

  /** "0x" and `v` in `w` zero-padded hexadecimal digits, then `suffix`. */
  function HexField(v: nat, w: nat, suffix: string): (s: string)
    requires 1 <= w && v < Pow16(w)
    ensures |s| == 2 + w + |suffix|
    ensures s[..2] == "0x" && s[2 + w..] == suffix
    ensures AllHexDigits(s[2..2 + w]) && HexValue(s[2..2 + w]) == v
  {
    ZeroPaddedHexWidth(v, w);
    var s := "0x" + ZeroPaddedHex(v, w) + suffix;
    assert s[2..2 + w] == ZeroPaddedHex(v, w);
    s
  }

  // ---- AccelerationType ----

  function AccelerationTypeDescription(t: AccelerationType): (d: string)
    ensures d == " (unknown acceleration type)" <==> t > 3
  {
    if t == PositionPlanningAcceleration then " (position planning acceleration)"
    else if t == PositionPlanningDeceleration then " (position planning deceleration)"
    else if t == VelocityPlanningAcceleration then " (velocity planning acceleration)"
    else if t == VelocityPlanningDeceleration then " (velocity planning deceleration)"
    else " (unknown acceleration type)"
  }

  /** `os << AccelerationType`: the value in two hex digits, then its description. */
  function FormatAccelerationType(t: AccelerationType): (s: string)
    ensures |s| > 4 && s[..2] == "0x" && AllHexDigits(s[2..4]) && HexValue(s[2..4]) == t
    ensures s[4..] == AccelerationTypeDescription(t)
  {
    HexField(t, 2, AccelerationTypeDescription(t))
  }

  // ---- CanBaudRate ----

  function CanBaudRateDescription(b: CanBaudRate): (d: string)
    ensures d == " (unknown baud rate)" <==> b > 1
  {
    if b == Kbps500 then " (500 kbps)"
    else if b == Mbps1 then " (1 Mbps)"
    else " (unknown baud rate)"
  }

  /** `os << CanBaudRate`. */
  function FormatCanBaudRate(b: CanBaudRate): (s: string)
    ensures |s| > 4 && s[..2] == "0x" && AllHexDigits(s[2..4]) && HexValue(s[2..4]) == b
    ensures s[4..] == CanBaudRateDescription(b)
  {
    HexField(b, 2, CanBaudRateDescription(b))
  }

  // ---- ControlMode ----

  function ControlModeDescription(m: ControlMode): (d: string)
    ensures d == " (unknown control mode)" <==> m > 3
  {
    if m == ControlModeNone then " (none)"
    else if m == ControlModeCurrent then " (current control mode)"
    else if m == ControlModeVelocity then " (velocity control mode)"
    else if m == ControlModePosition then " (position control mode)"
    else " (unknown control mode)"
  }

  /** `os << ControlMode`. */
  function FormatControlMode(m: ControlMode): (s: string)
    ensures |s| > 4 && s[..2] == "0x" && AllHexDigits(s[2..4]) && HexValue(s[2..4]) == m
    ensures s[4..] == ControlModeDescription(m)
  {
    HexField(m, 2, ControlModeDescription(m))
  }

  // ---- ErrorCode ----

  /** The error codes the enumeration lists. */
  predicate IsListedErrorCode(e: ErrorCode) {
    e == NoError || e == MotorStall || e == LowVoltage || e == Overvoltage || e == Overcurrent
    || e == PowerOverrun || e == Speeding || e == Unspecified1 || e == Unspecified2 || e == Unspecified3
    || e == Overtemperature || e == EncoderCalibrationError
  }

  function ErrorCodeDescription(e: ErrorCode): (d: string)
    ensures d == " (unknown error)" <==> !IsListedErrorCode(e)
    ensures d == " (unspecified error)" <==> e == 0x0200 || e == 0x0400 || e == 0x0800
  {
    if e == NoError then " (no error)"
    else if e == MotorStall then " (motor stall)"
    else if e == LowVoltage then " (low voltage)"
    else if e == Overvoltage then " (overvoltage)"
    else if e == Overcurrent then " (overcurrent)"
    else if e == PowerOverrun then " (power overrun)"
    else if e == Speeding then " (speeding)"
    else if e == Unspecified1 || e == Unspecified2 || e == Unspecified3 then " (unspecified error)"
    else if e == Overtemperature then " (overtemperature)"
    else if e == EncoderCalibrationError then " (encoder calibration error)"
    else " (unknown error)"
  }

  /**
   * `os << ErrorCode`: the code in four hex digits. The three unspecified
   * codes share a description, and every value the enumeration does not
   * list, a combination of several error bits included, is "unknown".
   */
  function FormatErrorCode(e: ErrorCode): (s: string)
    ensures |s| > 6 && s[..2] == "0x" && AllHexDigits(s[2..6]) && HexValue(s[2..6]) == e
    ensures s[6..] == ErrorCodeDescription(e)
  {
    HexField(e, 4, ErrorCodeDescription(e))
  }

  /** Sample outputs of the enumeration printers: digits, then description. */
  lemma FormatCanBaudRateExamples(slow: CanBaudRate, fast: CanBaudRate)
    requires slow == 0 && fast == 1
    ensures FormatCanBaudRate(slow) == "0x" + "00" + " (500 kbps)"
    ensures FormatCanBaudRate(fast) == "0x" + "01" + " (1 Mbps)"
  {
    SmallPadded(slow, 2);
    assert ZeroPaddedHex(slow, 2) == "00" && CanBaudRateDescription(slow) == " (500 kbps)";
    SmallPadded(fast, 2);
    assert ZeroPaddedHex(fast, 2) == "01" && CanBaudRateDescription(fast) == " (1 Mbps)";
  }

  lemma FormatControlModeExample(m: ControlMode)
    requires m == 3
    ensures FormatControlMode(m) == "0x" + "03" + " (position control mode)"
  {
    SmallPadded(m, 2);
  }

  /** A combination of two error bits is not a listed code. */
  lemma FormatErrorCodeExample(e: ErrorCode)
    requires e == LowVoltage + MotorStall
    ensures FormatErrorCode(e) == "0x" + "0006" + " (unknown error)"
  {
    SmallPadded(e, 4);
  }

  // ---- PiGains and Gains ----

  /** `os << PiGains`: both gains as decimal integers. */
  function FormatPiGains(g: PiGains): (s: string)
    ensures |s| > 4 && s[..4] == "kp: "
    ensures forall i :: 0 <= i < |s| ==> s[i] != '}'
  {
    "kp: " + (Decimal(g.kp) + (", ki: " + Decimal(g.ki)))
  }

  /** `os << Gains`: the three loops in braces, each in the `PiGains` format. */
  function FormatGains(g: Gains): (s: string)
    ensures |s| > 10 && s[..10] == "current: {" && s[|s| - 1] == '}'
  {
    "current: {" + (FormatPiGains(g.current) + ("}, speed: {" + (FormatPiGains(g.speed)
      + ("}, position: {" + (FormatPiGains(g.position) + "}")))))
  }

  /** The index of the first `ch` in `s`, or `|s|` when there is none. */
  function FirstIndex(s: string, ch: char): (k: nat)
    ensures k <= |s|
  {
    if s == [] then 0 else if s[0] == ch then 0 else 1 + FirstIndex(s[1..], ch)
  }

  lemma {:induction false} FirstIndexAfter(a: string, rest: string, ch: char)
    requires forall i :: 0 <= i < |a| ==> a[i] != ch
    requires |rest| > 0 && rest[0] == ch
    ensures FirstIndex(a + rest, ch) == |a|
  {
    if a == [] {
      assert a + rest == rest;
    } else {
      assert (a + rest)[1..] == a[1..] + rest;
      FirstIndexAfter(a[1..], rest, ch);
    }
  }

  /**
   * Two strings `a + sep + b` and `c + sep + d` are equal only piecewise
   * when neither `a` nor `c` contains the first character of `sep`.
   */
  lemma UniqueSplit(a: string, sep: string, b: string, c: string, d: string)
    requires |sep| > 0
    requires forall i :: 0 <= i < |a| ==> a[i] != sep[0]
    requires forall i :: 0 <= i < |c| ==> c[i] != sep[0]
    requires a + (sep + b) == c + (sep + d)
    ensures a == c && b == d
  {
    var l := a + (sep + b);
    FirstIndexAfter(a, sep + b, sep[0]);
    FirstIndexAfter(c, sep + d, sep[0]);
    assert a == l[..|a|] == c;
    assert sep + b == l[|a|..] == sep + d;
    assert b == (sep + b)[|sep|..] == d;
  }

  lemma CommonPrefix(p: string, x: string, y: string)
    requires p + x == p + y
    ensures x == y
  {
    assert x == (p + x)[|p|..];
  }

  lemma DecimalInjective(m: nat, n: nat)
    requires Decimal(m) == Decimal(n)
    ensures m == n
  {
  }

  /** The `PiGains` printer loses nothing: distinct gains print differently. */
  lemma FormatPiGainsInjective(g: PiGains, h: PiGains)
    requires FormatPiGains(g) == FormatPiGains(h)
    ensures g == h
  {
    var a, b := Decimal(g.kp), Decimal(g.ki);
    var c, d := Decimal(h.kp), Decimal(h.ki);
    assert a + (", ki: " + b) == FormatPiGains(g)[4..];
    assert c + (", ki: " + d) == FormatPiGains(h)[4..];
    UniqueSplit(a, ", ki: ", b, c, d);
    DecimalInjective(g.kp, h.kp);
    DecimalInjective(g.ki, h.ki);
  }

  /** The `Gains` printer loses nothing: distinct gains print differently. */
  lemma FormatGainsInjective(g: Gains, h: Gains)
    requires FormatGains(g) == FormatGains(h)
    ensures g == h
  {
    var c1, s1, p1 := FormatPiGains(g.current), FormatPiGains(g.speed), FormatPiGains(g.position);
    var c2, s2, p2 := FormatPiGains(h.current), FormatPiGains(h.speed), FormatPiGains(h.position);
    var rest1 := s1 + ("}, position: {" + (p1 + "}"));
    var rest2 := s2 + ("}, position: {" + (p2 + "}"));
    CommonPrefix("current: {", c1 + ("}, speed: {" + rest1), c2 + ("}, speed: {" + rest2));
    UniqueSplit(c1, "}, speed: {", rest1, c2, rest2);
    UniqueSplit(s1, "}, position: {", p1 + "}", s2, p2 + "}");
    assert p1 == (p1 + "}")[..|p1|];
    assert p2 == (p2 + "}")[..|p2|];
    FormatPiGainsInjective(g.current, h.current);
    FormatPiGainsInjective(g.speed, h.speed);
    FormatPiGainsInjective(g.position, h.position);
  }

  /**
   * The `PiGains` text can be read back: after "kp: " come the digits of kp
   * up to the first comma, then ", ki: ", then the digits of ki.
   */
  lemma FormatPiGainsLayout(g: PiGains)
    ensures var s := FormatPiGains(g);
      var n := FirstIndex(s[4..], ',');
      4 + n + 6 <= |s| && s[..4] == "kp: "
      && AllDecimalDigits(s[4..4 + n]) && DecimalValue(s[4..4 + n]) == g.kp
      && s[4 + n..4 + n + 6] == ", ki: "
      && AllDecimalDigits(s[4 + n + 6..]) && DecimalValue(s[4 + n + 6..]) == g.ki
  {
    var a, b := Decimal(g.kp), Decimal(g.ki);
    PiFrame(FormatPiGains(g), a, b);
  }

  /** The frame of `os << PiGains` around two texts, the first without a comma. */
  lemma PiFrame(s: string, a: string, b: string)
    requires forall i :: 0 <= i < |a| ==> a[i] != ','
    requires s == "kp: " + (a + (", ki: " + b))
    ensures FirstIndex(s[4..], ',') == |a| && 4 + |a| + 6 <= |s|
    ensures s[..4] == "kp: " && s[4..4 + |a|] == a
    ensures s[4 + |a|..4 + |a| + 6] == ", ki: " && s[4 + |a| + 6..] == b
  {
    var rest := ", ki: " + b;
    assert s[4..] == a + rest;
    FirstIndexAfter(a, rest, ',');
    assert s[4..4 + |a|] == (a + rest)[..|a|] == a;
    assert s[4 + |a|..] == rest;
    assert s[4 + |a|..4 + |a| + 6] == rest[..6] == ", ki: ";
    assert s[4 + |a| + 6..] == rest[6..] == b;
  }

  /**
   * `s` reads back as the three texts `c`, `v` and `p`: each sits between its
   * opening brace and the next closing brace, framed by "current: {",
   * "}, speed: {", "}, position: {" and a final "}".
   */
  predicate GainsFrame(s: string, c: string, v: string, p: string) {
    10 <= |s| &&
    var n1 := FirstIndex(s[10..], '}');
    var i1 := 10 + n1 + 11;
    i1 <= |s| &&
    var n2 := FirstIndex(s[i1..], '}');
    var i2 := i1 + n2 + 14;
    i2 < |s| && s[..10] == "current: {"
    && s[10..10 + n1] == c && s[10 + n1..i1] == "}, speed: {"
    && s[i1..i1 + n2] == v && s[i1 + n2..i2] == "}, position: {"
    && s[i2..|s| - 1] == p && s[|s| - 1] == '}'
  }

  /** The `Gains` text reads back as the three loops' `PiGains` texts. */
  lemma FormatGainsLayout(g: Gains)
    ensures GainsFrame(FormatGains(g), FormatPiGains(g.current), FormatPiGains(g.speed), FormatPiGains(g.position))
  {
    FramedLayout(FormatPiGains(g.current), FormatPiGains(g.speed), FormatPiGains(g.position));
  }

  /** The frame of `os << Gains` around three texts without a closing brace. */
  lemma FramedLayout(c: string, v: string, p: string)
    requires forall i :: 0 <= i < |c| ==> c[i] != '}'
    requires forall i :: 0 <= i < |v| ==> v[i] != '}'
    ensures GainsFrame("current: {" + (c + ("}, speed: {" + (v + ("}, position: {" + (p + "}"))))), c, v, p)
  {
    var tail := "}, position: {" + (p + "}");
    var rest := "}, speed: {" + (v + tail);
    var s := "current: {" + (c + rest);
    assert s[10..] == c + rest;
    FirstIndexAfter(c, rest, '}');
    var i1 := 10 + |c| + 11;
    assert s[i1..] == v + tail by {
      assert s[10 + |c|..] == rest;
      assert rest[11..] == v + tail;
    }
    FirstIndexAfter(v, tail, '}');
    var i2 := i1 + |v| + 14;
    assert s[i2..] == p + "}" by {
      assert s[i1 + |v|..] == tail;
      assert tail[14..] == p + "}";
    }
    assert s[10..10 + |c|] == c && s[10 + |c|..i1] == "}, speed: {";
    assert s[i1..i1 + |v|] == v && s[i1 + |v|..i2] == "}, position: {";
    assert s[i2..|s| - 1] == p;
    assert GainsFrame(s, c, v, p);
  }

  /** The gains of the controller-gains tests print as expected. */
  lemma FormatPiGainsExample()
    ensures FormatPiGains(PiGains(85, 25)) == "kp: 85, ki: 25"
  {
    assert Decimal(85) == "85" && Decimal(25) == "25";
  }
}
