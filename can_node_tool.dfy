/**
 * The command-line parsing of the manual SocketCAN test program
 * (`test/can_node.cpp`): `removeSubstr`, `std::stoul(s, nullptr, 16)` and
 * the send branch, which turns an identifier and a hexadecimal payload
 * string into the frame it writes.
 */
module CanNodeTool {
  import opened Wrappers
  import opened Integers
  import opened Errors
  import opened Codec
  import opened Text
  import opened SocketCan

  // ---- removeSubstr ----

  /** `sub` occurs in `s` at index `i`. */
  predicate OccursAt(s: string, sub: string, i: nat) {
    i + |sub| <= |s| && s[i..i + |sub|] == sub
  }

  predicate Occurs(s: string, sub: string) {
    exists i: nat | i <= |s| :: OccursAt(s, sub, i)
  }

  /** `s.find(sub, i)`: the first occurrence at index `i` or later. */
  function FindFrom(s: string, sub: string, i: nat): (r: Option<nat>)
    ensures r.Some? ==> i <= r.value && OccursAt(s, sub, r.value)
    ensures r.Some? ==> forall j: nat :: i <= j < r.value ==> !OccursAt(s, sub, j)
    ensures r.None? ==> forall j: nat :: i <= j ==> !OccursAt(s, sub, j)
    decreases |s| - i
  {
    if i + |sub| > |s| then None
    else if s[i..i + |sub|] == sub then Some(i)
    else FindFrom(s, sub, i + 1)
  }

  /** `s.find(sub)`: the leftmost occurrence, or `npos` (`None`). */
  function Find(s: string, sub: string): (r: Option<nat>)
    ensures r.None? <==> !Occurs(s, sub)
    ensures r.Some? ==> OccursAt(s, sub, r.value) && forall j: nat :: j < r.value ==> !OccursAt(s, sub, j)
  {
    FindFrom(s, sub, 0)
  }

  /**
   * The string `removeSubstr(str, sub)` leaves: the leftmost occurrence is
   * erased and the search starts again from the beginning, so occurrences
   * that an erase brings together are removed too. An empty `sub` is
   * excluded: `find` then matches at 0 forever and the loop never ends.
   */
  function RemoveAll(s: string, sub: string): (r: string)
    requires |sub| > 0
    ensures |r| <= |s| && (Occurs(s, sub) ==> |r| <= |s| - |sub|)
    ensures !Occurs(r, sub)
    decreases |s|
  {
    match Find(s, sub)
    case None => s
    case Some(i) => RemoveAll(s[..i] + s[i + |sub|..], sub)
  }

  /** Nothing is removed from a string without occurrences. */
  lemma RemoveAllAbsent(s: string, sub: string)
    requires |sub| > 0 && !Occurs(s, sub)
    ensures RemoveAll(s, sub) == s
  {
  }

  /** Removing again changes nothing. */
  lemma RemoveAllIdempotent(s: string, sub: string)
    requires |sub| > 0
    ensures RemoveAll(RemoveAll(s, sub), sub) == RemoveAll(s, sub)
  {
    RemoveAllAbsent(RemoveAll(s, sub), sub);
  }

  /** `removeSubstr(str, sub)`, erasing in a loop until `find` reports `npos`. */
  method RemoveSubstr(str: string, sub: string) returns (r: string)
    requires |sub| > 0
    ensures r == RemoveAll(str, sub)
  {
    r := str;
    var i := Find(r, sub);
    while i.Some?
      invariant i == Find(r, sub)
      invariant RemoveAll(r, sub) == RemoveAll(str, sub)
      decreases |r|
    {
      RemoveAllStep(r, sub, i.value);
      r := r[..i.value] + r[i.value + |sub|..];
      i := Find(r, sub);
    }
  }

  /** One erase of the leftmost occurrence leaves the final result unchanged. */
  lemma RemoveAllStep(s: string, sub: string, i: nat)
    requires |sub| > 0 && Find(s, sub) == Some(i)
    ensures RemoveAll(s[..i] + s[i + |sub|..], sub) == RemoveAll(s, sub)
  {
  }

  /** An erase can join two halves into a new occurrence, which is removed as well. */
  lemma RemoveAllExample()
    ensures RemoveAll("00xx", "0x") == ""
    ensures RemoveAll("0xA4", "0x") == "A4"
  {
    assert Find("00xx", "0x") == Some(1) by {
      assert "00xx"[0..2][1] == '0';
      assert OccursAt("00xx", "0x", 1);
    }
    assert "00xx"[..1] + "00xx"[3..] == "0x";
    assert Find("0x", "0x") == Some(0);
    assert ""[..0] + "0x"[2..] == "";
    assert Find("", "0x") == None;
    assert Find("0xA4", "0x") == Some(0);
    assert "0xA4"[..0] + "0xA4"[2..] == "A4";
    assert Find("A4", "0x") == None by {
      assert "A4"[0..2][1] == '4';
    }
  }

  // ---- std::stoul(s, nullptr, 16) ----

  const ULongModulus: int := 0x1_0000_0000_0000_0000

  /** `std::isspace` in the "C" locale. */
  predicate IsSpace(c: char) {
    c == ' ' || 9 <= c as int <= 13
  }

  /** The number of leading characters of `s` that satisfy `IsSpace`. */
  function LeadingSpaces(s: string): (n: nat)
    ensures n <= |s| && (forall k :: 0 <= k < n ==> IsSpace(s[k])) && (n < |s| ==> !IsSpace(s[n]))
  {
    if s == [] || !IsSpace(s[0]) then 0 else 1 + LeadingSpaces(s[1..])
  }

  /** The length of the longest prefix of `s` made of hexadecimal digits. */
  function HexRun(s: string): (n: nat)
    ensures n <= |s| && AllHexDigits(s[..n]) && (n < |s| ==> !IsHexDigit(s[n]))
  {
    if s == [] || !IsHexDigit(s[0]) then 0
    else
      var n := 1 + HexRun(s[1..]);
      assert s[..n] == [s[0]] + s[1..][..n - 1];
      n
  }

  /** Every character a hexadecimal digit: the whole string is the run. */
  lemma {:induction false} HexRunAll(s: string)
    requires AllHexDigits(s)
    ensures HexRun(s) == |s|
  {
    if s != [] {
      HexRunAll(s[1..]);
    }
  }

  /** The index after the leading white space and an optional sign. */
  function SignEnd(s: string): (j: nat)
    ensures j <= |s|
  {
    var i := LeadingSpaces(s);
    if i < |s| && (s[i] == '+' || s[i] == '-') then i + 1 else i
  }

  /** The sign is a minus. */
  predicate IsNegative(s: string) {
    var i := LeadingSpaces(s);
    i < |s| && s[i] == '-'
  }

  /** The index of the first digit: after the sign, and after "0x" or "0X" when a digit follows it. */
  function DigitsStart(s: string): (k: nat)
    ensures SignEnd(s) <= k <= |s|
  {
    var j := SignEnd(s);
    if j + 2 < |s| && s[j] == '0' && (s[j + 1] == 'x' || s[j + 1] == 'X') && IsHexDigit(s[j + 2]) then j + 2 else j
  }

  /**
   * `std::stoul(s, nullptr, 16)` with a 64-bit `unsigned long`: leading
   * white space, an optional sign, an optional "0x"/"0X" (taken only when a
   * digit follows), then the longest run of hexadecimal digits of either
   * case. No digit throws `invalid_argument`; a value of 2^64 or more throws
   * `out_of_range`; a minus sign negates modulo 2^64. Characters after the
   * run are ignored.
   */
  function Stoul16(s: string): (r: Result<uint64, Error>)
    ensures r.Failure? ==> r.error == InvalidArgument || r.error == OutOfRange
    ensures r.Failure? && r.error == InvalidArgument <==> HexRun(s[DigitsStart(s)..]) == 0
  {
    var k := DigitsStart(s);
    var n := HexRun(s[k..]);
    if n == 0 then Failure(InvalidArgument)
    else ToULong(HexValue(s[k..][..n]), IsNegative(s))
  }

  /** The value of the digits as `unsigned long`: `out_of_range` from 2^64 on, negated modulo 2^64 after a minus. */
  function ToULong(v: nat, negative: bool): (r: Result<uint64, Error>)
    ensures r.Failure? <==> v >= ULongModulus
    ensures r.Failure? ==> r.error == OutOfRange
    ensures r.Success? && !negative ==> r.value == v
    ensures r.Success? && negative ==> (r.value + v) % ULongModulus == 0
  {
    if v >= ULongModulus then Failure(OutOfRange)
    else if negative then Success((ULongModulus - v) % ULongModulus)
    else Success(v)
  }

  /** `stoul` reads back every numeral that `std::hex` prints. */
  lemma Stoul16OfHex(v: nat)
    requires v < ULongModulus
    ensures Stoul16(Hex(v)) == Success(v)
  {
    var h := Hex(v);
    assert LeadingSpaces(h) == 0 && !IsNegative(h) && SignEnd(h) == 0 by {
      assert IsHexDigit(h[0]);
    }
    assert DigitsStart(h) == 0 by {
      if |h| > 1 {
        assert IsHexDigit(h[1]);
      }
    }
    HexRunAll(h);
    assert h[0..][..|h|] == h;
  }

  /** ... and the same numeral after a "0x" prefix. */
  lemma Stoul16OfPrefixedHex(v: nat)
    requires v < ULongModulus
    ensures Stoul16("0x" + Hex(v)) == Success(v)
  {
    var h := Hex(v);
    var p := "0x" + h;
    assert LeadingSpaces(p) == 0 && !IsNegative(p) && SignEnd(p) == 0 by {
      assert p[0] == '0';
    }
    assert DigitsStart(p) == 2 by {
      assert p[2] == h[0] && IsHexDigit(h[0]);
    }
    HexRunAll(h);
    assert p[2..][..|h|] == h;
  }

  /** Two characters never overflow: a chunk of the payload either parses or has no digit. */
  lemma Stoul16TwoCharacters(s: string)
    requires |s| == 2
    ensures Stoul16(s).Failure? ==> Stoul16(s).error == InvalidArgument
  {
    var k := DigitsStart(s);
    var n := HexRun(s[k..]);
    if n > 0 {
      assert Pow16(n) <= 256 by {
        assert n == 1 || n == 2;
      }
    }
  }

  lemma Stoul16PrefixedExample(s: string)
    requires s == "0x141"
    ensures Stoul16(s) == Success(0x141)
  {
    assert Hex(0x141) == "141";
    assert s == "0x" + Hex(0x141);
    Stoul16OfPrefixedHex(0x141);
  }

  /** Upper-case digits are accepted too. */
  lemma Stoul16UpperCaseExample()
    ensures Stoul16("A4") == Success(0xA4)
  {
    assert DigitsStart("A4") == 0;
    HexRunAll("A4");
    assert "A4"[0..][..2] == "A4";
    assert "A4"[..1] == "A";
  }

  lemma Stoul16NoDigitExample()
    ensures Stoul16("zz") == Failure(InvalidArgument)
  {
    assert DigitsStart("zz") == 0;
    assert HexRun("zz") == 0;
  }

  /** A minus sign wraps around, as `strtoul` does. */
  lemma Stoul16NegativeExample()
    ensures Stoul16("-1") == Success(ULongModulus - 1)
  {
    assert LeadingSpaces("-1") == 0;
    assert DigitsStart("-1") == 1;
    assert "-1"[1..] == "1";
    HexRunAll("1");
    assert "1"[..1] == "1";
  }

  // ---- the payload of the send branch ----

  /** Payload byte `i`: `static_cast<std::uint8_t>(std::stoul(data.substr(2*i, 2), nullptr, 16))`. */
  function ChunkByte(data: string, i: nat): (r: Result<uint8, Error>)
    requires 2 * i + 2 <= |data|
    ensures r.Failure? ==> r.error == InvalidArgument
  {
    Stoul16TwoCharacters(data[2 * i..2 * i + 2]);
    CastByte(Stoul16(data[2 * i..2 * i + 2]))
  }

  /** `static_cast<std::uint8_t>` of a parse: the low eight bits of the value, or the parse's exception. */
  function CastByte(r: Result<uint64, Error>): (b: Result<uint8, Error>)
    ensures r.Failure? ==> b == Failure(r.error)
    ensures r.Success? ==> b.Success? && b.value == r.value % 0x100
    ensures r.Success? && r.value < 0x100 ==> b == Success(r.value)
  {
    match r
    case Failure(e) => Failure(e)
    case Success(v) => Success(v % 0x100)
  }

  /** The outcome of every two-character chunk of `data`, in order. */
  function Chunks(data: string): (rs: seq<Result<uint8, Error>>)
    ensures |rs| == |data| / 2
  {
    seq(|data| / 2, k requires 0 <= k < |data| / 2 => ChunkByte(data, k))
  }

  /**
   * The bytes of a sequence of chunk outcomes, taken in order: the first
   * failure decides the error, as the first `stoul` that throws ends the
   * loop.
   */
  function Collect(rs: seq<Result<uint8, Error>>): (r: Result<seq<uint8>, Error>)
    ensures r.Success? ==> |r.value| == |rs|
  {
    if rs == [] then Success([])
    else match Collect(rs[..|rs| - 1])
      case Failure(e) => Failure(e)
      case Success(bytes) =>
        match rs[|rs| - 1]
        case Failure(e) => Failure(e)
        case Success(b) => Success(bytes + [b])
  }

  /** Byte `k` of a successful collection is the value of outcome `k`. */
  lemma {:induction false} CollectBytes(rs: seq<Result<uint8, Error>>, k: nat)
    requires k < |rs| && Collect(rs).Success?
    ensures rs[k] == Success(Collect(rs).value[k])
  {
    var init := rs[..|rs| - 1];
    if k < |init| {
      CollectBytes(init, k);
      assert init[k] == rs[k];
    }
  }

  /** Outcomes that all succeed collect to their values. */
  lemma {:induction false} CollectAll(rs: seq<Result<uint8, Error>>, bytes: seq<uint8>)
    requires |rs| == |bytes|
    requires forall k :: 0 <= k < |rs| ==> rs[k] == Success(bytes[k])
    ensures Collect(rs) == Success(bytes)
  {
    if rs != [] {
      var n := |rs| - 1;
      CollectAll(rs[..n], bytes[..n]);
      assert bytes == bytes[..n] + [bytes[n]];
    }
  }

  /**
   * A collection fails exactly when some outcome does, and then with the
   * error of the first failing outcome.
   */
  lemma {:induction false} CollectFailure(rs: seq<Result<uint8, Error>>)
    ensures Collect(rs).Failure? <==> exists k :: 0 <= k < |rs| && rs[k].Failure?
    ensures Collect(rs).Failure? ==> exists k :: 0 <= k < |rs| && rs[k] == Failure(Collect(rs).error) && FirstFailure(rs, k)
  {
    if rs != [] {
      var n := |rs| - 1;
      var init := rs[..n];
      CollectFailure(init);
      assert forall j :: 0 <= j < n ==> init[j] == rs[j];
      if Collect(init).Success? {
        if rs[n].Failure? {
          assert FirstFailure(rs, n);
        }
      } else {
        var k :| 0 <= k < n && init[k] == Failure(Collect(init).error) && FirstFailure(init, k);
        assert FirstFailure(rs, k);
      }
    }
  }

  /** Outcome `k` is the first failing one. */
  predicate FirstFailure(rs: seq<Result<uint8, Error>>, k: nat)
    requires k < |rs|
  {
    rs[k].Failure? && forall j :: 0 <= j < k ==> rs[j].Success?
  }

  /** Outcomes that can only fail with `e` collect to a failure with `e`, if any. */
  lemma {:induction false} CollectError(rs: seq<Result<uint8, Error>>, e: Error)
    requires forall k :: 0 <= k < |rs| && rs[k].Failure? ==> rs[k].error == e
    ensures Collect(rs).Failure? ==> Collect(rs).error == e
  {
    if rs != [] {
      var n := |rs| - 1;
      assert forall k :: 0 <= k < n ==> rs[..n][k] == rs[k];
      CollectError(rs[..n], e);
    }
  }

  /** One more successful outcome extends the collected prefix by its value. */
  lemma CollectStep(rs: seq<Result<uint8, Error>>, i: nat, bytes: seq<uint8>, b: uint8)
    requires i < |rs| && Collect(rs[..i]) == Success(bytes) && rs[i] == Success(b)
    ensures Collect(rs[..i + 1]) == Success(bytes + [b])
  {
    assert rs[..i + 1][..i] == rs[..i];
  }

  /** The first failing outcome decides the collection of the whole sequence. */
  lemma {:induction false} CollectStops(rs: seq<Result<uint8, Error>>, i: nat)
    requires i < |rs| && Collect(rs[..i]).Success? && rs[i].Failure?
    ensures Collect(rs) == Failure(rs[i].error)
    decreases |rs|
  {
    var n := |rs| - 1;
    if i == n {
      assert rs[..n] == rs[..i];
    } else {
      var init := rs[..n];
      assert init[..i] == rs[..i] && init[i] == rs[i];
      CollectStops(init, i);
    }
  }

  /**
   * The array the send branch builds from the payload string (after the
   * "0x" were removed): `runtime_error` for an odd length or more than 16
   * characters; otherwise the parsed bytes, zero after the last one.
   */
  function PayloadFromText(data: string): (r: Result<Payload, Error>)
    ensures r.Failure? && r.error == RuntimeError <==> |data| % 2 == 1 || |data| > 16
    ensures r.Failure? ==> r.error == RuntimeError || r.error == InvalidArgument
    ensures r.Success? ==> forall k :: |data| / 2 <= k < PayloadLength ==> r.value[k] == 0
  {
    if |data| % 2 == 1 || |data| > 16 then Failure(RuntimeError)
    else
      CollectError(Chunks(data), InvalidArgument);
      match Collect(Chunks(data))
      case Failure(e) => Failure(e)
      case Success(bytes) =>
        var payload: Payload := bytes + Codec.Zeros[|bytes|..];
        Success(payload)
  }

  /** Byte `k` of an accepted payload is what chunk `k` of the string parses to. */
  lemma PayloadFromTextChunks(data: string, k: nat)
    requires k < |data| / 2 && PayloadFromText(data).Success?
    ensures ChunkByte(data, k) == Success(PayloadFromText(data).value[k])
  {
    CollectBytes(Chunks(data), k);
  }

  /**
   * A payload string of the right length is refused exactly when one of its
   * chunks has no digit, and then with the error of the first such chunk.
   */
  lemma PayloadFromTextFailure(data: string)
    requires |data| % 2 == 0 && |data| <= 16
    ensures PayloadFromText(data).Failure? <==> exists k :: 0 <= k < |data| / 2 && ChunkByte(data, k).Failure?
    ensures PayloadFromText(data).Failure? ==>
      exists k :: 0 <= k < |data| / 2 && FirstFailure(Chunks(data), k) && ChunkByte(data, k) == Failure(PayloadFromText(data).error)
  {
    var rs := Chunks(data);
    CollectFailure(rs);
    assert forall k :: 0 <= k < |rs| ==> rs[k] == ChunkByte(data, k);
  }

  /** The parsing loop of the send branch, filling a zero-initialised array. */
  method ParsePayload(data: string) returns (r: Result<Payload, Error>)
    ensures r == PayloadFromText(data)
  {
    if |data| % 2 == 1 || |data| > 16 {
      return Failure(RuntimeError);
    }
    r := FillPayload(data);
  }

  /** The loop of `ParsePayload`, once the length is known to be even and at most 16. */
  method FillPayload(data: string) returns (r: Result<Payload, Error>)
    requires |data| % 2 == 0 && |data| <= 16
    ensures r == PayloadFromText(data)
  {
    var arr := new uint8[PayloadLength](_ => 0);
    var n := |data| / 2;
    ChunkCount(data, n);
    var i := 0;
    while i < n
      invariant 0 <= i <= n
      invariant Collect(Chunks(data)[..i]) == Success(arr[..i])
      invariant forall j :: i <= j < PayloadLength ==> arr[j] == 0
    {
      var chunk := ChunkByte(data, i);
      if chunk.Failure? {
        FailedChunk(data, i, arr[..i]);
        return Failure(chunk.error);
      }
      ParsedChunk(data, i, arr[..i], chunk.value);
      arr[i] := chunk.value;
      assert arr[..i + 1] == arr[..i] + [chunk.value];
      i := i + 1;
    }
    PayloadOfParsed(data, arr[..], i);
    return Success(arr[..]);
  }

  lemma ChunkCount(data: string, n: nat)
    requires |data| % 2 == 0 && |data| <= 16 && n == |data| / 2
    ensures 2 * n == |data| && n <= PayloadLength
  {
  }

  /** A chunk that parses extends the collected prefix by its byte. */
  lemma ParsedChunk(data: string, i: nat, bytes: seq<uint8>, b: uint8)
    requires i < |data| / 2 && Collect(Chunks(data)[..i]) == Success(bytes) && ChunkByte(data, i) == Success(b)
    ensures Collect(Chunks(data)[..i + 1]) == Success(bytes + [b])
  {
    CollectStep(Chunks(data), i, bytes, b);
  }

  /** A chunk that fails decides the result of the whole parse. */
  lemma FailedChunk(data: string, i: nat, bytes: seq<uint8>)
    requires |data| % 2 == 0 && |data| <= 16 && i < |data| / 2
    requires Collect(Chunks(data)[..i]) == Success(bytes) && ChunkByte(data, i).Failure?
    ensures PayloadFromText(data) == Failure(ChunkByte(data, i).error)
  {
    CollectStops(Chunks(data), i);
  }

  /** All chunks parsed into the front of a zero-initialised payload: that is the result. */
  lemma PayloadOfParsed(data: string, p: Payload, n: nat)
    requires |data| % 2 == 0 && |data| <= 16 && n == |data| / 2
    requires Collect(Chunks(data)[..n]) == Success(p[..n])
    requires forall j :: n <= j < PayloadLength ==> p[j] == 0
    ensures PayloadFromText(data) == Success(p)
  {
    assert Chunks(data)[..n] == Chunks(data);
    ZeroPadded(p, n);
  }

  /** A payload that is zero from `n` on is its first `n` bytes padded with zeros. */
  lemma ZeroPadded(p: Payload, n: nat)
    requires n <= PayloadLength && forall j :: n <= j < PayloadLength ==> p[j] == 0
    ensures p == p[..n] + Codec.Zeros[|p[..n]|..]
  {
    assert p[n..] == Codec.Zeros[n..];
  }

  /** The payload in the format the program expects: two hex digits per byte. */
  function PayloadText(bytes: seq<uint8>): (s: string)
    ensures |s| == 2 * |bytes| && IsLowerHex(s)
  {
    if bytes == [] then ""
    else
      var a, b := PayloadText(bytes[..|bytes| - 1]), HexByte(bytes[|bytes| - 1]);
      assert forall i :: 0 <= i < |a + b| ==> (a + b)[i] == if i < |a| then a[i] else b[i - |a|];
      a + b
  }

  lemma {:induction false} PayloadTextChunks(bytes: seq<uint8>, k: nat)
    requires k < |bytes|
    ensures PayloadText(bytes)[2 * k..2 * k + 2] == HexByte(bytes[k])
  {
    var init := bytes[..|bytes| - 1];
    var a, b := PayloadText(init), HexByte(bytes[|bytes| - 1]);
    assert PayloadText(bytes) == a + b;
    if k < |init| {
      PayloadTextChunks(init, k);
      assert (a + b)[2 * k..2 * k + 2] == a[2 * k..2 * k + 2];
    } else {
      assert (a + b)[|a|..] == b;
    }
  }

  /** `stoul` reads back the two digits of a byte. */
  lemma Stoul16OfHexByte(b: uint8)
    ensures Stoul16(HexByte(b)) == Success(b as int)
  {
    var h := HexByte(b);
    assert LeadingSpaces(h) == 0 && !IsNegative(h) && SignEnd(h) == 0 by {
      assert IsHexDigit(h[0]);
    }
    assert DigitsStart(h) == 0;
    HexRunAll(h);
    assert h[0..][..2] == h;
  }

  lemma ChunkOfHexByte(data: string, k: nat, b: uint8)
    requires 2 * k + 2 <= |data| && data[2 * k..2 * k + 2] == HexByte(b)
    ensures ChunkByte(data, k) == Success(b)
  {
    Stoul16OfHexByte(b);
  }

  /** Two hexadecimal digits of either case parse as the byte they denote. */
  lemma ChunkOfDigits(data: string, k: nat)
    requires 2 * k + 2 <= |data| && IsHexDigit(data[2 * k]) && IsHexDigit(data[2 * k + 1])
    ensures ChunkByte(data, k) == Success(16 * DigitValue(data[2 * k]) + DigitValue(data[2 * k + 1]))
  {
    var h := data[2 * k..2 * k + 2];
    assert h[0] == data[2 * k] && h[1] == data[2 * k + 1];
    Stoul16OfTwoDigits(h);
  }

  lemma Stoul16OfTwoDigits(h: string)
    requires |h| == 2 && IsHexDigit(h[0]) && IsHexDigit(h[1])
    ensures Stoul16(h) == Success(16 * DigitValue(h[0]) + DigitValue(h[1]))
    ensures 16 * DigitValue(h[0]) + DigitValue(h[1]) < 0x100
  {
    TwoDigitsValue(h);
    HexRunAll(h);
    assert h[0..][..2] == h;
  }

  lemma TwoDigitsValue(h: string)
    requires |h| == 2 && IsHexDigit(h[0]) && IsHexDigit(h[1])
    ensures AllHexDigits(h) && HexValue(h) == 16 * DigitValue(h[0]) + DigitValue(h[1])
  {
    assert h[..1] == [h[0]];
  }

  /** Chunks that all parse give the payload of their bytes, zero-padded to eight. */
  lemma PayloadOfChunks(data: string, bytes: seq<uint8>)
    requires |data| == 2 * |bytes| && |bytes| <= PayloadLength
    requires forall k :: 0 <= k < |bytes| ==> ChunkByte(data, k) == Success(bytes[k])
    ensures PayloadFromText(data).Success?
    ensures PayloadFromText(data).value == bytes + Codec.Zeros[|bytes|..]
  {
    CollectAll(Chunks(data), bytes);
  }

  /**
   * A string of an even number of at most 16 hexadecimal digits of either
   * case is accepted, byte `k` being the value of digits 2k and 2k+1.
   */
  lemma PayloadOfDigits(data: string)
    requires AllHexDigits(data) && |data| % 2 == 0 && |data| <= 16
    ensures PayloadFromText(data).Success?
    ensures forall k :: 0 <= k < |data| / 2 ==>
      PayloadFromText(data).value[k] == 16 * DigitValue(data[2 * k]) + DigitValue(data[2 * k + 1])
  {
    var bytes: seq<uint8> := seq(|data| / 2, k requires 0 <= k < |data| / 2 => 16 * DigitValue(data[2 * k]) + DigitValue(data[2 * k + 1]));
    forall k | 0 <= k < |bytes|
      ensures ChunkByte(data, k) == Success(bytes[k])
    {
      ChunkOfDigits(data, k);
    }
    PayloadOfChunks(data, bytes);
  }

  /** Every byte sequence of at most eight bytes survives printing and parsing. */
  lemma PayloadRoundTrip(bytes: seq<uint8>)
    requires |bytes| <= PayloadLength
    ensures PayloadFromText(PayloadText(bytes)).Success?
    ensures PayloadFromText(PayloadText(bytes)).value == bytes + Codec.Zeros[|bytes|..]
  {
    var text := PayloadText(bytes);
    forall k | 0 <= k < |bytes|
      ensures ChunkByte(text, k) == Success(bytes[k])
    {
      PayloadTextChunks(bytes, k);
      ChunkOfHexByte(text, k, bytes[k]);
    }
    PayloadOfChunks(text, bytes);
  }

  /**
   * The send branch: the identifier is parsed and cast to 32 bits, every
   * "0x" is removed from the payload string, the payload is parsed, and the
   * frame is written with eight data bytes. The first failing step decides
   * the exception.
   */
  function SendFrame(canId: string, data: string): (r: Result<CanFrame, Error>)
    ensures r.Success? <==> Stoul16(canId).Success? && PayloadFromText(RemoveAll(data, "0x")).Success?
    ensures r.Success? ==> r.value.dlc == 8 && r.value.canId == Stoul16(canId).value % Uint32Modulus
    ensures r.Success? ==> r.value.data == PayloadFromText(RemoveAll(data, "0x")).value
    ensures r.Failure? ==> r.error in {InvalidArgument, OutOfRange, RuntimeError}
  {
    FrameOf(Stoul16(canId), PayloadFromText(RemoveAll(data, "0x")))
  }

  /** The frame of a parsed identifier and payload, or the error of the first step that failed. */
  function FrameOf(id: Result<uint64, Error>, payload: Result<Payload, Error>): (r: Result<CanFrame, Error>)
  {
    match id
    case Failure(e) => Failure(e)
    case Success(v) =>
      match payload
      case Failure(e) => Failure(e)
      case Success(p) => Success(WriteFrame(v % Uint32Modulus, p))
  }

  /**
   * The send branch writes a frame exactly when the identifier and the
   * payload both parse; an identifier that does not parse decides the
   * error before the payload is looked at, and every error is one of the
   * three the branch can throw.
   */
  lemma SendFrameOutcome(canId: string, data: string)
    ensures SendFrame(canId, data).Success? <==> Stoul16(canId).Success? && PayloadFromText(RemoveAll(data, "0x")).Success?
    ensures Stoul16(canId).Failure? ==> SendFrame(canId, data) == Failure(Stoul16(canId).error)
    ensures SendFrame(canId, data).Success? ==> SendFrame(canId, data).value.dlc == 8
    ensures SendFrame(canId, data).Success? ==> SendFrame(canId, data).value.canId == Stoul16(canId).value % Uint32Modulus
    ensures SendFrame(canId, data).Success? ==> SendFrame(canId, data).value.data == PayloadFromText(RemoveAll(data, "0x")).value
    ensures SendFrame(canId, data).Failure? ==>
      SendFrame(canId, data).error in {InvalidArgument, OutOfRange, RuntimeError}
  {
  }

  /** The send branch as the program runs it: the removal and the parse are the loops above. */
  method Send(canId: string, data: string) returns (r: Result<CanFrame, Error>)
    ensures r == SendFrame(canId, data)
  {
    var id := Stoul16(canId);
    if id.Failure? {
      return Failure(id.error);
    }
    var payloadText := RemoveSubstr(data, "0x");
    var payload := ParsePayload(payloadText);
    if payload.Failure? {
      return Failure(payload.error);
    }
    return Success(WriteFrame(id.value % Uint32Modulus, payload.value));
  }

  /** A string of hexadecimal digits has no occurrence of a string ending in another character. */
  lemma DigitsHaveNoOccurrence(s: string, sub: string)
    requires |sub| > 0 && AllHexDigits(s) && !IsHexDigit(sub[|sub| - 1])
    ensures !Occurs(s, sub)
  {
    forall i: nat | i + |sub| <= |s|
      ensures !OccursAt(s, sub, i)
    {
      assert s[i..i + |sub|][|sub| - 1] == s[i + |sub| - 1];
      assert IsHexDigit(s[i + |sub| - 1]);
    }
  }

  /**
   * The program reads back what it is told to send: an identifier printed
   * in hexadecimal and eight bytes printed as two digits each, both behind
   * "0x", make the frame of that identifier and those bytes.
   */
  lemma SendFramePrinted(id: uint32, bytes: Payload)
    ensures SendFrame("0x" + Hex(id), "0x" + PayloadText(bytes)) == Success(CanFrame(id, 8, bytes))
  {
    Stoul16OfPrefixedHex(id);
    var text := PayloadText(bytes);
    RemovePrefix(text);
    PayloadRoundTrip(bytes);
    assert bytes + Codec.Zeros[8..] == bytes;
    SendFrameOf("0x" + Hex(id), "0x" + text, id, bytes);
  }

  lemma SendFrameOf(canId: string, data: string, id: uint32, payload: Payload)
    requires Stoul16(canId) == Success(id as int)
    requires PayloadFromText(RemoveAll(data, "0x")) == Success(payload)
    ensures SendFrame(canId, data) == Success(CanFrame(id, 8, payload))
  {
    FrameOfSuccess(Stoul16(canId), PayloadFromText(RemoveAll(data, "0x")), id, payload);
  }

  lemma FrameOfSuccess(a: Result<uint64, Error>, b: Result<Payload, Error>, id: uint32, payload: Payload)
    requires a == Success(id as int) && b == Success(payload)
    ensures FrameOf(a, b) == Success(CanFrame(id, 8, payload))
  {
    assert (id as int) % Uint32Modulus == id as int;
  }

  /** The payload text has no "0x", so only the prefix is removed. */
  lemma RemovePrefix(text: string)
    requires IsLowerHex(text)
    ensures RemoveAll("0x" + text, "0x") == text
  {
    var s := "0x" + text;
    assert OccursAt(s, "0x", 0);
    RemoveAllStep(s, "0x", 0);
    assert s[..0] + s[2..] == text;
    DigitsHaveNoOccurrence(text, "0x");
    RemoveAllAbsent(text, "0x");
  }
}
