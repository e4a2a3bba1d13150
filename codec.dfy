/**
 * The byte-level codec of the 8-byte CAN payload: fixed-width integers are
 * stored little-endian, signed ones in two's complement, at a byte offset
 * that is bounds-checked (`Message::setAt` / `Message::getAs`).
 */
module Codec {
  import opened Wrappers
  import opened Integers
  import opened Errors

  /** Number of data bytes of a classic CAN frame. */
  const PayloadLength: nat := 8

  type Payload = s: seq<uint8> | |s| == PayloadLength witness [0, 0, 0, 0, 0, 0, 0, 0]

  /** The value-initialised `std::array<std::uint8_t,8>`. */
  const Zeros: Payload := [0, 0, 0, 0, 0, 0, 0, 0]

  /** The integral types the protocol stores in a payload. */
  datatype IntType = U8 | I8 | U16 | I16 | U32 | I32 {
    /** `sizeof(T)` in bytes. */
    function Size(): (n: nat)
      ensures n == 1 || n == 2 || n == 4
    {
      match this
      case U8 | I8 => 1
      case U16 | I16 => 2
      case U32 | I32 => 4
    }

    predicate Signed() {
      this == I8 || this == I16 || this == I32
    }

    /** 2^(8 * sizeof(T)): the number of distinct values of the type. */
    function Modulus(): (m: nat)
      ensures m == Pow256(Size())
    {
      match this
      case U8 | I8 => 0x100
      case U16 | I16 => 0x1_0000
      case U32 | I32 => 0x1_0000_0000
    }

    /** `v` is a value of the type. */
    predicate Holds(v: int) {
      if Signed() then -(Modulus() / 2) <= v < Modulus() / 2 else 0 <= v < Modulus()
    }
  }

  function Pow256(n: nat): (p: nat)
    ensures p >= 1
  {
    if n == 0 then 1 else 256 * Pow256(n - 1)
  }

  /** The `n` least significant bytes of `u`, least significant first. */
  function EncodeLE(u: nat, n: nat): (r: seq<uint8>)
    requires u < Pow256(n)
    ensures |r| == n
  {
    if n == 0 then [] else [u % 256] + EncodeLE(u / 256, n - 1)
  }

  /** The unsigned number whose little-endian bytes are `s`. */
  function DecodeLE(s: seq<uint8>): (u: nat)
    ensures u < Pow256(|s|)
  {
    if s == [] then 0 else s[0] + 256 * DecodeLE(s[1..])
  }

  lemma {:induction false} DecodeEncodeLE(u: nat, n: nat)
    requires u < Pow256(n)
    ensures DecodeLE(EncodeLE(u, n)) == u
  {
    if n > 0 {
      DecodeEncodeLE(u / 256, n - 1);
      assert EncodeLE(u, n)[1..] == EncodeLE(u / 256, n - 1);
    }
  }

  lemma {:induction false} EncodeDecodeLE(s: seq<uint8>)
    ensures EncodeLE(DecodeLE(s), |s|) == s
  {
    if s != [] {
      EncodeDecodeLE(s[1..]);
      var u := DecodeLE(s);
      assert u % 256 == s[0] && u / 256 == DecodeLE(s[1..]);
    }
  }

  /** The bit pattern of `v` read as an unsigned number (two's complement). */
  function ToUnsigned(t: IntType, v: int): (u: nat)
    requires t.Holds(v)
    ensures u < t.Modulus()
    ensures (u - v) % t.Modulus() == 0
  {
    if v < 0 then v + t.Modulus() else v
  }

  /** The value of type `t` whose bit pattern is the unsigned number `u`. */
  function FromUnsigned(t: IntType, u: nat): (v: int)
    requires u < t.Modulus()
    ensures t.Holds(v)
    ensures (u - v) % t.Modulus() == 0
  {
    if t.Signed() && u >= t.Modulus() / 2 then u - t.Modulus() else u
  }

  /** The bytes `memcpy` copies out of a `T` holding `v` on a little-endian host. */
  function Representation(t: IntType, v: int): (r: seq<uint8>)
    requires t.Holds(v)
    ensures |r| == t.Size()
  {
    EncodeLE(ToUnsigned(t, v), t.Size())
  }

  /** The value of a `T` into which `memcpy` copied the bytes `s`. */
  function Value(t: IntType, s: seq<uint8>): (v: int)
    requires |s| == t.Size()
    ensures t.Holds(v)
  {
    FromUnsigned(t, DecodeLE(s))
  }

  /** Decoding the stored bytes gives back the stored value. */
  lemma ValueOfRepresentation(t: IntType, v: int)
    requires t.Holds(v)
    ensures Value(t, Representation(t, v)) == v
  {
    DecodeEncodeLE(ToUnsigned(t, v), t.Size());
  }

  /** Every byte string of the right width is the representation of exactly its value. */
  lemma RepresentationOfValue(t: IntType, s: seq<uint8>)
    requires |s| == t.Size()
    ensures Representation(t, Value(t, s)) == s
  {
    EncodeDecodeLE(s);
  }

  /** Two values of a type with the same bytes are equal. */
  lemma RepresentationInjective(t: IntType, v: int, w: int)
    requires t.Holds(v) && t.Holds(w)
    requires Representation(t, v) == Representation(t, w)
    ensures v == w
  {
    ValueOfRepresentation(t, v);
    ValueOfRepresentation(t, w);
  }

  /** A `T` at byte offset `i` lies within the payload. */
  predicate Fits(t: IntType, i: nat) {
    i + t.Size() <= PayloadLength
  }

  /** The value of type `t` stored at offset `i`. */
  function Read(p: Payload, t: IntType, i: nat): (v: int)
    requires Fits(t, i)
    ensures t.Holds(v)
    ensures Representation(t, v) == p[i..i + t.Size()]
  {
    RepresentationOfValue(t, p[i..i + t.Size()]);
    Value(t, p[i..i + t.Size()])
  }

  /** The representation of `v`, byte by byte, least significant first. */
  lemma RepresentationBytes(t: IntType, v: int)
    requires t.Holds(v)
    ensures var u := ToUnsigned(t, v);
      Representation(t, v) == if t.Size() == 1 then [u]
        else if t.Size() == 2 then [u % 0x100, u / 0x100]
        else [u % 0x100, u / 0x100 % 0x100, u / 0x1_0000 % 0x100, u / 0x100_0000]
  {
    var u := ToUnsigned(t, v);
    if t.Size() == 2 {
      EncodeTwoBytes(u);
    } else if t.Size() == 4 {
      EncodeFourBytes(u);
    }
  }

  lemma EncodeTwoBytes(u: nat)
    requires u < 0x1_0000
    ensures EncodeLE(u, 2) == [u % 0x100, u / 0x100]
  {
    assert EncodeLE(u, 2) == [u % 0x100] + EncodeLE(u / 0x100, 1);
  }

  lemma EncodeFourBytes(u: nat)
    requires u < 0x1_0000_0000
    ensures EncodeLE(u, 4) == [u % 0x100, u / 0x100 % 0x100, u / 0x1_0000 % 0x100, u / 0x100_0000]
  {
    assert u / 0x100 / 0x100 == u / 0x1_0000;
    assert u / 0x1_0000 / 0x100 == u / 0x100_0000;
    assert EncodeLE(u, 4) == [u % 0x100] + EncodeLE(u / 0x100, 3);
    assert EncodeLE(u / 0x100, 3) == [u / 0x100 % 0x100] + EncodeLE(u / 0x1_0000, 2);
    EncodeTwoBytes(u / 0x1_0000);
  }

  /** The unsigned number of one, two or four bytes, written out. */
  lemma DecodeBytes(s: seq<uint8>)
    requires |s| == 1 || |s| == 2 || |s| == 4
    ensures |s| == 1 ==> DecodeLE(s) == s[0] as int
    ensures |s| == 2 ==> DecodeLE(s) == s[0] as int + 0x100 * s[1] as int
    ensures |s| == 4 ==> DecodeLE(s) == s[0] as int + 0x100 * s[1] as int + 0x1_0000 * s[2] as int + 0x100_0000 * s[3] as int
  {
    if |s| == 4 {
      assert s[1..][1..] == s[2..] && s[2..][1..] == s[3..] && s[3..][1..] == [];
    } else if |s| == 2 {
      assert s[1..][1..] == [];
    } else {
      assert s[1..] == [];
    }
  }

  /** The value at offset `i`, computed from its bytes. */
  lemma ReadBytes(p: Payload, t: IntType, i: nat)
    requires Fits(t, i)
    ensures t.Size() == 1 ==> Read(p, t, i) == FromUnsigned(t, p[i] as int)
    ensures t.Size() == 2 ==> Read(p, t, i) == FromUnsigned(t, p[i] as int + 0x100 * p[i + 1] as int)
    ensures t.Size() == 4 ==> Read(p, t, i) == FromUnsigned(t, p[i] as int + 0x100 * p[i + 1] as int
      + 0x1_0000 * p[i + 2] as int + 0x100_0000 * p[i + 3] as int)
  {
    DecodeBytes(p[i..i + t.Size()]);
  }

  /** A field holds `v` exactly when its bytes are the representation of `v`. */
  lemma ReadIs(p: Payload, t: IntType, i: nat, v: int)
    requires Fits(t, i) && t.Holds(v)
    requires Representation(t, v) == p[i..i + t.Size()]
    ensures Read(p, t, i) == v
  {
    RepresentationInjective(t, Read(p, t, i), v);
  }

  /** `ReadIs` of a field whose bytes are given explicitly. */
  lemma ReadIsBytes(p: Payload, t: IntType, i: nat, v: int)
    requires Fits(t, i) && t.Holds(v)
    requires var u := ToUnsigned(t, v);
      p[i..i + t.Size()] == if t.Size() == 1 then [u]
        else if t.Size() == 2 then [u % 0x100, u / 0x100]
        else [u % 0x100, u / 0x100 % 0x100, u / 0x1_0000 % 0x100, u / 0x100_0000]
    ensures Read(p, t, i) == v
  {
    RepresentationBytes(t, v);
    ReadIs(p, t, i, v);
  }

  /** `getAs<T>(i)` on the payload `p`. */
  function Get(p: Payload, t: IntType, i: nat): (r: Result<int, Error>)
    ensures r.Success? <==> Fits(t, i)
    ensures r.Failure? ==> r.error == OutOfRange
    ensures r.Success? ==> t.Holds(r.value) && Representation(t, r.value) == p[i..i + t.Size()]
  {
    if !Fits(t, i) then Failure(OutOfRange) else Success(Read(p, t, i))
  }

  /** `setAt<T>(v, i)` on the payload `p`: the new payload, or the exception. */
  function Put(p: Payload, t: IntType, v: int, i: nat): (r: Result<Payload, Error>)
    requires t.Holds(v)
    ensures r.Success? <==> Fits(t, i)
    ensures r.Failure? ==> r.error == OutOfRange
    ensures r.Success? ==> r.value[i..i + t.Size()] == Representation(t, v)
    ensures r.Success? ==> forall k :: 0 <= k < PayloadLength && !(i <= k < i + t.Size()) ==> r.value[k] == p[k]
  {
    if !Fits(t, i) then Failure(OutOfRange)
    else
      var q: Payload := p[..i] + Representation(t, v) + p[i + t.Size()..];
      Success(q)
  }

  /** After a successful `setAt<T>(v, i)`, `getAs<T>(i)` returns `v`. */
  lemma GetAfterPut(p: Payload, t: IntType, v: int, i: nat)
    requires t.Holds(v) && Fits(t, i)
    ensures Get(Put(p, t, v, i).value, t, i) == Success(v)
  {
    RepresentationInjective(t, Read(Put(p, t, v, i).value, t, i), v);
  }

  /** A `setAt` does not disturb a field stored at disjoint bytes. */
  lemma GetAfterPutElsewhere(p: Payload, t: IntType, v: int, i: nat, t': IntType, j: nat)
    requires t.Holds(v) && Fits(t, i)
    requires j + t'.Size() <= i || i + t.Size() <= j
    ensures Get(Put(p, t, v, i).value, t', j) == Get(p, t', j)
  {
    if Fits(t', j) {
      var q := Put(p, t, v, i).value;
      assert q[j..j + t'.Size()] == p[j..j + t'.Size()];
    }
  }

  /** Writing back the value just read leaves the payload as it was. */
  lemma PutWhatWasRead(p: Payload, t: IntType, i: nat)
    requires Fits(t, i)
    ensures Put(p, t, Read(p, t, i), i) == Success(p)
  {
    assert p[..i] + p[i..i + t.Size()] + p[i + t.Size()..] == p;
  }

  /** The bounds check exactly as `message.hpp` writes it, in wrapping `std::size_t` arithmetic. */
  predicate OutOfRangeAsWritten(t: IntType, i: uint64) {
    (i + t.Size()) % 0x1_0000_0000_0000_0000 > PayloadLength
  }

  /**
   * The `std::size_t` sum wraps for an offset near 2^64: the check lets the
   * offset 2^64 - 1 through for a two-byte type although nothing fits there.
   */
  lemma OutOfRangeAsWrittenWraps()
    ensures var i: uint64 := 0xFFFF_FFFF_FFFF_FFFF; !OutOfRangeAsWritten(U16, i) && !Fits(U16, i)
  {
  }

  /** For every offset the payload can hold the two checks agree. */
  lemma OutOfRangeAsWrittenSmallOffsets(t: IntType, i: uint64)
    requires i < 0x1_0000_0000_0000_0000 - 4
    ensures OutOfRangeAsWritten(t, i) <==> !Fits(t, i)
  {
  }

  /** Little-endian byte order: 0x10, 0x27, 0, 0 at offset 4 is the int32 10000. */
  lemma LittleEndianExample(p: Payload)
    requires p == [0x42, 0, 0, 0, 0x10, 0x27, 0, 0]
    ensures Get(p, I32, 4) == Success(10000)
  {
    ReadBytes(p, I32, 4);
  }

  /** Two's complement: 0x0C, 0xFE read as an int16 is -500. */
  lemma TwosComplementExample(p: Payload)
    requires p == [0xA4, 0x32, 0x9C, 0xFF, 0x0C, 0xFE, 0xD3, 0xFF]
    ensures Get(p, I16, 4) == Success(-500)
  {
    ReadBytes(p, I16, 4);
  }
}
