/**
 * The `struct can_frame` printer of the legacy
 * `myactuator_rmd_driver/can/utilities.hpp`: "id: 0x", the identifier in at
 * least three zero-padded hex digits, ", data: ", then each of the first
 * `len` data bytes in two hex digits followed by a space.
 */
module LegacyCanUtilities {
  import opened Integers
  import opened Codec
  import opened Text
  import opened SocketCan

  /** One data byte as the loop prints it: two hex digits and a space. */
  function ByteText(b: uint8): (s: string)
    ensures |s| == 3 && s[2] == ' '
  {
    HexByte(b) + " "
  }

  /** The byte can be read back from the first two characters of its text. */
  lemma ByteTextValue(b: uint8)
    ensures AllHexDigits(ByteText(b)[..2]) && HexValue(ByteText(b)[..2]) == b
  {
    assert ByteText(b)[..2] == HexByte(b);
  }

  /** The two digits are what `std::setw(2)` with fill '0' prints for the byte in `std::hex`. */
  lemma ByteTextIsPaddedHex(b: uint8)
    ensures ByteText(b) == ZeroPaddedHex(b, 2) + " "
  {
    if b < 16 {
      assert Hex(b) == [HexDigit(b)];
      assert HexByte(b) == [HexDigit(0), HexDigit(b)];
    } else {
      assert Hex(b / 16) == [HexDigit(b / 16)];
      assert Hex(b) == [HexDigit(b / 16), HexDigit(b % 16)];
    }
  }

  /** The printed bytes `data`, in order. */
  function DataText(data: seq<uint8>): (s: string)
    ensures |s| == 3 * |data|
  {
    if data == [] then "" else DataText(data[..|data| - 1]) + ByteText(data[|data| - 1])
  }

  lemma SliceOfLeft(a: string, b: string, lo: nat, hi: nat)
    requires lo <= hi <= |a|
    ensures (a + b)[lo..hi] == a[lo..hi]
  {
  }

  lemma SliceOfRight(a: string, b: string)
    ensures (a + b)[|a|..] == b
  {
  }

  lemma SliceOfMiddle(a: string, b: string, lo: nat, hi: nat)
    requires lo <= hi <= |b|
    ensures (a + b)[|a| + lo..|a| + hi] == b[lo..hi]
  {
    assert (a + b)[|a|..] == b;
  }

  /** Byte `i` of the data can be read back from characters 3i and 3i+1 of the text. */
  lemma {:induction false} DataTextBytes(data: seq<uint8>, i: nat)
    requires i < |data|
    ensures DataText(data)[3 * i..3 * i + 3] == ByteText(data[i])
  {
    var init := data[..|data| - 1];
    var a, b := DataText(init), ByteText(data[|data| - 1]);
    assert DataText(data) == a + b;
    if i < |init| {
      DataTextBytes(init, i);
      SliceOfLeft(a, b, 3 * i, 3 * i + 3);
    } else {
      SliceOfRight(a, b);
    }
  }

  /** The text `os << frame` appends. */
  function FrameText(frame: CanFrame): string
    requires frame.dlc <= PayloadLength
  {
    Header(frame.canId) + DataText(frame.data[..frame.dlc])
  }

  /** "id: 0x", the identifier in at least three hex digits, ", data: ". */
  function Header(canId: uint32): string {
    "id: 0x" + (ZeroPaddedHex(canId, 3) + ", data: ")
  }

  /** The printer, appending to the stream one byte per loop iteration. */
  method PrintFrame(frame: CanFrame) returns (os: string)
    requires frame.dlc <= PayloadLength
    ensures os == FrameText(frame)
  {
    os := "id: 0x" + (ZeroPaddedHex(frame.canId, 3) + ", data: ");
    var i := 0;
    while i < frame.dlc
      invariant 0 <= i <= frame.dlc
      invariant os == Header(frame.canId) + DataText(frame.data[..i])
    {
      PrintByte(Header(frame.canId), frame.data, i);
      os := os + (ZeroPaddedHex(frame.data[i], 2) + " ");
      i := i + 1;
    }
  }

  /** One iteration of the printer's loop extends the text by the next byte. */
  lemma PrintByte(head: string, data: seq<uint8>, i: nat)
    requires i < |data|
    ensures head + DataText(data[..i]) + (ZeroPaddedHex(data[i], 2) + " ") == head + DataText(data[..i + 1])
  {
    ByteTextIsPaddedHex(data[i]);
    assert data[..i + 1][..i] == data[..i];
  }

  /**
   * The printed identifier and bytes determine the frame's identifier and
   * its first `len` bytes: the text has a fixed layout from which each can
   * be read back.
   */
  lemma FrameTextLayout(frame: CanFrame)
    requires frame.dlc <= PayloadLength
    ensures var head, t := Header(frame.canId), FrameText(frame);
      |t| == |head| + 3 * frame.dlc && t[..|head|] == head
      && forall i :: 0 <= i < frame.dlc ==> t[|head| + 3 * i..|head| + 3 * i + 3] == ByteText(frame.data[i])
  {
    SliceOfLeft(Header(frame.canId), DataText(frame.data[..frame.dlc]), 0, |Header(frame.canId)|);
    forall i | 0 <= i < frame.dlc
      ensures FrameText(frame)[|Header(frame.canId)| + 3 * i..|Header(frame.canId)| + 3 * i + 3] == ByteText(frame.data[i])
    {
      FrameByteAt(frame, i);
    }
  }

  /** Byte `i` of the frame is printed at characters 3i to 3i+2 after the header. */
  lemma FrameByteAt(frame: CanFrame, i: nat)
    requires frame.dlc <= PayloadLength && i < frame.dlc
    ensures FrameText(frame)[|Header(frame.canId)| + 3 * i..|Header(frame.canId)| + 3 * i + 3] == ByteText(frame.data[i])
  {
    var data := frame.data[..frame.dlc];
    assert data[i] == frame.data[i];
    ByteAt(Header(frame.canId), data, i);
  }

  /** The bytes printed after `head` sit three characters apiece. */
  lemma ByteAt(head: string, data: seq<uint8>, i: nat)
    requires i < |data|
    ensures (head + DataText(data))[|head| + 3 * i..|head| + 3 * i + 3] == ByteText(data[i])
  {
    DataTextBytes(data, i);
    ThreeCharactersAt(head, DataText(data), ByteText(data[i]), i);
  }

  lemma ThreeCharactersAt(head: string, text: string, piece: string, i: nat)
    requires 3 * i + 3 <= |text| && text[3 * i..3 * i + 3] == piece
    ensures (head + text)[|head| + 3 * i..|head| + 3 * i + 3] == piece
  {
    SliceOfMiddle(head, text, 3 * i, 3 * i + 3);
  }

  /** The header holds the identifier's digits at a fixed place, where they can be read back. */
  lemma HeaderLayout(canId: uint32)
    ensures var id := ZeroPaddedHex(canId, 3);
      var h := Header(canId);
      |h| == 6 + |id| + 8 && h[..6] == "id: 0x" && h[6 + |id|..] == ", data: "
      && AllHexDigits(h[6..6 + |id|]) && HexValue(h[6..6 + |id|]) == canId
  {
    ThreeParts("id: 0x", ZeroPaddedHex(canId, 3), ", data: ");
  }

  lemma ThreeParts(p: string, x: string, q: string)
    ensures var s := p + (x + q);
      s[..|p|] == p && s[|p|..|p| + |x|] == x && s[|p| + |x|..] == q
  {
    var s := p + (x + q);
    assert s[|p|..] == x + q;
  }

  lemma HeaderExample()
    ensures Header(0x141) == "id: 0x141, data: "
  {
    IdentifierExample();
  }

  lemma IdentifierExample()
    ensures ZeroPaddedHex(0x141, 3) == "141"
  {
    assert Hex(0x141) == "141";
  }

  lemma DataTextExample()
    ensures DataText([0x9A, 0x0F]) == "9a 0f "
  {
    assert ByteText(0x9A) == "9a ";
    assert ByteText(0x0F) == "0f ";
    var two: seq<uint8> := [0x9A, 0x0F];
    var one: seq<uint8> := [0x9A];
    assert two[..1] == one;
    assert DataText(one) == "9a " by {
      assert one[..0] == [];
    }
  }

  /** A status request frame to actuator 1 prints as expected. */
  lemma PrintFrameExample()
    ensures FrameText(CanFrame(0x141, 2, [0x9A, 0x0F, 0, 0, 0, 0, 0, 0])) == "id: 0x141, data: 9a 0f "
  {
    var f := CanFrame(0x141, 2, [0x9A, 0x0F, 0, 0, 0, 0, 0, 0]);
    HeaderExample();
    DataTextExample();
    assert f.data[..2] == [0x9A, 0x0F];
  }
}
