/** `myactuator_rmd::Message`: an 8-byte payload that `setAt` updates in place. */
module Messages {
  import opened Wrappers
  import opened Integers
  import opened Errors
  import opened Codec

  class Message {
    /** `data_`, the `std::array<std::uint8_t,8>` of the message. */
    var data: array<uint8>

    ghost predicate Valid()
      reads this
    {
      data.Length == PayloadLength
    }

    /** `Message(data)`: copies the given bytes. */
    constructor (init: Payload)
      ensures Valid() && fresh(data)
      ensures GetData() == init
    {
      data := new uint8[PayloadLength](k => if 0 <= k < |init| then init[k] else 0);
    }

    /** `Message()`: the default argument `{}` gives eight zero bytes. */
    constructor Default()
      ensures Valid() && fresh(data)
      ensures GetData() == Zeros
    {
      data := new uint8[PayloadLength](k => 0);
    }

    /** `getData()`: exactly the stored bytes. */
    function GetData(): (r: Payload)
      reads this, data
      requires Valid()
      ensures forall k :: 0 <= k < PayloadLength ==> r[k] == data[k]
    {
      data[..]
    }

    /**
     * `setAt<T>(v, i)`: throws `out_of_range` and changes nothing when the
     * value does not fit at offset `i`; otherwise copies the value's
     * little-endian bytes to `data_[i..i + sizeof(T))`.
     */
    method SetAt(t: IntType, v: int, i: nat) returns (o: Outcome<Error>)
      requires Valid() && t.Holds(v)
      modifies data
      ensures Valid()
      ensures o.Fail? <==> !Fits(t, i)
      ensures o.Fail? ==> o.error == OutOfRange && GetData() == old(GetData())
      ensures o.Pass? ==> GetData() == Put(old(GetData()), t, v, i).value
      ensures o.Pass? ==> GetAs(t, i) == Success(v)
    {
      if !Fits(t, i) {
        return Fail(OutOfRange);
      }
      var bytes := Representation(t, v);
      ghost var before := data[..];
      var k := 0;
      while k < t.Size()
        invariant 0 <= k <= t.Size()
        invariant forall j :: 0 <= j < i ==> data[j] == before[j]
        invariant forall j :: 0 <= j < k ==> data[i + j] == bytes[j]
        invariant forall j :: i + k <= j < PayloadLength ==> data[j] == before[j]
      {
        data[i + k] := bytes[k];
        k := k + 1;
      }
      assert data[..] == Put(before, t, v, i).value;
      GetAfterPut(before, t, v, i);
      return Pass;
    }

    /** `getAs<T>(i)`: throws `out_of_range` exactly when the value does not fit. */
    function GetAs(t: IntType, i: nat): (r: Result<int, Error>)
      reads this, data
      requires Valid()
      ensures r.Success? <==> Fits(t, i)
      ensures r.Failure? ==> r.error == OutOfRange
      ensures r.Success? ==> t.Holds(r.value) && Representation(t, r.value) == data[i..i + t.Size()]
    {
      Get(GetData(), t, i)
    }
  }
}
