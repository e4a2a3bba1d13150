/** `Request<C>` of the legacy `myactuator_rmd_driver/messages/request.hpp`. */
module LegacyRequest {
  import opened Codec
  import opened LegacyDefinitions
  import opened Framing
  import opened Messages

  /**
   * The constructor: copies `data` (all zeros by default), then overwrites
   * byte 0 with C's byte. It never throws.
   */
  method New(c: CommandType, data: Payload := Zeros) returns (m: Message)
    ensures fresh(m) && fresh(m.data) && m.Valid()
    ensures m.GetData()[0] == c.Value()
    ensures m.GetData()[1..] == data[1..]
    ensures data == Zeros ==> m.GetData() == [c.Value(), 0, 0, 0, 0, 0, 0, 0]
  {
    m := new Message(data);
    m.data[0] := c.Value();
    assert m.GetData() == ForceCommandByte(c.Value(), data);
  }
}
