/** `SingleMotorRequest<C>` of `single_motor_request.hpp`: a request whose byte 0 is forced to C. */
module SingleMotorRequest {
  import opened Codec
  import opened CommandTypes
  import opened Framing
  import opened Messages

  /**
   * The constructor: copies `data`, then overwrites byte 0 with C's byte.
   * It never throws; with the default argument `data` is all zeros.
   */
  method New(c: CommandType, data: Payload := Zeros) returns (m: Message)
    ensures fresh(m) && fresh(m.data) && m.Valid()
    ensures m.GetData() == ForceCommandByte(c.Value(), data)
  {
    m := new Message(data);
    m.data[0] := c.Value();
  }
}
