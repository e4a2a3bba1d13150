/** `SingleMotorResponse<C>` of `single_motor_response.hpp`: a validated copy of received bytes. */
module SingleMotorResponse {
  import opened Wrappers
  import opened Errors
  import opened Codec
  import opened CommandTypes
  import opened Framing

  /**
   * The constructor: the received bytes are kept unchanged when byte 0 is
   * C's byte, and `ProtocolException` is thrown otherwise. A response has no
   * default constructor, so there is no other way to obtain one.
   */
  function New(c: CommandType, data: Payload): (r: Result<Payload, Error>)
    ensures r.Success? <==> data[0] == c.Value()
    ensures r.Success? ==> r.value == data
    ensures r.Failure? ==> r.error == ProtocolException
  {
    CheckCommandByte(c.Value(), ProtocolException, data)
  }

  /** Bytes 1..7 are not validated: any of them is accepted after the right byte 0. */
  lemma TailNotValidated(c: CommandType, data: Payload)
    ensures New(c, ForceCommandByte(c.Value(), data)) == Success(ForceCommandByte(c.Value(), data))
  {
  }
}
