/**
 * `SingleMotorMessage<C>` and the request and response classes derived from
 * it in `single_motor_message.hpp`.
 */
module SingleMotorMessage {
  import opened Wrappers
  import opened Errors
  import opened Codec
  import opened CommandTypes
  import opened Framing
  import opened Messages

  /**
   * `SingleMotorMessage<C>(data)`: keeps the bytes when byte 0 is C's byte
   * and throws `ProtocolException` otherwise.
   */
  function FromData(c: CommandType, data: Payload): (r: Result<Payload, Error>)
    ensures r.Success? <==> data[0] == c.Value()
    ensures r.Success? ==> r.value == data
    ensures r.Failure? ==> r.error == ProtocolException
  {
    CheckCommandByte(c.Value(), ProtocolException, data)
  }

  /** The bytes of a default-constructed message of command C. */
  function DefaultPayload(c: CommandType): (p: Payload)
    ensures p == [c.Value(), 0, 0, 0, 0, 0, 0, 0]
  {
    ForceCommandByte(c.Value(), Zeros)
  }

  /**
   * `SingleMotorMessage<C>()`: a zero message whose byte 0 is then set to
   * C's byte; it cannot fail.
   */
  method NewDefault(c: CommandType) returns (m: Message)
    ensures fresh(m) && fresh(m.data) && m.Valid()
    ensures m.GetData() == DefaultPayload(c)
  {
    m := new Message.Default();
    m.data[0] := c.Value();
  }

  /**
   * `SingleMotorRequest<C>(data)` forwards to the checking constructor, so a
   * request given bytes with the wrong byte 0 throws as well.
   */
  function RequestFromData(c: CommandType, data: Payload): (r: Result<Payload, Error>)
    ensures r.Failure? <==> data[0] != c.Value()
    ensures r == FromData(c, data)
  {
    FromData(c, data)
  }

  /** `SingleMotorResponse<C>(data)` forwards to the checking constructor. */
  function ResponseFromData(c: CommandType, data: Payload): (r: Result<Payload, Error>)
    ensures r.Failure? <==> data[0] != c.Value()
    ensures r == FromData(c, data)
  {
    FromData(c, data)
  }

  /** The default message of C is accepted by C's checking constructor. */
  lemma DefaultIsAccepted(c: CommandType)
    ensures FromData(c, DefaultPayload(c)) == Success(DefaultPayload(c))
  {
  }

  /** A payload is accepted for at most one command type. */
  lemma AcceptedForOneCommand(c: CommandType, d: CommandType, data: Payload)
    requires FromData(c, data).Success? && FromData(d, data).Success?
    ensures c == d
  {
    ValueInjective(c, d);
  }
}
