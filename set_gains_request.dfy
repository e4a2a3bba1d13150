/**
 * The alternative `SetGainsRequest<C>` of `requests/set_gains_request.hpp`,
 * derived from `Request<C>`. Its base class, `requests/request.hpp`, is
 * taken to behave like `SingleMotorRequest<C>`: it copies the given bytes
 * and forces byte 0 to C, and `Request<C>{}` is C followed by zeros.
 */
module SetGainsRequest {
  import opened Codec
  import opened CommandTypes
  import opened ActuatorState
  import opened GainsLayout
  import opened Framing
  import opened Messages

  /** `SetGainsRequest<C>(gains)`: a default request whose bytes 2..7 are then assigned the gains. */
  method NewFromGains(c: CommandType, g: Gains) returns (m: Message)
    ensures fresh(m) && fresh(m.data) && m.Valid()
    ensures m.GetData()[..2] == [c.Value(), 0]
    ensures m.GetData() == WriteGains(ForceCommandByte(c.Value(), Zeros), g)
    ensures ReadGains(m.GetData()) == g
  {
    m := new Message(ForceCommandByte(c.Value(), Zeros));
    m.data[2] := g.current.kp;
    m.data[3] := g.current.ki;
    m.data[4] := g.speed.kp;
    m.data[5] := g.speed.ki;
    m.data[6] := g.position.kp;
    m.data[7] := g.position.ki;
    ReadWrittenGains(ForceCommandByte(c.Value(), Zeros), g);
  }

  /** `SetGainsRequest<C>(data)`: the bytes with byte 0 forced to C; it never throws. */
  function FromData(c: CommandType, data: Payload): (p: Payload)
    ensures p[0] == c.Value() && p[1..] == data[1..]
    ensures ReadGains(p) == ReadGains(data)
  {
    var q := ForceCommandByte(c.Value(), data);
    ReadGainsIgnoresHeader(q, data);
    q
  }
}
