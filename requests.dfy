/**
 * The requests of `requests.hpp` and `src/protocol/requests.cpp`: each is a
 * default message of its command whose fields are then written in place,
 * together with the getters that read those fields back.
 */
module Requests {
  import opened Wrappers
  import opened Integers
  import opened Errors
  import opened Codec
  import opened CommandTypes
  import opened ActuatorState
  import opened GainsLayout
  import opened Messages
  import opened SingleMotorMessage

  // Requests that carry no data besides their command byte.
  const GetControllerGainsRequest: CommandType := ReadPidParameters
  const GetControlModeRequest: CommandType := ReadSystemOperatingMode
  const GetMotorModelRequest: CommandType := ReadMotorModel
  const GetMotorPowerRequest: CommandType := ReadMotorPower
  const GetMotorStatus1Request: CommandType := ReadMotorStatus1AndErrorFlag
  const GetMotorStatus2Request: CommandType := ReadMotorStatus2
  const GetMotorStatus3Request: CommandType := ReadMotorStatus3
  const GetSystemRuntimeRequest: CommandType := ReadSystemRuntime
  const GetVersionDateRequest: CommandType := ReadSystemSoftwareVersionDate
  const LockBrakeRequest: CommandType := LockBrake
  const ReleaseBrakeRequest: CommandType := ReleaseBrake
  const ResetRequest: CommandType := ResetSystem
  const ShutdownMotorRequest: CommandType := ShutdownMotor
  const StopMotorRequest: CommandType := StopMotor

  // The commands of the requests with data fields.
  const SetControllerGainsPersistentlyRequest: CommandType := WritePidParametersToRom
  const SetControllerGainsRequest: CommandType := WritePidParametersToRam
  const CanIdRequest: CommandType := CanIdSetting
  const SetAccelerationRequest: CommandType := WriteAccelerationToRamAndRom
  const SetCanBaudRateRequest: CommandType := CommunicationBaudRateSetting
  const SetEncoderZeroRequest: CommandType := WriteEncoderMultiTurnValueToRomAsZero
  const SetTimeoutRequest: CommandType := CommunicationInterruptionProtectionTimeSetting

  /** The command byte each data-less request sends, followed by seven zeros (`DefaultPayload`). */
  lemma AliasCommandBytes()
    ensures GetControllerGainsRequest.Value() == 0x30
    ensures GetControlModeRequest.Value() == 0x70
    ensures GetMotorModelRequest.Value() == 0xB5
    ensures GetMotorPowerRequest.Value() == 0x71
    ensures GetMotorStatus1Request.Value() == 0x9A
    ensures GetMotorStatus2Request.Value() == 0x9C
    ensures GetMotorStatus3Request.Value() == 0x9D
  {
  }

  /** The command byte of the remaining data-less requests. */
  lemma ControlCommandBytes()
    ensures GetSystemRuntimeRequest.Value() == 0xB1
    ensures GetVersionDateRequest.Value() == 0xB2
    ensures LockBrakeRequest.Value() == 0x78
    ensures ReleaseBrakeRequest.Value() == 0x77
    ensures ResetRequest.Value() == 0x76
    ensures ShutdownMotorRequest.Value() == 0x80
    ensures StopMotorRequest.Value() == 0x81
  {
  }

  /** The persistent gains request writes to ROM (0x32), the other one to RAM (0x31). */
  lemma GainsRequestCommands()
    ensures SetControllerGainsPersistentlyRequest.Value() == 0x32
    ensures SetControllerGainsRequest.Value() == 0x31
  {
  }

  // ---- SetGainsRequest<C> (requests.hpp) ----

  /** The bytes of `SetGainsRequest<C>(gains)`: the default message with the gains at bytes 2..7. */
  function SetGainsPayload(c: CommandType, g: Gains): (p: Payload)
    ensures p[0] == c.Value() && p[1] == 0
    ensures p[2..] == [g.current.kp, g.current.ki, g.speed.kp, g.speed.ki, g.position.kp, g.position.ki]
  {
    WriteGains(DefaultPayload(c), g)
  }

  /** `SetGainsRequest<C>(gains)`: assigns the six gain bytes one by one; it never throws. */
  method NewSetGainsRequest(c: CommandType, g: Gains) returns (m: Message)
    ensures fresh(m) && fresh(m.data) && m.Valid()
    ensures m.GetData() == SetGainsPayload(c, g)
  {
    m := NewDefault(c);
    m.data[2] := g.current.kp;
    m.data[3] := g.current.ki;
    m.data[4] := g.speed.kp;
    m.data[5] := g.speed.ki;
    m.data[6] := g.position.kp;
    m.data[7] := g.position.ki;
  }

  /** `getGains(SetGainsRequest<C>(g)) == g`. */
  lemma SetGainsRoundTrip(c: CommandType, g: Gains)
    ensures ReadGains(SetGainsPayload(c, g)) == g
  {
    ReadWrittenGains(DefaultPayload(c), g);
  }

  /** The persistent gains request {0x32, 0, 0x55, 0x19, ...} carries kp 85 and ki 25 in every loop. */
  lemma SetGainsExample()
    ensures var p: Payload := [0x32, 0x00, 0x55, 0x19, 0x55, 0x19, 0x55, 0x19];
      RequestFromData(SetControllerGainsPersistentlyRequest, p) == Success(p) &&
      ReadGains(p) == Gains(PiGains(85, 25), PiGains(85, 25), PiGains(85, 25))
  {
  }

  // ---- CanIdRequest, GetCanIdRequest, SetCanIdRequest ----

  /** `CanIdRequest::isWrite()`: byte 2 is zero. */
  predicate IsWrite(p: Payload)
    ensures IsWrite(p) <==> p[2] == 0
  {
    Read(p, U8, 2) == 0
  }

  /** The bytes of `GetCanIdRequest()`: the read flag 1 at byte 2. */
  function GetCanIdPayload(): (p: Payload)
    ensures p == [0x79, 0, 1, 0, 0, 0, 0, 0]
    ensures !IsWrite(p)
  {
    Put(DefaultPayload(CanIdRequest), U8, 1, 2).value
  }

  /** `GetCanIdRequest()`. */
  method NewGetCanIdRequest() returns (m: Message)
    ensures fresh(m) && fresh(m.data) && m.Valid()
    ensures m.GetData() == GetCanIdPayload()
  {
    m := NewDefault(CanIdRequest);
    var _ := m.SetAt(U8, 1, 2);
  }

  /** The bytes of `SetCanIdRequest(can_id)`: the write flag 0 at byte 2, the low byte of the id at byte 6. */
  function SetCanIdPayload(canId: uint16): (p: Payload)
    ensures p == [0x79, 0, 0, 0, 0, 0, canId % 0x100, 0]
    ensures IsWrite(p)
  {
    var q := Put(DefaultPayload(CanIdRequest), U8, 0, 2).value;
    Put(q, U8, canId % 0x100, 6).value
  }

  /** `SetCanIdRequest(can_id)`. */
  method NewSetCanIdRequest(canId: uint16) returns (m: Message)
    ensures fresh(m) && fresh(m.data) && m.Valid()
    ensures m.GetData() == SetCanIdPayload(canId)
  {
    m := NewDefault(CanIdRequest);
    var _ := m.SetAt(U8, 0, 2);
    var _ := m.SetAt(U8, canId % 0x100, 6);
  }

  /** `SetCanIdRequest::getCanId()`: byte 7, widened to 16 bits. */
  function GetCanId(p: Payload): (id: uint16)
    ensures id < 0x100 && id == p[7]
  {
    Read(p, U8, 7)
  }

  /**
   * The setter stores the id at byte 6 while the getter reads byte 7, so a
   * request built by `SetCanIdRequest(can_id)` reports id 0 whatever `can_id` was.
   */
  lemma SetCanIdThenGetCanId(canId: uint16)
    ensures SetCanIdPayload(canId)[6] == canId % 0x100
    ensures GetCanId(SetCanIdPayload(canId)) == 0
  {
  }

  /** A `GetCanIdRequest` is a read and every `SetCanIdRequest` is a write. */
  lemma CanIdRequestDirections(canId: uint16)
    ensures !IsWrite(GetCanIdPayload())
    ensures IsWrite(SetCanIdPayload(canId))
    ensures GetCanIdPayload()[..2] == SetCanIdPayload(canId)[..2]
  {
    var g := GetCanIdPayload();
    var w := SetCanIdPayload(canId);
    assert g[2] == 1 && w[2] == 0;
  }

  /** The received read request {0x79, 0, 1, ...} is not a write. */
  lemma GetCanIdExample()
    ensures !IsWrite([0x79, 0x00, 0x01, 0x00, 0x00, 0x00, 0x00, 0x00])
  {
  }

  // ---- SetAccelerationRequest ----

  /** The accepted accelerations: 0, or 100..60000. */
  predicate AccelerationInRange(acceleration: uint32) {
    !(acceleration != 0 && (acceleration < 100 || acceleration > 60000))
  }

  /** The bytes of an accepted `SetAccelerationRequest`: the mode at byte 1, the acceleration at bytes 4..7. */
  function SetAccelerationPayload(acceleration: uint32, mode: AccelerationType): (p: Payload)
    ensures p[0] == SetAccelerationRequest.Value()
    ensures p[1] == mode && p[2] == 0 && p[3] == 0
    ensures p[4..] == Representation(U32, acceleration)
  {
    var q := Put(DefaultPayload(SetAccelerationRequest), U8, mode, 1).value;
    Put(q, U32, acceleration, 4).value
  }

  /**
   * `SetAccelerationRequest(acceleration, mode)`: throws
   * `ValueRangeException` for a non-zero acceleration outside [100, 60000]
   * before writing anything.
   */
  method NewSetAccelerationRequest(acceleration: uint32, mode: AccelerationType) returns (r: Result<Message, Error>)
    ensures r.Failure? <==> !AccelerationInRange(acceleration)
    ensures r.Failure? ==> r.error == ValueRangeException
    ensures r.Success? ==> fresh(r.value) && fresh(r.value.data) && r.value.Valid()
    ensures r.Success? ==> r.value.GetData() == SetAccelerationPayload(acceleration, mode)
  {
    var m := NewDefault(SetAccelerationRequest);
    if acceleration != 0 && (acceleration < 100 || acceleration > 60000) {
      return Failure(ValueRangeException);
    }
    var _ := m.SetAt(U8, mode, 1);
    var _ := m.SetAt(U32, acceleration, 4);
    return Success(m);
  }

  /** `SetAccelerationRequest::getAcceleration()`: the uint32 at offset 4. */
  function GetAcceleration(p: Payload): (a: uint32)
    ensures Representation(U32, a) == p[4..]
  {
    Read(p, U32, 4)
  }

  /** `SetAccelerationRequest::getMode()`: byte 1. */
  function GetMode(p: Payload): (mode: AccelerationType)
    ensures mode == p[1]
  {
    Read(p, U8, 1)
  }

  /** An accepted request reports the acceleration and mode it was built with. */
  lemma SetAccelerationRoundTrip(acceleration: uint32, mode: AccelerationType)
    ensures GetAcceleration(SetAccelerationPayload(acceleration, mode)) == acceleration
    ensures GetMode(SetAccelerationPayload(acceleration, mode)) == mode
  {
    var p := SetAccelerationPayload(acceleration, mode);
    RepresentationInjective(U32, GetAcceleration(p), acceleration);
  }

  /** The received request {0x43, m, 0, 0, 0x10, 0x27, 0, 0} carries acceleration 10000 and mode m for each type. */
  lemma SetAccelerationExamples(mode: AccelerationType)
    requires mode <= VelocityPlanningDeceleration
    ensures var p: Payload := [0x43, mode, 0x00, 0x00, 0x10, 0x27, 0x00, 0x00];
      RequestFromData(SetAccelerationRequest, p) == Success(p) &&
      GetAcceleration(p) == 10000 && GetMode(p) == mode
  {
    var p: Payload := [0x43, mode, 0x00, 0x00, 0x10, 0x27, 0x00, 0x00];
    AccelerationBytes();
    assert p[4..] == [0x10, 0x27, 0, 0];
    RepresentationInjective(U32, GetAcceleration(p), 10000);
  }

  /** 10000 as a little-endian uint32. */
  lemma AccelerationBytes()
    ensures Representation(U32, 10000) == [0x10, 0x27, 0, 0]
  {
    assert EncodeLE(10000, 4) == [0x10, 0x27, 0, 0] by {
      assert EncodeLE(10000 / 256, 3) == [0x27, 0, 0] by {
        assert EncodeLE(0, 2) == [0, 0];
      }
    }
  }

  // ---- SetCanBaudRateRequest ----

  /** The bytes of `SetCanBaudRateRequest(baud_rate)`: the rate at byte 7. */
  function SetCanBaudRatePayload(baudRate: CanBaudRate): (p: Payload)
    ensures p == [SetCanBaudRateRequest.Value(), 0, 0, 0, 0, 0, 0, baudRate]
  {
    Put(DefaultPayload(SetCanBaudRateRequest), U8, baudRate, 7).value
  }

  /** `SetCanBaudRateRequest(baud_rate)`. */
  method NewSetCanBaudRateRequest(baudRate: CanBaudRate) returns (m: Message)
    ensures fresh(m) && fresh(m.data) && m.Valid()
    ensures m.GetData() == SetCanBaudRatePayload(baudRate)
  {
    m := NewDefault(SetCanBaudRateRequest);
    var _ := m.SetAt(U8, baudRate, 7);
  }

  /** `SetCanBaudRateRequest::getBaudRate()`: byte 7. */
  function GetBaudRate(p: Payload): (b: CanBaudRate)
    ensures b == p[7]
  {
    Read(p, U8, 7)
  }

  /** The baud rate read back is the one the request was built with. */
  lemma SetCanBaudRateRoundTrip(baudRate: CanBaudRate)
    ensures GetBaudRate(SetCanBaudRatePayload(baudRate)) == baudRate
  {
  }

  /** Received rate requests: byte 7 = 0 is 500 kbps, byte 7 = 1 is 1 Mbps. */
  lemma SetCanBaudRateExamples()
    ensures GetBaudRate([0xB4, 0x00, 0x01, 0x00, 0x00, 0x00, 0x00, 0x00]) == Kbps500
    ensures GetBaudRate([0xB4, 0x00, 0x00, 0x00, 0x00, 0x00, 0x00, 0x01]) == Mbps1
  {
  }

  // ---- SetEncoderZeroRequest ----

  /** The bytes of `SetEncoderZeroRequest(encoder_offset)`: the int32 at bytes 4..7. */
  function SetEncoderZeroPayload(offset: int32): (p: Payload)
    ensures p[..4] == [SetEncoderZeroRequest.Value(), 0, 0, 0]
    ensures p[4..] == Representation(I32, offset)
  {
    Put(DefaultPayload(SetEncoderZeroRequest), I32, offset, 4).value
  }

  /** `SetEncoderZeroRequest(encoder_offset)`. */
  method NewSetEncoderZeroRequest(offset: int32) returns (m: Message)
    ensures fresh(m) && fresh(m.data) && m.Valid()
    ensures m.GetData() == SetEncoderZeroPayload(offset)
  {
    m := NewDefault(SetEncoderZeroRequest);
    var _ := m.SetAt(I32, offset, 4);
  }

  /** `SetEncoderZeroRequest::getEncoderZero()`: the int32 at offset 4. */
  function GetEncoderZero(p: Payload): (v: int32)
    ensures Representation(I32, v) == p[4..]
  {
    Read(p, I32, 4)
  }

  /** The encoder offset read back is the one the request was built with. */
  lemma SetEncoderZeroRoundTrip(offset: int32)
    ensures GetEncoderZero(SetEncoderZeroPayload(offset)) == offset
  {
    RepresentationInjective(I32, GetEncoderZero(SetEncoderZeroPayload(offset)), offset);
  }

  /** The received request {0x63, 0, 0, 0, 0x10, 0x27, 0, 0} carries the encoder offset 10000. */
  lemma SetEncoderZeroExample(p: Payload)
    requires p == [0x63, 0x00, 0x00, 0x00, 0x10, 0x27, 0x00, 0x00]
    ensures RequestFromData(SetEncoderZeroRequest, p) == Success(p)
    ensures GetEncoderZero(p) == 10000
  {
    ReadBytes(p, I32, 4);
  }

  // ---- SetTimeoutRequest ----

  /**
   * The bytes of `SetTimeoutRequest(timeout)`: the millisecond count,
   * converted to `std::uint32_t` (modulo 2^32), at bytes 4..7.
   */
  function SetTimeoutPayload(timeoutMs: int64): (p: Payload)
    ensures p[..4] == [SetTimeoutRequest.Value(), 0, 0, 0]
    ensures p[4..] == Representation(U32, CastToUint32(timeoutMs))
  {
    Put(DefaultPayload(SetTimeoutRequest), U32, CastToUint32(timeoutMs), 4).value
  }

  /** `SetTimeoutRequest(timeout)`. */
  method NewSetTimeoutRequest(timeoutMs: int64) returns (m: Message)
    ensures fresh(m) && fresh(m.data) && m.Valid()
    ensures m.GetData() == SetTimeoutPayload(timeoutMs)
  {
    m := NewDefault(SetTimeoutRequest);
    var _ := m.SetAt(U32, CastToUint32(timeoutMs), 4);
  }

  /** `SetTimeoutRequest::getTimeout()`: the uint32 at offset 4, in milliseconds. */
  function GetTimeout(p: Payload): (ms: uint32)
    ensures Representation(U32, ms) == p[4..]
  {
    Read(p, U32, 4)
  }

  /** The timeout read back is the one given, reduced modulo 2^32; a count in range comes back unchanged. */
  lemma SetTimeoutRoundTrip(timeoutMs: int64)
    ensures GetTimeout(SetTimeoutPayload(timeoutMs)) == CastToUint32(timeoutMs)
    ensures 0 <= timeoutMs < Uint32Modulus ==> GetTimeout(SetTimeoutPayload(timeoutMs)) == timeoutMs
  {
    RepresentationInjective(U32, GetTimeout(SetTimeoutPayload(timeoutMs)), CastToUint32(timeoutMs));
  }

  /** Received timeout requests: all zeros is 0 ms, 0xE8, 0x03 at offset 4 is 1000 ms. */
  lemma SetTimeoutExamples()
    ensures GetTimeout([0xB3, 0x00, 0x00, 0x00, 0x00, 0x00, 0x00, 0x00]) == 0
    ensures GetTimeout([0xB3, 0x00, 0x00, 0x00, 0xE8, 0x03, 0x00, 0x00]) == 1000
  {
    var z: Payload := [0xB3, 0x00, 0x00, 0x00, 0x00, 0x00, 0x00, 0x00];
    var p: Payload := [0xB3, 0x00, 0x00, 0x00, 0xE8, 0x03, 0x00, 0x00];
    assert Representation(U32, 0) == z[4..] by {
      assert EncodeLE(0, 4) == [0, 0, 0, 0];
    }
    assert Representation(U32, 1000) == p[4..] by {
      assert EncodeLE(1000, 4) == [0xE8, 0x03, 0, 0] by {
        assert EncodeLE(1000 / 256, 3) == [0x03, 0, 0] by {
          assert EncodeLE(0, 2) == [0, 0];
        }
      }
    }
    RepresentationInjective(U32, GetTimeout(z), 0);
    RepresentationInjective(U32, GetTimeout(p), 1000);
  }
}
