/**
 * The responses of `responses.hpp` and `src/protocol/responses.cpp`: a
 * response is a payload accepted by `SingleMotorResponse<C>`, and its
 * getters decode fixed fields of it. Floating-point scalings are left to
 * the caller: the getters here return the raw integers.
 */
module Responses {
  import opened Wrappers
  import opened Integers
  import opened Errors
  import opened Codec
  import opened CommandTypes
  import opened ActuatorState
  import opened GainsLayout
  import SingleMotorResponse = SingleMotorMessage

  // Command types of the feedback and gains responses.
  const GetMotorStatus2Response: CommandType := ReadMotorStatus2
  const SetPositionAbsoluteResponse: CommandType := AbsolutePositionClosedLoopControl
  const SetTorqueResponse: CommandType := TorqueClosedLoopControl
  const SetVelocityResponse: CommandType := SpeedClosedLoopControl
  const GetControllerGainsResponse: CommandType := ReadPidParameters
  const SetControllerGainsPersistentlyResponse: CommandType := WritePidParametersToRom
  const SetControllerGainsResponse: CommandType := WritePidParametersToRam
  const ShutdownMotorResponse: CommandType := ShutdownMotor
  const StopMotorResponse: CommandType := StopMotor

  /** The first byte each response alias expects. */
  lemma AliasCommandBytes()
    ensures GetMotorStatus2Response.Value() == 0x9C
    ensures SetPositionAbsoluteResponse.Value() == 0xA4
    ensures SetTorqueResponse.Value() == 0xA1
    ensures SetVelocityResponse.Value() == 0xA2
    ensures GetControllerGainsResponse.Value() == 0x30
    ensures SetControllerGainsPersistentlyResponse.Value() == 0x32
    ensures SetControllerGainsResponse.Value() == 0x31
    ensures ShutdownMotorResponse.Value() == 0x80
    ensures StopMotorResponse.Value() == 0x81
  {
  }

  // ---- FeedbackResponse<C>::getStatus ----

  /**
   * `getStatus()`: temperature from the signed byte 1, current (0.01 A),
   * speed and angle from the int16 fields at 2, 4 and 6. It never fails.
   */
  function GetStatus(p: Payload): (f: Feedback)
    ensures Representation(I8, f.temperature) == p[1..2]
    ensures Representation(I16, f.currentRaw) == p[2..4]
    ensures Representation(I16, f.shaftSpeed) == p[4..6]
    ensures Representation(I16, f.shaftAngle) == p[6..8]
  {
    Feedback(Read(p, I8, 1), Read(p, I16, 2), Read(p, I16, 4), Read(p, I16, 6))
  }

  /** The feedback decoder is lossless: it determines bytes 1..7 and ignores byte 0 only. */
  lemma GetStatusDeterminesBytes(p: Payload, q: Payload)
    ensures GetStatus(p) == GetStatus(q) <==> p[1..] == q[1..]
  {
    if GetStatus(p) == GetStatus(q) {
      assert p[1..] == p[1..2] + p[2..4] + p[4..6] + p[6..8];
      assert q[1..] == q[1..2] + q[2..4] + q[4..6] + q[6..8];
    }
    if p[1..] == q[1..] {
      assert p[1..2] == q[1..2] && p[2..4] == q[2..4] && p[4..6] == q[4..6] && p[6..8] == q[6..8] by {
        assert forall k :: 1 <= k < PayloadLength ==> p[k] == p[1..][k - 1] && q[k] == q[1..][k - 1];
      }
      RepresentationInjective(I8, GetStatus(p).temperature, GetStatus(q).temperature);
      RepresentationInjective(I16, GetStatus(p).currentRaw, GetStatus(q).currentRaw);
      RepresentationInjective(I16, GetStatus(p).shaftSpeed, GetStatus(q).shaftSpeed);
      RepresentationInjective(I16, GetStatus(p).shaftAngle, GetStatus(q).shaftAngle);
    }
  }

  /** The positive absolute-position feedback frame of the tests. */
  lemma GetStatusPositiveExample(p: Payload)
    requires p == [0xA4, 0x32, 0x64, 0x00, 0xF4, 0x01, 0x2D, 0x00]
    ensures GetStatus(p) == Feedback(50, 100, 500, 45)
  {
    ReadBytes(p, I8, 1);
    ReadBytes(p, I16, 2);
    ReadBytes(p, I16, 4);
    ReadBytes(p, I16, 6);
  }

  /** The negative absolute-position feedback frame of the tests. */
  lemma GetStatusNegativeExample(n: Payload)
    requires n == [0xA4, 0x32, 0x9C, 0xFF, 0x0C, 0xFE, 0xD3, 0xFF]
    ensures GetStatus(n) == Feedback(50, -100, -500, -45)
  {
    ReadBytes(n, I8, 1);
    assert Read(n, I8, 1) == 50;
    ReadBytes(n, I16, 2);
    assert Read(n, I16, 2) == -100;
    ReadBytes(n, I16, 4);
    assert Read(n, I16, 4) == -500;
    ReadBytes(n, I16, 6);
    assert Read(n, I16, 6) == -45;
  }

  // ---- GainsResponse<C>::getGains ----

  /** A gains response {C, 0, 0x55, 0x19, ...} is accepted and gives kp 85, ki 25 in every loop. */
  lemma GetGainsExample(p: Payload)
    requires p == [0x30, 0x00, 0x55, 0x19, 0x55, 0x19, 0x55, 0x19]
    ensures SingleMotorResponse.ResponseFromData(GetControllerGainsResponse, p) == Success(p)
    ensures ReadGains(p) == Gains(PiGains(85, 25), PiGains(85, 25), PiGains(85, 25))
  {
  }

  // ---- src/protocol/responses.cpp ----

  /** `GetAccelerationResponse::getAcceleration()`: the int32 at offset 4. */
  function GetAcceleration(p: Payload): (a: int32)
    ensures Representation(I32, a) == p[4..8]
  {
    Read(p, I32, 4)
  }

  lemma GetAccelerationExample(p: Payload)
    requires p == [0x42, 0x00, 0x00, 0x00, 0x10, 0x27, 0x00, 0x00]
    ensures GetAcceleration(p) == 10000
  {
    ReadBytes(p, I32, 4);
  }

  /** `GetMotorModelResponse::getModel()`: the seven bytes 1..7 as characters, embedded zeros included. */
  function GetModel(p: Payload): (model: string)
    ensures |model| == 7
    ensures forall k :: 0 <= k < 7 ==> model[k] as int == p[k + 1]
  {
    seq(7, k requires 0 <= k < 7 => p[k + 1] as char)
  }

  /** Two model responses give the same string exactly when bytes 1..7 agree. */
  lemma GetModelInjective(p: Payload, q: Payload)
    ensures GetModel(p) == GetModel(q) <==> p[1..] == q[1..]
  {
    if GetModel(p) == GetModel(q) {
      forall k | 1 <= k < PayloadLength ensures p[k] == q[k] {
        assert GetModel(p)[k - 1] == GetModel(q)[k - 1];
      }
      assert p[1..] == q[1..];
    }
    if p[1..] == q[1..] {
      assert forall k :: 1 <= k < PayloadLength ==> p[k] == p[1..][k - 1] && q[k] == q[1..][k - 1];
    }
  }

  lemma GetModelExample(p: Payload)
    requires p == [0xB5, 0x58, 0x38, 0x53, 0x32, 0x56, 0x31, 0x30]
    ensures GetModel(p) == "X8S2V10"
  {
  }

  /** `GetMotorPowerResponse::getPower()` before its 0.1 W scaling: the uint16 at offset 6. */
  function GetMotorPowerRaw(p: Payload): (power: uint16)
    ensures Representation(U16, power) == p[6..8]
  {
    Read(p, U16, 6)
  }

  lemma GetMotorPowerRawExample(p: Payload)
    requires p == [0x71, 0x00, 0x00, 0x00, 0x00, 0x00, 0xD0, 0x07]
    ensures GetMotorPowerRaw(p) == 2000
  {
    ReadBytes(p, U16, 6);
  }

  /**
   * `GetMotorStatus1Response::getStatus()`: temperature from the signed
   * byte 1, the brake released iff byte 3 is non-zero, the raw voltage
   * (0.1 V) and the error code from the uint16 fields at 4 and 6.
   */
  function GetMotorStatus1(p: Payload): (s: MotorStatus1)
    ensures Representation(I8, s.temperature) == p[1..2]
    ensures s.isBrakeReleased <==> p[3] != 0
    ensures Representation(U16, s.voltageRaw) == p[4..6]
    ensures Representation(U16, s.errorCode) == p[6..8]
  {
    MotorStatus1(Read(p, I8, 1), Read(p, U8, 3) != 0, Read(p, U16, 4), Read(p, U16, 6))
  }

  /** Byte 2 is not part of motor status 1. */
  lemma GetMotorStatus1IgnoresByte2(p: Payload, b: uint8)
    ensures GetMotorStatus1(p[2 := b]) == GetMotorStatus1(p)
  {
    var q := p[2 := b];
    assert q[1..2] == p[1..2] && q[4..6] == p[4..6] && q[6..8] == p[6..8];
    RepresentationInjective(I8, GetMotorStatus1(q).temperature, GetMotorStatus1(p).temperature);
    RepresentationInjective(U16, GetMotorStatus1(q).voltageRaw, GetMotorStatus1(p).voltageRaw);
    RepresentationInjective(U16, GetMotorStatus1(q).errorCode, GetMotorStatus1(p).errorCode);
  }

  /** The status-1 frame of the tests: 50 degrees, brake released, 48.5 V, low voltage. */
  lemma GetMotorStatus1Example(p: Payload)
    requires p == [0x9A, 0x32, 0x00, 0x01, 0xE5, 0x01, 0x04, 0x00]
    ensures GetMotorStatus1(p) == MotorStatus1(50, true, 485, LowVoltage)
  {
    ReadBytes(p, I8, 1);
    ReadBytes(p, U16, 4);
    ReadBytes(p, U16, 6);
  }

  /**
   * `GetMotorStatus3Response::getStatus()`: temperature from the signed
   * byte 1, the raw phase currents (0.01 A) from the int16 fields at 2, 4, 6.
   */
  function GetMotorStatus3(p: Payload): (s: MotorStatus3)
    ensures Representation(I8, s.temperature) == p[1..2]
    ensures Representation(I16, s.currentPhaseA) == p[2..4]
    ensures Representation(I16, s.currentPhaseB) == p[4..6]
    ensures Representation(I16, s.currentPhaseC) == p[6..8]
  {
    MotorStatus3(Read(p, I8, 1), Read(p, I16, 2), Read(p, I16, 4), Read(p, I16, 6))
  }

  /** The status-3 frame of the tests: 50 degrees, 30.1 A, -15.2 A, -16.0 A. */
  lemma GetMotorStatus3Example(p: Payload)
    requires p == [0x9D, 0x32, 0xC2, 0x0B, 0x10, 0xFA, 0xC0, 0xF9]
    ensures GetMotorStatus3(p) == MotorStatus3(50, 3010, -1520, -1600)
  {
    ReadBytes(p, I8, 1);
    ReadBytes(p, I16, 2);
    ReadBytes(p, I16, 4);
    ReadBytes(p, I16, 6);
  }

  /** `GetMultiTurnAngleResponse::getAngle()` before its 0.01 degree scaling: the int32 at offset 4. */
  function GetMultiTurnAngleRaw(p: Payload): (angle: int32)
    ensures Representation(I32, angle) == p[4..8]
  {
    Read(p, I32, 4)
  }

  /** `GetSingleTurnAngleResponse::getAngle()` before its 0.01 degree scaling: the int16 at offset 6. */
  function GetSingleTurnAngleRaw(p: Payload): (angle: int16)
    ensures Representation(I16, angle) == p[6..8]
  {
    Read(p, I16, 6)
  }

  /** The angle frames of the tests: 360 degrees multi-turn, 100 degrees single-turn. */
  lemma AngleRawExamples(multi: Payload, single: Payload)
    requires multi == [0x92, 0x00, 0x00, 0x00, 0xA0, 0x8C, 0x00, 0x00]
    requires single == [0x94, 0x00, 0x00, 0x00, 0x00, 0x00, 0x10, 0x27]
    ensures GetMultiTurnAngleRaw(multi) == 36000
    ensures GetSingleTurnAngleRaw(single) == 10000
  {
    ReadBytes(multi, I32, 4);
    ReadBytes(single, I16, 6);
  }

  /** `GetSingleTurnEncoderPositionResponse::getPosition()`: the int16 at offset 2. */
  function GetEncoderPosition(p: Payload): (v: int16)
    ensures Representation(I16, v) == p[2..4]
  {
    Read(p, I16, 2)
  }

  /** `GetSingleTurnEncoderPositionResponse::getRawPosition()`: the int16 at offset 4. */
  function GetEncoderRawPosition(p: Payload): (v: int16)
    ensures Representation(I16, v) == p[4..6]
  {
    Read(p, I16, 4)
  }

  /** `GetSingleTurnEncoderPositionResponse::getOffset()`: the int16 at offset 6. */
  function GetEncoderOffset(p: Payload): (v: int16)
    ensures Representation(I16, v) == p[6..8]
  {
    Read(p, I16, 6)
  }

  /** The encoder frame of the tests: position 2099, raw position 11454, offset 9355. */
  lemma EncoderExample(p: Payload)
    requires p == [0x90, 0x00, 0x33, 0x08, 0xBE, 0x2C, 0x8B, 0x24]
    ensures GetEncoderPosition(p) == 2099 && GetEncoderRawPosition(p) == 11454 && GetEncoderOffset(p) == 9355
  {
    ReadBytes(p, I16, 2);
    ReadBytes(p, I16, 4);
    ReadBytes(p, I16, 6);
  }

  /** `GetSystemRuntimeResponse::getRuntime()`: the uint32 at offset 4, in milliseconds. */
  function GetRuntime(p: Payload): (ms: uint32)
    ensures Representation(U32, ms) == p[4..8]
  {
    Read(p, U32, 4)
  }

  lemma GetRuntimeExample(p: Payload)
    requires p == [0xB1, 0x00, 0x00, 0x00, 0x00, 0x00, 0x00, 0x10]
    ensures GetRuntime(p) == 268435456
  {
    ReadBytes(p, U32, 4);
  }

  /** `GetVersionDateResponse::getVersion()`: the uint32 at offset 4. */
  function GetVersion(p: Payload): (version: uint32)
    ensures Representation(U32, version) == p[4..8]
  {
    Read(p, U32, 4)
  }

  lemma GetVersionExample(p: Payload)
    requires p == [0xB2, 0x00, 0x00, 0x00, 0x2E, 0x89, 0x34, 0x01]
    ensures GetVersion(p) == 20220206
  {
    ReadBytes(p, U32, 4);
  }
}
