/**
 * The response classes of the legacy `myactuator_rmd_driver` tree. Each
 * repeats the header check with its own command byte and exception.
 *
 * Several of them name enumerators that the legacy `messages/definitions.hpp`
 * does not declare:
 * - the `protocol/responses` headers use those of a `command_type.hpp` that
 *   is not part of this model; their bytes are those of the same
 *   enumerators in `myactuator_rmd/protocol/command_type.hpp`;
 * - `src/messages/responses/shutdown_motor_response.cpp:15` and
 *   `stop_motor_response.cpp:15` use `SHUTDOWN_MOTOR` and `STOP_MOTOR`,
 *   which the legacy header spells `MOTOR_SHUTDOWN` (0x80) and `MOTOR_STOP`
 *   (0x81); the checks use `MotorShutdown` and `MotorStop`;
 * - `messages/responses/get_motor_model_response.hpp:57` uses
 *   `READ_MOTOR_MODEL`, which the legacy header has only as the commented-out
 *   `MOTOR_MODEL_READING = 0xB5`; the check uses 0xB5, the byte of
 *   `READ_MOTOR_MODEL` in `myactuator_rmd/protocol/command_type.hpp`.
 */
module LegacyResponses {
  import opened Wrappers
  import opened Errors
  import opened Codec
  import opened Framing
  import opened Integers
  import opened LegacyDefinitions
  import Responses

  /** `GetControllerGainsResponse(data)` of `myactuator_rmd_driver/protocol/responses/get_controller_gains_response.hpp`: byte 0 must be 0x30, otherwise `ProtocolException`. */
  function GetControllerGainsResponse(data: Payload): (r: Result<Payload, Error>)
    ensures r.Success? <==> data[0] == 0x30
    ensures r.Success? ==> r.value == data
    ensures r.Failure? ==> r.error == ProtocolException
  {
    CheckCommandByte(0x30, ProtocolException, data)
  }

  /** `GetMotorStatus1Response(data)` of `myactuator_rmd_driver/protocol/responses/get_motor_status_1_response.hpp`: byte 0 must be 0x9A, otherwise `ProtocolException`. */
  function GetMotorStatus1Response(data: Payload): (r: Result<Payload, Error>)
    ensures r.Success? <==> data[0] == 0x9A
    ensures r.Success? ==> r.value == data
    ensures r.Failure? ==> r.error == ProtocolException
  {
    CheckCommandByte(0x9A, ProtocolException, data)
  }

  /** `GetMotorStatus2Response(data)` of `myactuator_rmd_driver/protocol/responses/get_motor_status_2_response.hpp`: byte 0 must be 0x9C, otherwise `ProtocolException`. */
  function GetMotorStatus2Response(data: Payload): (r: Result<Payload, Error>)
    ensures r.Success? <==> data[0] == 0x9C
    ensures r.Success? ==> r.value == data
    ensures r.Failure? ==> r.error == ProtocolException
  {
    CheckCommandByte(0x9C, ProtocolException, data)
  }

  /** `SetControllerGainsResponse(data)` of `myactuator_rmd_driver/protocol/responses/set_controller_gains_response.hpp`: byte 0 must be 0x31, otherwise `ProtocolException`. */
  function SetControllerGainsResponse(data: Payload): (r: Result<Payload, Error>)
    ensures r.Success? <==> data[0] == 0x31
    ensures r.Success? ==> r.value == data
    ensures r.Failure? ==> r.error == ProtocolException
  {
    CheckCommandByte(0x31, ProtocolException, data)
  }

  /** `SetTorqueResponse(data)` of `myactuator_rmd_driver/protocol/responses/set_torque_response.hpp`: byte 0 must be 0xA1, otherwise `ProtocolException`. */
  function SetTorqueResponse(data: Payload): (r: Result<Payload, Error>)
    ensures r.Success? <==> data[0] == 0xA1
    ensures r.Success? ==> r.value == data
    ensures r.Failure? ==> r.error == ProtocolException
  {
    CheckCommandByte(0xA1, ProtocolException, data)
  }

  /** `GetMotorModelResponse(data)` of `myactuator_rmd_driver/messages/responses/get_motor_model_response.hpp`: byte 0 must be 0xB5, otherwise `ParsingException`. */
  function GetMotorModelResponse(data: Payload): (r: Result<Payload, Error>)
    ensures r.Success? <==> data[0] == 0xB5
    ensures r.Success? ==> r.value == data
    ensures r.Failure? ==> r.error == ParsingException
  {
    CheckCommandByte(0xB5, ParsingException, data)
  }

  /** `SetControllerGainsPersistentlyResponse(data)` of `myactuator_rmd_driver/messages/responses/set_controller_gains_persistently_response.hpp`: byte 0 must be 0x32, otherwise `ProtocolException`. */
  function SetControllerGainsPersistentlyResponse(data: Payload): (r: Result<Payload, Error>)
    ensures r.Success? <==> data[0] == 0x32
    ensures r.Success? ==> r.value == data
    ensures r.Failure? ==> r.error == ProtocolException
  {
    CheckCommandByte(WritePidParametersToRom.Value(), ProtocolException, data)
  }

  /** `SetPositionAbsoluteResponse(data)` of `myactuator_rmd_driver/messages/responses/set_position_absolute_response.hpp`: byte 0 must be 0xA4, otherwise `ParsingException`. */
  function SetPositionAbsoluteResponse(data: Payload): (r: Result<Payload, Error>)
    ensures r.Success? <==> data[0] == 0xA4
    ensures r.Success? ==> r.value == data
    ensures r.Failure? ==> r.error == ParsingException
  {
    CheckCommandByte(AbsolutePositionClosedLoopControl.Value(), ParsingException, data)
  }

  /** `SetVelocityResponse(data)` of `myactuator_rmd_driver/messages/responses/set_velocity_response.hpp`: byte 0 must be 0xA2, otherwise `ParsingException`. */
  function SetVelocityResponse(data: Payload): (r: Result<Payload, Error>)
    ensures r.Success? <==> data[0] == 0xA2
    ensures r.Success? ==> r.value == data
    ensures r.Failure? ==> r.error == ParsingException
  {
    CheckCommandByte(SpeedClosedLoopControl.Value(), ParsingException, data)
  }

  /** `ShutdownMotorResponse(data)` of `src/messages/responses/shutdown_motor_response.cpp`: byte 0 must be 0x80, otherwise `ParsingException`. */
  function ShutdownMotorResponse(data: Payload): (r: Result<Payload, Error>)
    ensures r.Success? <==> data[0] == 0x80
    ensures r.Success? ==> r.value == data
    ensures r.Failure? ==> r.error == ParsingException
  {
    CheckCommandByte(MotorShutdown.Value(), ParsingException, data)
  }

  /** `StopMotorResponse(data)` of `src/messages/responses/stop_motor_response.cpp`: byte 0 must be 0x81, otherwise `ProtocolException`. */
  function StopMotorResponse(data: Payload): (r: Result<Payload, Error>)
    ensures r.Success? <==> data[0] == 0x81
    ensures r.Success? ==> r.value == data
    ensures r.Failure? ==> r.error == ProtocolException
  {
    CheckCommandByte(MotorStop.Value(), ProtocolException, data)
  }

  /**
   * `VersionDateResponse(data)` of `src/messages/responses/version_date_response.cpp`:
   * throws `ParsingException` unless byte 0 is 0xB2 and bytes 1, 2 and 3
   * are zero; bytes 4..7 are not validated.
   */
  function VersionDateResponse(data: Payload): (r: Result<Payload, Error>)
    ensures r.Success? <==> data[..4] == [0xB2, 0, 0, 0]
    ensures r.Success? ==> r.value == data
    ensures r.Failure? ==> r.error == ParsingException
  {
    if data[0] != SystemSoftwareVersionDate.Value() || data[1] != 0 || data[2] != 0 || data[3] != 0
    then Failure(ParsingException)
    else Success(data)
  }

  /** `VersionDateResponse::getVersion()`: bytes 4..7 as an unsigned little-endian number. */
  function GetVersion(p: Payload): (version: uint32)
    ensures version == p[4] as int + 0x100 * p[5] as int + 0x1_0000 * p[6] as int + 0x100_0000 * p[7] as int
  {
    DecodeBytes(p[4..8]);
    DecodeLE(p[4..8])
  }

  /** The legacy getter reads the same number as `getAs<std::uint32_t>(4)` of the new tree. */
  lemma GetVersionAgrees(p: Payload)
    ensures GetVersion(p) == Responses.GetVersion(p)
  {
    RepresentationOfValue(U32, p[4..8]);
    RepresentationInjective(U32, Value(U32, p[4..8]), Responses.GetVersion(p));
  }

  lemma PrefixUnchanged(data: Payload, k: nat, b: uint8)
    requires 4 <= k < PayloadLength
    ensures data[k := b][..4] == data[..4]
  {
  }

  /** Bytes 4..7 are accepted whatever they are. */
  lemma VersionDateTailNotValidated(data: Payload)
    requires data[..4] == [0xB2, 0, 0, 0]
    ensures forall k: nat, b: uint8 {:trigger data[k := b]} :: 4 <= k < PayloadLength ==> VersionDateResponse(data[k := b]).Success?
  {
    forall k: nat, b: uint8 {:trigger data[k := b]} | 4 <= k < PayloadLength ensures VersionDateResponse(data[k := b]).Success? {
      PrefixUnchanged(data, k, b);
    }
  }
}
