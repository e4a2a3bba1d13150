/**
 * The response classes of `myactuator_rmd/protocol/responses/` and
 * `src/protocol/responses/`, each of which repeats the header check with
 * its own command byte, and the stricter version-date response.
 */
module ResponseHeaders {
  import opened Wrappers
  import opened Errors
  import opened Codec
  import opened Framing
  import opened CommandTypes
  import opened Responses
  import SingleMotorResponse

  /** `GetMotorStatus3Response(data)` of `responses/get_motor_status_3_response.hpp`: byte 0 must be 0x9D, otherwise `ProtocolException`. */
  function GetMotorStatus3Response(data: Payload): (r: Result<Payload, Error>)
    ensures r.Success? <==> data[0] == 0x9D
    ensures r.Success? ==> r.value == data
    ensures r.Failure? ==> r.error == ProtocolException
  {
    CheckCommandByte(ReadMotorStatus3.Value(), ProtocolException, data)
  }

  /** `GetMotorModelResponse(data)` of `responses/get_motor_model_response.hpp`: byte 0 must be 0xB5, otherwise `ProtocolException`. */
  function GetMotorModelResponse(data: Payload): (r: Result<Payload, Error>)
    ensures r.Success? <==> data[0] == 0xB5
    ensures r.Success? ==> r.value == data
    ensures r.Failure? ==> r.error == ProtocolException
  {
    CheckCommandByte(ReadMotorModel.Value(), ProtocolException, data)
  }

  /** `SetControllerGainsPersistentlyResponse(data)` of `responses/set_controller_gains_persistently_response.hpp`: byte 0 must be 0x32, otherwise `ProtocolException`. */
  function SetControllerGainsPersistentlyResponse(data: Payload): (r: Result<Payload, Error>)
    ensures r.Success? <==> data[0] == 0x32
    ensures r.Success? ==> r.value == data
    ensures r.Failure? ==> r.error == ProtocolException
  {
    CheckCommandByte(WritePidParametersToRom.Value(), ProtocolException, data)
  }

  /** `StopMotorResponse(data)` of `src/protocol/responses/stop_motor_response.cpp`: byte 0 must be 0x81, otherwise `ProtocolException`. */
  function StopMotorResponse(data: Payload): (r: Result<Payload, Error>)
    ensures r.Success? <==> data[0] == 0x81
    ensures r.Success? ==> r.value == data
    ensures r.Failure? ==> r.error == ProtocolException
  {
    CheckCommandByte(StopMotor.Value(), ProtocolException, data)
  }

  /** `ShutdownMotorResponse(data)` of `src/protocol/responses/shutdown_motor_response.cpp`: byte 0 must be 0x80, otherwise `ProtocolException`. */
  function ShutdownMotorResponse(data: Payload): (r: Result<Payload, Error>)
    ensures r.Success? <==> data[0] == 0x80
    ensures r.Success? ==> r.value == data
    ensures r.Failure? ==> r.error == ProtocolException
  {
    CheckCommandByte(ShutdownMotor.Value(), ProtocolException, data)
  }

  /** The version-date header: command byte 0xB2 followed by three zero bytes. */
  predicate VersionDateHeader(data: Payload) {
    data[..4] == [ReadSystemSoftwareVersionDate.Value(), 0, 0, 0]
  }

  /**
   * `GetVersionDateResponse(data)`: throws `ProtocolException` unless byte 0
   * is 0xB2 and bytes 1, 2 and 3 are zero; bytes 4..7 are not validated.
   */
  function GetVersionDateResponse(data: Payload): (r: Result<Payload, Error>)
    ensures r.Success? <==> data[0] == 0xB2 && data[1] == 0 && data[2] == 0 && data[3] == 0
    ensures r.Success? ==> r.value == data
    ensures r.Failure? ==> r.error == ProtocolException
  {
    if data[0] != ReadSystemSoftwareVersionDate.Value() || data[1] != 0 || data[2] != 0 || data[3] != 0
    then Failure(ProtocolException)
    else Success(data)
  }

  /**
   * The version-date check is the header predicate, and it is strictly
   * stronger than the generic single-byte check for the same command.
   */
  lemma VersionDateStricter(data: Payload)
    ensures GetVersionDateResponse(data).Success? <==> VersionDateHeader(data)
    ensures GetVersionDateResponse(data).Success? ==> SingleMotorResponse.New(ReadSystemSoftwareVersionDate, data).Success?
    ensures var d: Payload := [0xB2, 1, 0, 0, 0, 0, 0, 0];
      GetVersionDateResponse(d).Failure? && SingleMotorResponse.New(ReadSystemSoftwareVersionDate, d).Success?
  {
    if VersionDateHeader(data) {
      assert data[0] == data[..4][0] && data[1] == data[..4][1] && data[2] == data[..4][2] && data[3] == data[..4][3];
    }
  }

  /** The version-date frame of the tests is accepted and carries version 20220206. */
  lemma GetVersionDateExample(p: Payload)
    requires p == [0xB2, 0x00, 0x00, 0x00, 0x2E, 0x89, 0x34, 0x01]
    ensures GetVersionDateResponse(p) == Success(p) && GetVersion(p) == 20220206
  {
    GetVersionExample(p);
  }
}
