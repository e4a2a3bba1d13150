/** `myactuator_rmd::CommandType`: the first byte of every request and response. */
module CommandTypes {
  import opened Wrappers
  import opened Integers

  datatype CommandType =
    | ReadPidParameters
    | WritePidParametersToRam
    | WritePidParametersToRom
    | ReadAcceleration
    | WriteAccelerationToRamAndRom
    | ReadMultiTurnEncoderPosition
    | ReadMultiTurnEncoderOriginalPosition
    | ReadMultiTurnEncoderZeroOffset
    | WriteEncoderMultiTurnValueToRomAsZero
    | WriteCurrentMultiTurnPositionToRomAsZero
    | ReadSingleTurnEncoder
    | ReadMultiTurnAngle
    | ReadSingleTurnAngle
    | ReadMotorStatus1AndErrorFlag
    | ReadMotorStatus2
    | ReadMotorStatus3
    | ShutdownMotor
    | StopMotor
    | TorqueClosedLoopControl
    | SpeedClosedLoopControl
    | AbsolutePositionClosedLoopControl
    | ReadSystemOperatingMode
    | ReadMotorPower
    | ResetSystem
    | ReleaseBrake
    | LockBrake
    | ReadSystemRuntime
    | ReadSystemSoftwareVersionDate
    | CommunicationInterruptionProtectionTimeSetting
    | CommunicationBaudRateSetting
    | ReadMotorModel
    | CanIdSetting
  {
    /** The underlying `std::uint8_t` of the enumerator. */
    function Value(): uint8 {
      match this
      case ReadPidParameters => 0x30
      case WritePidParametersToRam => 0x31
      case WritePidParametersToRom => 0x32
      case ReadAcceleration => 0x42
      case WriteAccelerationToRamAndRom => 0x43
      case ReadMultiTurnEncoderPosition => 0x60
      case ReadMultiTurnEncoderOriginalPosition => 0x61
      case ReadMultiTurnEncoderZeroOffset => 0x62
      case WriteEncoderMultiTurnValueToRomAsZero => 0x63
      case WriteCurrentMultiTurnPositionToRomAsZero => 0x64
      case ReadSingleTurnEncoder => 0x90
      case ReadMultiTurnAngle => 0x92
      case ReadSingleTurnAngle => 0x94
      case ReadMotorStatus1AndErrorFlag => 0x9A
      case ReadMotorStatus2 => 0x9C
      case ReadMotorStatus3 => 0x9D
      case ShutdownMotor => 0x80
      case StopMotor => 0x81
      case TorqueClosedLoopControl => 0xA1
      case SpeedClosedLoopControl => 0xA2
      case AbsolutePositionClosedLoopControl => 0xA4
      case ReadSystemOperatingMode => 0x70
      case ReadMotorPower => 0x71
      case ResetSystem => 0x76
      case ReleaseBrake => 0x77
      case LockBrake => 0x78
      case ReadSystemRuntime => 0xB1
      case ReadSystemSoftwareVersionDate => 0xB2
      case CommunicationInterruptionProtectionTimeSetting => 0xB3
      case CommunicationBaudRateSetting => 0xB4
      case ReadMotorModel => 0xB5
      case CanIdSetting => 0x79
    }
  }

  /** The enumerator whose underlying byte is `b`, if any. */
  function FromValue(b: uint8): Option<CommandType> {
    match b
    case 0x30 => Some(ReadPidParameters)
    case 0x31 => Some(WritePidParametersToRam)
    case 0x32 => Some(WritePidParametersToRom)
    case 0x42 => Some(ReadAcceleration)
    case 0x43 => Some(WriteAccelerationToRamAndRom)
    case 0x60 => Some(ReadMultiTurnEncoderPosition)
    case 0x61 => Some(ReadMultiTurnEncoderOriginalPosition)
    case 0x62 => Some(ReadMultiTurnEncoderZeroOffset)
    case 0x63 => Some(WriteEncoderMultiTurnValueToRomAsZero)
    case 0x64 => Some(WriteCurrentMultiTurnPositionToRomAsZero)
    case 0x90 => Some(ReadSingleTurnEncoder)
    case 0x92 => Some(ReadMultiTurnAngle)
    case 0x94 => Some(ReadSingleTurnAngle)
    case 0x9A => Some(ReadMotorStatus1AndErrorFlag)
    case 0x9C => Some(ReadMotorStatus2)
    case 0x9D => Some(ReadMotorStatus3)
    case 0x80 => Some(ShutdownMotor)
    case 0x81 => Some(StopMotor)
    case 0xA1 => Some(TorqueClosedLoopControl)
    case 0xA2 => Some(SpeedClosedLoopControl)
    case 0xA4 => Some(AbsolutePositionClosedLoopControl)
    case 0x70 => Some(ReadSystemOperatingMode)
    case 0x71 => Some(ReadMotorPower)
    case 0x76 => Some(ResetSystem)
    case 0x77 => Some(ReleaseBrake)
    case 0x78 => Some(LockBrake)
    case 0xB1 => Some(ReadSystemRuntime)
    case 0xB2 => Some(ReadSystemSoftwareVersionDate)
    case 0xB3 => Some(CommunicationInterruptionProtectionTimeSetting)
    case 0xB4 => Some(CommunicationBaudRateSetting)
    case 0xB5 => Some(ReadMotorModel)
    case 0x79 => Some(CanIdSetting)
    case _ => None
  }

  /** Every enumerator is found again from its byte. */
  lemma FromValueOfValue(c: CommandType)
    ensures FromValue(c.Value()) == Some(c)
  {
  }

  /** The enumerators have pairwise distinct bytes. */
  lemma ValueInjective(c: CommandType, d: CommandType)
    requires c.Value() == d.Value()
    ensures c == d
  {
    FromValueOfValue(c);
    FromValueOfValue(d);
  }

  /** `operator == (CommandType, std::uint8_t)`. */
  predicate Equals(c: CommandType, i: uint8) {
    i == c.Value()
  }

  /** `operator == (std::uint8_t, CommandType)`, which forwards to the other order. */
  predicate EqualsFlipped(i: uint8, c: CommandType) {
    Equals(c, i)
  }

  /** `operator != (CommandType, std::uint8_t)`. */
  predicate NotEquals(c: CommandType, i: uint8) {
    !Equals(c, i)
  }

  /** `operator != (std::uint8_t, CommandType)`, which forwards to the other order. */
  predicate NotEqualsFlipped(i: uint8, c: CommandType) {
    NotEquals(c, i)
  }

  /**
   * The four comparison operators agree: both argument orders of `==` hold
   * exactly for the enumerator's byte, `!=` is the negation of `==` in both
   * orders, and a byte compares equal to at most one enumerator.
   */
  lemma ComparisonsAgree(c: CommandType, d: CommandType, i: uint8)
    ensures EqualsFlipped(i, c) <==> i == c.Value()
    ensures NotEquals(c, i) <==> !Equals(c, i)
    ensures NotEqualsFlipped(i, c) <==> !EqualsFlipped(i, c)
    ensures Equals(c, i) && EqualsFlipped(i, d) ==> c == d
  {
    if Equals(c, i) && EqualsFlipped(i, d) {
      ValueInjective(c, d);
    }
  }

  /** Fixed byte values of the gains, brake and CAN-id commands. */
  lemma CommandBytes()
    ensures ReadPidParameters.Value() == 0x30
    ensures WritePidParametersToRam.Value() == 0x31
    ensures WritePidParametersToRom.Value() == 0x32
    ensures ReleaseBrake.Value() == 0x77 && LockBrake.Value() == 0x78
    ensures CanIdSetting.Value() == 0x79
  {
  }
}
