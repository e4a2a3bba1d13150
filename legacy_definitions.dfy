/** `myactuator_rmd_driver::Offset` and `myactuator_rmd_driver::CommandType` of the legacy driver. */
module LegacyDefinitions {
  import opened Wrappers
  import opened Integers

  datatype CommandType =
    | ReadPidParameter
    | WritePidParameterToRam
    | WritePidParametersToRom
    | ReadMotorStatus1AndErrorFlag
    | ReadMotorStatus2
    | ReadMotorStatus3
    | MotorShutdown
    | MotorStop
    | TorqueClosedLoopControl
    | SpeedClosedLoopControl
    | AbsolutePositionClosedLoopControl
    | SystemSoftwareVersionDate
  {
    /** The underlying `std::uint8_t` of the enumerator. */
    function Value(): uint8 {
      match this
      case ReadPidParameter => 0x30
      case WritePidParameterToRam => 0x31
      case WritePidParametersToRom => 0x32
      case ReadMotorStatus1AndErrorFlag => 0x9A
      case ReadMotorStatus2 => 0x9C
      case ReadMotorStatus3 => 0x9D
      case MotorShutdown => 0x80
      case MotorStop => 0x81
      case TorqueClosedLoopControl => 0xA1
      case SpeedClosedLoopControl => 0xA2
      case AbsolutePositionClosedLoopControl => 0xA4
      case SystemSoftwareVersionDate => 0xB2
    }
  }

  /** The enumerator whose underlying byte is `b`, if any. */
  function FromValue(b: uint8): Option<CommandType> {
    match b
    case 0x30 => Some(ReadPidParameter)
    case 0x31 => Some(WritePidParameterToRam)
    case 0x32 => Some(WritePidParametersToRom)
    case 0x9A => Some(ReadMotorStatus1AndErrorFlag)
    case 0x9C => Some(ReadMotorStatus2)
    case 0x9D => Some(ReadMotorStatus3)
    case 0x80 => Some(MotorShutdown)
    case 0x81 => Some(MotorStop)
    case 0xA1 => Some(TorqueClosedLoopControl)
    case 0xA2 => Some(SpeedClosedLoopControl)
    case 0xA4 => Some(AbsolutePositionClosedLoopControl)
    case 0xB2 => Some(SystemSoftwareVersionDate)
    case _ => None
  }

  /** Every enumerator is found again from its byte. */
  lemma FromValueOfValue(c: CommandType)
    ensures FromValue(c.Value()) == Some(c)
  {
  }

  /** The enumerators have pairwise distinct bytes. */
  lemma ValueInjective(c: CommandType, d: CommandType)
    requires c.Value() == d.Value()
    ensures c == d
  {
    FromValueOfValue(c);
    FromValueOfValue(d);
  }

  /** `operator == (std::uint8_t, CommandType)`. */
  predicate Equals(i: uint8, c: CommandType) {
    i == c.Value()
  }

  /** `operator != (std::uint8_t, CommandType)`, written out independently of `==`. */
  predicate NotEquals(i: uint8, c: CommandType) {
    i != c.Value()
  }

  /** `!=` is the negation of `==`, and a byte equals at most one enumerator. */
  lemma NotEqualsIsNegation(i: uint8, c: CommandType, d: CommandType)
    ensures NotEquals(i, c) <==> !Equals(i, c)
    ensures Equals(i, c) && Equals(i, d) ==> c == d
  {
    if Equals(i, c) && Equals(i, d) {
      ValueInjective(c, d);
    }
  }

  /** Fixed byte values of the shutdown, stop and version-date commands. */
  lemma CommandBytes()
    ensures MotorShutdown.Value() == 0x80 && MotorStop.Value() == 0x81
    ensures SystemSoftwareVersionDate.Value() == 0xB2
  {
  }

  /** The request and response CAN-id offsets of the legacy driver. */
  const RequestOffset: uint32 := 0x140
  const ResponseOffset: uint32 := 0x240
}
