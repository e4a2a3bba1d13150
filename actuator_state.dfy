/**
 * Value types of `myactuator_rmd/actuator_state`: controller gains, and the
 * byte-valued enumerations. The enumerations are kept as plain numbers,
 * because the decoders `static_cast` any received byte into them.
 */
module ActuatorState {
  import opened Integers

  /** `PiGains`: proportional and integral gain of one control loop. */
  datatype PiGains = PiGains(kp: uint8, ki: uint8)

  /** `Gains`: the current, speed and position loop gains. */
  datatype Gains = Gains(current: PiGains, speed: PiGains, position: PiGains)

  /** `PiGains(kp_ = 0, ki_ = 0)`. */
  function MakePiGains(kp: uint8 := 0, ki: uint8 := 0): (g: PiGains)
    ensures g.kp == kp && g.ki == ki
  {
    PiGains(kp, ki)
  }

  /** `Gains(current_, speed_, position_)`. */
  function MakeGains(current: PiGains, speed: PiGains, position: PiGains): (g: Gains)
    ensures g.current == current && g.speed == speed && g.position == position
  {
    Gains(current, speed, position)
  }

  /** The six-argument `Gains` constructor, every argument defaulting to 0. */
  function MakeGainsFromValues(currentKp: uint8 := 0, currentKi: uint8 := 0,
                               speedKp: uint8 := 0, speedKi: uint8 := 0,
                               positionKp: uint8 := 0, positionKi: uint8 := 0): (g: Gains)
    ensures g.current.kp == currentKp && g.current.ki == currentKi
    ensures g.speed.kp == speedKp && g.speed.ki == speedKi
    ensures g.position.kp == positionKp && g.position.ki == positionKi
  {
    Gains(MakePiGains(currentKp, currentKi), MakePiGains(speedKp, speedKi), MakePiGains(positionKp, positionKi))
  }

  /** The six-argument constructor groups its arguments pairwise into the three loops. */
  lemma SixArgumentsGroupPairwise(ckp: uint8, cki: uint8, skp: uint8, ski: uint8, pkp: uint8, pki: uint8)
    ensures MakeGainsFromValues(ckp, cki, skp, ski, pkp, pki)
         == MakeGains(MakePiGains(ckp, cki), MakePiGains(skp, ski), MakePiGains(pkp, pki))
  {
  }

  /** A default `Gains` (and a default `PiGains`) is all zeros. */
  lemma DefaultGainsAreZero()
    ensures MakePiGains() == PiGains(0, 0)
    ensures var g := MakeGainsFromValues();
      g.current == g.speed == g.position == PiGains(0, 0)
  {
  }

  /** `AccelerationType` (`std::uint8_t`). */
  type AccelerationType = uint8
  const PositionPlanningAcceleration: AccelerationType := 0x00
  const PositionPlanningDeceleration: AccelerationType := 0x01
  const VelocityPlanningAcceleration: AccelerationType := 0x02
  const VelocityPlanningDeceleration: AccelerationType := 0x03

  /** `ControlMode` (`std::uint8_t`). */
  type ControlMode = uint8
  const ControlModeNone: ControlMode := 0x00
  const ControlModeCurrent: ControlMode := 0x01
  const ControlModeVelocity: ControlMode := 0x02
  const ControlModePosition: ControlMode := 0x03

  /** `CanBaudRate` (and the identical `BaudRate`), `std::uint8_t`. */
  type CanBaudRate = uint8
  const Kbps500: CanBaudRate := 0
  const Mbps1: CanBaudRate := 1

  /** `ErrorCode` (`std::uint16_t`): any received value, listed or not. */
  type ErrorCode = uint16
  const NoError: ErrorCode := 0x0000
  const MotorStall: ErrorCode := 0x0002
  const LowVoltage: ErrorCode := 0x0004
  const Overvoltage: ErrorCode := 0x0008
  const Overcurrent: ErrorCode := 0x0010
  const PowerOverrun: ErrorCode := 0x0040
  const Speeding: ErrorCode := 0x0100
  const Unspecified1: ErrorCode := 0x0200
  const Unspecified2: ErrorCode := 0x0400
  const Unspecified3: ErrorCode := 0x0800
  const Overtemperature: ErrorCode := 0x1000
  const EncoderCalibrationError: ErrorCode := 0x2000

  /**
   * `Feedback` of the closed-loop control responses with the raw integers
   * the actuator sends: the current in units of 0.01 A, the speed in
   * degrees per second, the angle in degrees.
   */
  datatype Feedback = Feedback(temperature: int8, currentRaw: int16, shaftSpeed: int16, shaftAngle: int16)

  /** `MotorStatus1` with the raw voltage in units of 0.1 V. */
  datatype MotorStatus1 = MotorStatus1(temperature: int8, isBrakeReleased: bool, voltageRaw: uint16, errorCode: ErrorCode)

  /** `MotorStatus3` with the raw phase currents in units of 0.01 A. */
  datatype MotorStatus3 = MotorStatus3(temperature: int8, currentPhaseA: int16, currentPhaseB: int16, currentPhaseC: int16)
}
