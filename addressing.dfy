/**
 * How an actuator id becomes a CAN identifier: the driver classes add a
 * fixed send offset (requests) or receive offset (replies) to the id, in
 * unsigned 32-bit arithmetic, after checking that the id lies in [1, 32].
 */
module Addressing {
  import opened Integers

  /** `CanAddressOffset::request` and `CanAddressOffset::response`. */
  const RequestOffset: uint32 := 0x140
  const ResponseOffset: uint32 := 0x240

  /** The offsets of the motion-mode `CanDriver`, a `CanNode<0x400,0x500>`. */
  const MotionModeRequestOffset: uint32 := 0x400
  const MotionModeResponseOffset: uint32 := 0x500

  const MinActuatorId: uint32 := 1
  const MaxActuatorId: uint32 := 32

  /** The ids `addId` and `updateIds` accept. */
  predicate IsActuatorId(id: uint32) {
    MinActuatorId <= id <= MaxActuatorId
  }

  /** `OFFSET + actuator_id` as `std::uint32_t`. */
  function CanId(offset: uint32, actuatorId: uint32): (canId: uint32)
    ensures offset + actuatorId < Uint32Modulus ==> canId == offset + actuatorId
    ensures (offset + actuatorId - canId) % Uint32Modulus == 0
  {
    AddUint32(offset, actuatorId)
  }

  /** The actuator id a CAN identifier stands for, given the offset: the inverse of `CanId`. */
  function ActuatorIdOf(offset: uint32, canId: uint32): (actuatorId: uint32)
    ensures offset <= canId ==> actuatorId == canId - offset
  {
    (canId - offset) % Uint32Modulus
  }

  /** No information is lost: the actuator id can be read back from its CAN identifier. */
  lemma ActuatorIdOfCanId(offset: uint32, actuatorId: uint32)
    ensures ActuatorIdOf(offset, CanId(offset, actuatorId)) == actuatorId
  {
    if offset + actuatorId >= Uint32Modulus {
      assert CanId(offset, actuatorId) == offset + actuatorId - Uint32Modulus;
      assert CanId(offset, actuatorId) - offset == actuatorId - Uint32Modulus;
    }
  }

  /** Distinct actuators get distinct CAN identifiers, even where the sum wraps. */
  lemma CanIdInjective(offset: uint32, a: uint32, b: uint32)
    requires CanId(offset, a) == CanId(offset, b)
    ensures a == b
  {
    ActuatorIdOfCanId(offset, a);
    ActuatorIdOfCanId(offset, b);
  }

  /**
   * With the driver's offsets an actuator is addressed at 0x140 + id and
   * answers from 0x240 + id, so the request and reply ranges of the 32
   * actuators never overlap; the same holds for the motion-mode offsets.
   */
  lemma DriverIdRanges(id: uint32)
    requires IsActuatorId(id)
    ensures CanId(RequestOffset, id) == 0x140 + id && CanId(ResponseOffset, id) == 0x240 + id
    ensures 0x141 <= CanId(RequestOffset, id) <= 0x160 && 0x241 <= CanId(ResponseOffset, id) <= 0x260
    ensures CanId(MotionModeRequestOffset, id) == 0x400 + id && CanId(MotionModeResponseOffset, id) == 0x500 + id
  {
  }

  /** Actuator 1 is addressed at 0x141 and answers from 0x241. */
  lemma FirstActuatorExample()
    ensures CanId(RequestOffset, 1) == 0x141 && CanId(ResponseOffset, 1) == 0x241
    ensures CanId(MotionModeRequestOffset, 1) == 0x401 && CanId(MotionModeResponseOffset, 1) == 0x501
  {
  }
}
