/**
 * The legacy `myactuator_rmd_driver::Node<SEND_ID_OFFSET, RECEIVE_ID_OFFSET>`:
 * the id of the actuator it is bound to, and the send and receive
 * identifiers derived from it, kept consistent by `updateIds`.
 */
module LegacyNodes {
  import opened Wrappers
  import opened Integers
  import opened Errors
  import opened Addressing
  import LegacyDefinitions

  class Node {
    const sendIdOffset: uint32
    const receiveIdOffset: uint32
    /** `id_`. */
    var id: uint32
    /** `send_id_`. */
    var sendId: uint32
    /** `receive_id_`. */
    var receiveId: uint32

    ghost predicate Valid()
      reads this
    {
      IsActuatorId(id) && sendId == CanId(sendIdOffset, id) && receiveId == CanId(receiveIdOffset, id)
    }

    /** The socket as opened by `can::Node(ifname)`, before `updateIds` ran. */
    constructor Unconfigured(sendIdOffset: uint32, receiveIdOffset: uint32)
      ensures this.sendIdOffset == sendIdOffset && this.receiveIdOffset == receiveIdOffset
    {
      this.sendIdOffset := sendIdOffset;
      this.receiveIdOffset := receiveIdOffset;
      id, sendId, receiveId := 0, 0, 0;
    }

    /** `Node(ifname, id)`: throws for an id outside [1, 32], through `updateIds`. */
    static method New(sendIdOffset: uint32, receiveIdOffset: uint32, id: uint32) returns (r: Result<Node, Error>)
      ensures r.Failure? <==> !IsActuatorId(id)
      ensures r.Failure? ==> r.error == Exception
      ensures r.Success? ==> fresh(r.value) && r.value.Valid() && r.value.id == id
      ensures r.Success? ==> r.value.sendIdOffset == sendIdOffset && r.value.receiveIdOffset == receiveIdOffset
    {
      var node := new Node.Unconfigured(sendIdOffset, receiveIdOffset);
      var o := node.UpdateIds(id);
      if o.Fail? {
        return Failure(o.error);
      }
      return Success(node);
    }

    /** `updateIds(id)`: the range check precedes the assignments, so a rejected id changes nothing. */
    method UpdateIds(newId: uint32) returns (o: Outcome<Error>)
      modifies this
      ensures o.Fail? <==> !IsActuatorId(newId)
      ensures o.Fail? ==> o.error == Exception
      ensures o.Fail? ==> id == old(id) && sendId == old(sendId) && receiveId == old(receiveId)
      ensures o.Pass? ==> Valid() && id == newId
      ensures o.Pass? ==> sendId == CanId(sendIdOffset, newId) && receiveId == CanId(receiveIdOffset, newId)
    {
      if newId < 1 || newId > 32 {
        return Fail(Exception);
      }
      id := newId;
      sendId := AddUint32(sendIdOffset, id);
      receiveId := AddUint32(receiveIdOffset, id);
      return Pass;
    }
  }

  /** With the `Offset` constants of the legacy definitions, actuator 1 is addressed at 0x141 and answers from 0x241. */
  lemma LegacyOffsetsExample(node: Node)
    requires node.Valid() && node.id == 1
    requires node.sendIdOffset == LegacyDefinitions.RequestOffset && node.receiveIdOffset == LegacyDefinitions.ResponseOffset
    ensures node.sendId == 0x141 && node.receiveId == 0x241
  {
  }
}
