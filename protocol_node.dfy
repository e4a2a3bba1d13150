/**
 * `myactuator_rmd::Node<SEND_ID_OFFSET, RECEIVE_ID_OFFSET>`, the base of a
 * node bound to a single actuator: it stores the actuator id together with
 * the request and reply identifiers derived from it, and writes every
 * request to that request identifier.
 */
module ProtocolNodes {
  import opened Wrappers
  import opened Integers
  import opened Errors
  import opened Codec
  import opened SocketCan
  import opened Addressing
  import opened Messages

  class Node {
    const sendIdOffset: uint32
    const receiveIdOffset: uint32
    /** `actuator_id_`. */
    var actuatorId: uint32
    /** `can_send_id_`. */
    var canSendId: uint32
    /** `can_receive_id_`. */
    var canReceiveId: uint32
    /** The filter list passed to the last `setsockopt(CAN_RAW_FILTER)`. */
    var recvFilter: seq<CanFilter>
    /** The frames written to the socket, oldest first. */
    var written: seq<CanFrame>

    /** Both identifiers and the filter are derived from the one stored actuator id. */
    ghost predicate Valid()
      reads this
    {
      IsActuatorId(actuatorId)
      && canSendId == CanId(sendIdOffset, actuatorId)
      && canReceiveId == CanId(receiveIdOffset, actuatorId)
      && recvFilter == RecvFilters([canReceiveId], false)
    }

    /** The socket as opened by `can::Node(ifname)`, before `updateIds` ran. */
    constructor Unconfigured(sendIdOffset: uint32, receiveIdOffset: uint32)
      ensures this.sendIdOffset == sendIdOffset && this.receiveIdOffset == receiveIdOffset
      ensures recvFilter == [] && written == []
    {
      this.sendIdOffset := sendIdOffset;
      this.receiveIdOffset := receiveIdOffset;
      actuatorId, canSendId, canReceiveId := 0, 0, 0;
      recvFilter := [];
      written := [];
    }

    /**
     * `Node(ifname, actuator_id)`: the constructor runs `updateIds`, so it
     * throws for an id outside [1, 32] and otherwise yields a node whose
     * fields agree.
     */
    static method New(sendIdOffset: uint32, receiveIdOffset: uint32, actuatorId: uint32) returns (r: Result<Node, Error>)
      ensures r.Failure? <==> !IsActuatorId(actuatorId)
      ensures r.Failure? ==> r.error == Exception
      ensures r.Success? ==> fresh(r.value) && r.value.Valid() && r.value.actuatorId == actuatorId
      ensures r.Success? ==> r.value.sendIdOffset == sendIdOffset && r.value.receiveIdOffset == receiveIdOffset
      ensures r.Success? ==> r.value.written == []
    {
      var node := new Node.Unconfigured(sendIdOffset, receiveIdOffset);
      var o := node.UpdateIds(actuatorId);
      if o.Fail? {
        return Failure(o.error);
      }
      return Success(node);
    }

    /**
     * `updateIds(actuator_id)`: the range check comes before any
     * assignment, so a rejected id leaves every field as it was.
     */
    method UpdateIds(id: uint32) returns (o: Outcome<Error>)
      modifies this
      ensures o.Fail? <==> !IsActuatorId(id)
      ensures o.Fail? ==> o.error == Exception
      ensures o.Fail? ==> actuatorId == old(actuatorId) && canSendId == old(canSendId)
      ensures o.Fail? ==> canReceiveId == old(canReceiveId) && recvFilter == old(recvFilter)
      ensures o.Pass? ==> Valid() && actuatorId == id
      ensures o.Pass? ==> canSendId == CanId(sendIdOffset, id) && canReceiveId == CanId(receiveIdOffset, id)
      ensures o.Pass? ==> recvFilter == [CanFilter(CanId(receiveIdOffset, id), CanSffMask)]
      ensures written == old(written)
    {
      if id < 1 || id > 32 {
        return Fail(Exception);
      }
      actuatorId := id;
      canSendId := AddUint32(sendIdOffset, actuatorId);
      canReceiveId := AddUint32(receiveIdOffset, actuatorId);
      var filters := BuildRecvFilters([canReceiveId], false);
      recvFilter := filters;
      return Pass;
    }

    /** `send(msg)`: writes the message's bytes to `can_send_id_`. */
    method Send(msg: Message)
      requires Valid() && msg.Valid()
      modifies this
      ensures Valid()
      ensures actuatorId == old(actuatorId) && recvFilter == old(recvFilter)
      ensures written == old(written) + [WriteFrame(CanId(sendIdOffset, actuatorId), msg.GetData())]
    {
      written := written + [WriteFrame(canSendId, msg.GetData())];
    }
  }

  /** A valid node's identifiers give its actuator id back. */
  lemma IdsDetermineActuator(node: Node)
    requires node.Valid()
    ensures ActuatorIdOf(node.sendIdOffset, node.canSendId) == node.actuatorId
    ensures ActuatorIdOf(node.receiveIdOffset, node.canReceiveId) == node.actuatorId
  {
    ActuatorIdOfCanId(node.sendIdOffset, node.actuatorId);
    ActuatorIdOfCanId(node.receiveIdOffset, node.actuatorId);
  }
}
