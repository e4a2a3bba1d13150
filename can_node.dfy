/**
 * `myactuator_rmd::CanNode<SEND_ID_OFFSET, RECEIVE_ID_OFFSET>`, the base of
 * the CAN driver: it keeps the list of actuator ids it talks to, installs a
 * receive filter for their reply identifiers, and writes each request to
 * the request identifier of its actuator. The socket is modelled by the
 * filter list last installed on it and the frames written to it.
 */
module CanNodes {
  import opened Wrappers
  import opened Integers
  import opened Errors
  import opened Codec
  import opened SocketCan
  import opened Addressing
  import opened Messages

  /** The reply identifiers of `ids`, in the same order. */
  function ReceiveIds(offset: uint32, ids: seq<uint32>): (canIds: seq<uint32>)
    ensures |canIds| == |ids|
    ensures forall k :: 0 <= k < |ids| ==> canIds[k] == CanId(offset, ids[k])
  {
    seq(|ids|, k requires 0 <= k < |ids| => CanId(offset, ids[k]))
  }

  /**
   * The receive filters the socket has once `ids` were added: none while no
   * id was added (the socket then receives every frame), and afterwards one
   * non-inverted standard-frame filter per added id, in insertion order.
   */
  function InstalledFilters(offset: uint32, ids: seq<uint32>): (filters: Option<seq<CanFilter>>)
    ensures ids == [] <==> filters == None
    ensures filters.Some? ==> |filters.value| == |ids|
    ensures filters.Some? ==> forall k :: 0 <= k < |ids| ==>
      filters.value[k] == CanFilter(CanId(offset, ids[k]), CanSffMask)
  {
    if ids == [] then None else Some(RecvFilters(ReceiveIds(offset, ids), false))
  }

  /** Adding an id adds exactly one filter, for that id's reply identifier, at the end. */
  lemma InstalledFiltersAppend(offset: uint32, ids: seq<uint32>, id: uint32)
    ensures InstalledFilters(offset, ids + [id]).Some?
    ensures ids != [] ==>
      InstalledFilters(offset, ids + [id]).value == InstalledFilters(offset, ids).value + [CanFilter(CanId(offset, id), CanSffMask)]
    ensures ids == [] ==> InstalledFilters(offset, ids + [id]).value == [CanFilter(CanId(offset, id), CanSffMask)]
  {
  }

  class CanNode {
    const sendIdOffset: uint32
    const receiveIdOffset: uint32
    /** `actuator_ids_`, in the order they were added; duplicates are kept. */
    var actuatorIds: seq<uint32>
    /** The filter list passed to the last `setsockopt(CAN_RAW_FILTER)`, if any. */
    var recvFilter: Option<seq<CanFilter>>
    /** The frames written to the socket, oldest first. */
    var written: seq<CanFrame>

    ghost predicate Valid()
      reads this
    {
      (forall k :: 0 <= k < |actuatorIds| ==> IsActuatorId(actuatorIds[k]))
      && recvFilter == InstalledFilters(receiveIdOffset, actuatorIds)
    }

    /** `CanNode(ifname)`: a node on a freshly opened socket, with no actuator yet. */
    constructor (sendIdOffset: uint32, receiveIdOffset: uint32)
      ensures Valid()
      ensures this.sendIdOffset == sendIdOffset && this.receiveIdOffset == receiveIdOffset
      ensures actuatorIds == [] && recvFilter == None && written == []
    {
      this.sendIdOffset := sendIdOffset;
      this.receiveIdOffset := receiveIdOffset;
      actuatorIds := [];
      recvFilter := None;
      written := [];
    }

    /** `getCanSendId(actuator_id)`. */
    function GetCanSendId(actuatorId: uint32): (canId: uint32)
      ensures canId == CanId(sendIdOffset, actuatorId)
      ensures ActuatorIdOf(sendIdOffset, canId) == actuatorId
    {
      ActuatorIdOfCanId(sendIdOffset, actuatorId);
      CanId(sendIdOffset, actuatorId)
    }

    /** `getCanReceiveId(actuator_id)`. */
    function GetCanReceiveId(actuatorId: uint32): (canId: uint32)
      ensures canId == CanId(receiveIdOffset, actuatorId)
      ensures ActuatorIdOf(receiveIdOffset, canId) == actuatorId
    {
      ActuatorIdOfCanId(receiveIdOffset, actuatorId);
      CanId(receiveIdOffset, actuatorId)
    }

    /**
     * `addId(actuator_id)`: throws `Exception` and changes nothing for an id
     * outside [1, 32]; otherwise appends the id and installs the filter list
     * for the reply identifiers of all ids so far.
     */
    method AddId(actuatorId: uint32) returns (o: Outcome<Error>)
      requires Valid()
      modifies this
      ensures Valid()
      ensures o.Fail? <==> !IsActuatorId(actuatorId)
      ensures o.Fail? ==> o.error == Exception && actuatorIds == old(actuatorIds) && recvFilter == old(recvFilter)
      ensures o.Pass? ==> actuatorIds == old(actuatorIds) + [actuatorId]
      ensures o.Pass? ==> recvFilter == InstalledFilters(receiveIdOffset, old(actuatorIds) + [actuatorId])
      ensures written == old(written)
    {
      if actuatorId < 1 || actuatorId > 32 {
        return Fail(Exception);
      }
      actuatorIds := actuatorIds + [actuatorId];
      var canReceiveIds: seq<uint32> := [];
      var k := 0;
      while k < |actuatorIds|
        invariant 0 <= k <= |actuatorIds|
        invariant canReceiveIds == ReceiveIds(receiveIdOffset, actuatorIds[..k])
      {
        canReceiveIds := canReceiveIds + [GetCanReceiveId(actuatorIds[k])];
        k := k + 1;
      }
      assert actuatorIds[..k] == actuatorIds;
      var filters := BuildRecvFilters(canReceiveIds, false);
      recvFilter := Some(filters);
      return Pass;
    }

    /** `send(msg, actuator_id)`: writes the message to the actuator's request identifier, without a range check. */
    method Send(msg: Message, actuatorId: uint32)
      requires Valid() && msg.Valid()
      modifies this
      ensures Valid()
      ensures actuatorIds == old(actuatorIds) && recvFilter == old(recvFilter)
      ensures written == old(written) + [WriteFrame(CanId(sendIdOffset, actuatorId), msg.GetData())]
    {
      var canSendId := GetCanSendId(actuatorId);
      written := written + [WriteFrame(canSendId, msg.GetData())];
    }
  }
}
