/**
 * The computations `myactuator_rmd::can::Node` performs around its
 * SocketCAN system calls (`src/can/node.cpp`): building the receive
 * filters, the error mask, classifying a received frame and building the
 * frame to write. The kernel itself is not modelled: a received frame is a
 * parameter and a written frame is a result.
 */
module SocketCan {
  import opened Wrappers
  import opened Integers
  import opened Errors
  import opened Codec

  // Constants of linux/can.h and linux/can/error.h; each error class is one bit.
  const CanErrFlag: uint32 := 0x2000_0000
  const CanInvFilter: uint32 := 0x2000_0000
  const CanSffMask: uint32 := 0x7FF
  const CanErrTxTimeout: uint32 := 0x1
  const CanErrLostArb: uint32 := 0x2
  const CanErrCrtl: uint32 := 0x4
  const CanErrProt: uint32 := 0x8
  const CanErrTrx: uint32 := 0x10
  const CanErrAck: uint32 := 0x20
  const CanErrBusOff: uint32 := 0x40
  const CanErrBusError: uint32 := 0x80
  const CanErrRestarted: uint32 := 0x100

  /** The error classes in the order `read` tests them, each with its bit. */
  const ErrorClasses: seq<(uint32, CanErrorKind)> := [
    (CanErrTxTimeout, TxTimeout), (CanErrLostArb, LostArbitration), (CanErrCrtl, ControllerProblem),
    (CanErrProt, ProtocolViolation), (CanErrTrx, TransceiverStatus), (CanErrAck, NoAcknowledge),
    (CanErrBusOff, BusOff), (CanErrBusError, BusError), (CanErrRestarted, ControllerRestarted)]

  /** `(x & bit) != 0` for a single-bit mask `bit` (a power of two). */
  predicate HasBit(x: uint32, bit: uint32)
    requires bit > 0
  {
    (x / bit) % 2 == 1
  }

  /** `struct can_filter`. */
  datatype CanFilter = CanFilter(canId: uint32, canMask: uint32)

  /** `struct can_frame`: identifier, data length code and the eight data bytes. */
  datatype CanFrame = CanFrame(canId: uint32, dlc: uint8, data: Payload)

  /** `can::Frame`: an identifier and eight data bytes, immutable once built. */
  datatype Frame = Frame(id: uint32, data: Payload)

  /** `x | CAN_INV_FILTER`: sets bit 29 and keeps every other bit. */
  function SetInvFilter(x: uint32): (r: uint32)
    ensures HasBit(r, CanInvFilter)
    ensures r % CanInvFilter == x % CanInvFilter
    ensures r / (2 * CanInvFilter) == x / (2 * CanInvFilter)
    ensures HasBit(x, CanInvFilter) ==> r == x
  {
    if HasBit(x, CanInvFilter) then x else x + CanInvFilter
  }

  /**
   * The filter `setRecvFilter` installs for `canId`: the identifier, with
   * CAN_INV_FILTER set when the filter is inverted (reject instead of
   * accept), and the 11-bit standard-frame mask.
   */
  function FilterFor(canId: uint32, invert: bool): (f: CanFilter)
    ensures f.canMask == 0x7FF
    ensures !invert ==> f.canId == canId
    ensures invert ==> f.canId == SetInvFilter(canId)
  {
    CanFilter(if invert then SetInvFilter(canId) else canId, CanSffMask)
  }

  /** The filter list for `canIds`: the loop of `setRecvFilter` before its `setsockopt`. */
  method BuildRecvFilters(canIds: seq<uint32>, invert: bool) returns (filters: seq<CanFilter>)
    ensures filters == RecvFilters(canIds, invert)
  {
    var a := new CanFilter[|canIds|](_ => CanFilter(0, 0));
    var i := 0;
    while i < |canIds|
      invariant 0 <= i <= |canIds|
      invariant forall j :: 0 <= j < i ==> a[j] == FilterFor(canIds[j], invert)
    {
      if invert {
        a[i] := a[i].(canId := SetInvFilter(canIds[i]));
      } else {
        a[i] := a[i].(canId := canIds[i]);
      }
      a[i] := a[i].(canMask := CanSffMask);
      i := i + 1;
    }
    filters := a[..];
  }

  /** One filter per identifier, in the order of the identifiers. */
  function RecvFilters(canIds: seq<uint32>, invert: bool): (filters: seq<CanFilter>)
    ensures |filters| == |canIds|
    ensures forall i :: 0 <= i < |canIds| ==> filters[i] == FilterFor(canIds[i], invert)
  {
    seq(|canIds|, i requires 0 <= i < |canIds| => FilterFor(canIds[i], invert))
  }

  /** The filter list of the identifiers in order is the concatenation of their filter lists. */
  lemma RecvFiltersAppend(canIds: seq<uint32>, canId: uint32, invert: bool)
    ensures RecvFilters(canIds + [canId], invert) == RecvFilters(canIds, invert) + [FilterFor(canId, invert)]
  {
  }

  /** The union of the bits of the classes from index `i` on (the bits are distinct, so OR is a sum). */
  function OrAll(i: nat): nat
    requires i <= |ErrorClasses|
    decreases |ErrorClasses| - i
  {
    if i == |ErrorClasses| then 0 else ErrorClasses[i].0 + OrAll(i + 1)
  }

  /**
   * The mask `setErrorFilters` installs: every one of the nine error
   * classes when errors are to be signalled, no class otherwise.
   */
  function ErrorMask(isSignalErrors: bool): (mask: uint32)
    ensures forall i :: 0 <= i < |ErrorClasses| ==> (HasBit(mask, ErrorClasses[i].0) <==> isSignalErrors)
    ensures mask < 0x200
  {
    if isSignalErrors then
      CanErrTxTimeout + CanErrLostArb + CanErrCrtl + CanErrProt + CanErrTrx
      + CanErrAck + CanErrBusOff + CanErrBusError + CanErrRestarted
    else 0
  }

  /** The signalled mask is the union of the error-class bits. */
  lemma ErrorMaskIsUnion()
    ensures ErrorMask(true) == OrAll(0) == 0x1FF
  {
    assert OrAll(8) == 0x100;
    assert OrAll(6) == 0x1C0;
    assert OrAll(4) == 0x1F0;
    assert OrAll(2) == 0x1FC;
  }

  /** The error of the first class from index `i` on whose bit `canId` has, or `Exception`. */
  function FirstMatch(canId: uint32, i: nat): Error
    requires i <= |ErrorClasses|
    decreases |ErrorClasses| - i
  {
    if i == |ErrorClasses| then Exception
    else if HasBit(canId, ErrorClasses[i].0) then CanError(ErrorClasses[i].1)
    else FirstMatch(canId, i + 1)
  }

  /** `FirstMatch` picks the least index whose bit is set, and is `Exception` when there is none. */
  lemma {:induction false} FirstMatchIsLeast(canId: uint32, i: nat)
    requires i <= |ErrorClasses|
    ensures FirstMatch(canId, i) == Exception <==>
      forall j :: i <= j < |ErrorClasses| ==> !HasBit(canId, ErrorClasses[j].0)
    ensures FirstMatch(canId, i) != Exception ==>
      exists k :: i <= k < |ErrorClasses| && HasBit(canId, ErrorClasses[k].0)
        && FirstMatch(canId, i) == CanError(ErrorClasses[k].1)
        && forall j :: i <= j < k ==> !HasBit(canId, ErrorClasses[j].0)
    decreases |ErrorClasses| - i
  {
    if i == |ErrorClasses| {
    } else if HasBit(canId, ErrorClasses[i].0) {
      assert FirstMatch(canId, i) == CanError(ErrorClasses[i].1);
    } else {
      FirstMatchIsLeast(canId, i + 1);
      assert FirstMatch(canId, i) == FirstMatch(canId, i + 1);
    }
  }

  /** The exception the `if`-chain of `read` throws for an error frame. */
  function Classify(canId: uint32): (e: Error)
    ensures e.CanError? || e == Exception
  {
    if HasBit(canId, CanErrTxTimeout) then CanError(TxTimeout)
    else if HasBit(canId, CanErrLostArb) then CanError(LostArbitration)
    else if HasBit(canId, CanErrCrtl) then CanError(ControllerProblem)
    else if HasBit(canId, CanErrProt) then CanError(ProtocolViolation)
    else if HasBit(canId, CanErrTrx) then CanError(TransceiverStatus)
    else if HasBit(canId, CanErrAck) then CanError(NoAcknowledge)
    else if HasBit(canId, CanErrBusOff) then CanError(BusOff)
    else if HasBit(canId, CanErrBusError) then CanError(BusError)
    else if HasBit(canId, CanErrRestarted) then CanError(ControllerRestarted)
    else Exception
  }

  /** The `if`-chain takes the first matching class in the listed order. */
  lemma {:induction false} ClassifyIsFirstMatch(canId: uint32)
    ensures Classify(canId) == FirstMatch(canId, 0)
  {
    assert FirstMatch(canId, 8) == if HasBit(canId, CanErrRestarted) then CanError(ControllerRestarted) else Exception;
    assert FirstMatch(canId, 6) == if HasBit(canId, CanErrBusOff) then CanError(BusOff) else FirstMatch(canId, 7);
    assert FirstMatch(canId, 4) == if HasBit(canId, CanErrTrx) then CanError(TransceiverStatus) else FirstMatch(canId, 5);
    assert FirstMatch(canId, 2) == if HasBit(canId, CanErrCrtl) then CanError(ControllerProblem) else FirstMatch(canId, 3);
  }

  /** An error frame with several class bits is classified by the earliest in the order. */
  lemma ClassifyExamples()
    ensures Classify(0x2000_0006) == CanError(LostArbitration)
    ensures Classify(0x2000_0000) == Exception
    ensures Classify(0x2000_0180) == CanError(BusError)
  {
  }

  /**
   * `read()` after the kernel delivered `raw`: an error frame (CAN_ERR_FLAG
   * set) is never returned but classified and thrown; any other frame is
   * returned with its identifier and its eight data bytes unchanged.
   */
  function Read(raw: CanFrame): (r: Result<Frame, Error>)
    ensures r.Failure? <==> HasBit(raw.canId, CanErrFlag)
    ensures r.Failure? ==> r.error == FirstMatch(raw.canId, 0)
    ensures r.Success? ==> r.value.id == raw.canId && r.value.data == raw.data
  {
    if HasBit(raw.canId, CanErrFlag) then
      ClassifyIsFirstMatch(raw.canId);
      Failure(Classify(raw.canId))
    else Success(Frame(raw.canId, raw.data))
  }

  /** `write(can_id, data)`: the frame handed to the kernel. */
  function WriteFrame(canId: uint32, data: Payload): (f: CanFrame)
    ensures f.dlc == PayloadLength
    ensures f.canId == canId && f.data == data
  {
    CanFrame(canId, 8, data)
  }

  /** A written frame read back (on a loopback bus) is the frame that was written, unless its id is an error id. */
  lemma ReadWhatWasWritten(canId: uint32, data: Payload)
    ensures !HasBit(canId, CanErrFlag) ==> Read(WriteFrame(canId, data)) == Success(Frame(canId, data))
    ensures HasBit(canId, CanErrFlag) ==> Read(WriteFrame(canId, data)).Failure?
  {
  }
}
