/**
 * Command framing shared by all messages: byte 0 of a payload is the
 * command byte. Requests force it; responses reject a payload whose byte 0
 * is not the expected one.
 */
module Framing {
  import opened Wrappers
  import opened Integers
  import opened Errors
  import opened Codec

  /**
   * The header check of a response constructor: a payload whose byte 0 is
   * `expected` is stored unchanged, any other throws `failure`. Bytes 1..7
   * are not looked at.
   */
  function CheckCommandByte(expected: uint8, failure: Error, data: Payload): (r: Result<Payload, Error>)
    ensures r.Success? <==> data[0] == expected
    ensures r.Success? ==> r.value == data
    ensures r.Failure? ==> r.error == failure
  {
    if data[0] != expected then Failure(failure) else Success(data)
  }

  /** Only byte 0 is inspected: payloads that agree on it are accepted or rejected together. */
  lemma CheckCommandByteOnlyByte0(expected: uint8, failure: Error, d: Payload, e: Payload)
    requires d[0] == e[0]
    ensures CheckCommandByte(expected, failure, d).Success? == CheckCommandByte(expected, failure, e).Success?
  {
  }

  /** The payload of a request built from `data`: byte 0 overwritten with the command byte `c`. */
  function ForceCommandByte(c: uint8, data: Payload): (r: Payload)
    ensures r[0] == c
    ensures forall k :: 1 <= k < PayloadLength ==> r[k] == data[k]
  {
    data[0 := c]
  }

  /** Building a request again from a request's own bytes gives the same bytes. */
  lemma ForceCommandByteIdempotent(c: uint8, data: Payload)
    ensures ForceCommandByte(c, ForceCommandByte(c, data)) == ForceCommandByte(c, data)
  {
  }

  /** With the default argument a request is the command byte followed by seven zeros. */
  lemma ForceCommandByteDefault(c: uint8)
    ensures ForceCommandByte(c, Zeros) == [c, 0, 0, 0, 0, 0, 0, 0]
  {
  }

  /** A forced payload passes the header check for the same command byte, whatever its other bytes. */
  lemma ForcedPassesCheck(c: uint8, failure: Error, data: Payload)
    ensures CheckCommandByte(c, failure, ForceCommandByte(c, data)) == Success(ForceCommandByte(c, data))
  {
  }
}
