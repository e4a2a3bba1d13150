/**
 * The layout of controller gains in a payload: bytes 2..7 hold current kp,
 * current ki, speed kp, speed ki, position kp, position ki. Every gains
 * request and response reads them the same way.
 */
module GainsLayout {
  import opened Codec
  import opened ActuatorState

  /** `getGains()`: the six gain bytes, in loop order and kp before ki. */
  function ReadGains(p: Payload): (g: Gains)
    ensures g.current == PiGains(p[2], p[3])
    ensures g.speed == PiGains(p[4], p[5])
    ensures g.position == PiGains(p[6], p[7])
  {
    MakeGainsFromValues(p[2], p[3], p[4], p[5], p[6], p[7])
  }

  /** The payload `p` with its gain bytes replaced by `g`. */
  function WriteGains(p: Payload, g: Gains): (r: Payload)
    ensures r[0] == p[0] && r[1] == p[1]
    ensures r[2..] == [g.current.kp, g.current.ki, g.speed.kp, g.speed.ki, g.position.kp, g.position.ki]
  {
    p[2 := g.current.kp][3 := g.current.ki][4 := g.speed.kp][5 := g.speed.ki][6 := g.position.kp][7 := g.position.ki]
  }

  /** Writing the gains and reading them back is the identity. */
  lemma ReadWrittenGains(p: Payload, g: Gains)
    ensures ReadGains(WriteGains(p, g)) == g
  {
  }

  /** Writing back the gains just read leaves the payload as it was. */
  lemma WriteReadGains(p: Payload)
    ensures WriteGains(p, ReadGains(p)) == p
  {
  }

  /** Bytes 0 and 1 do not influence the gains read. */
  lemma ReadGainsIgnoresHeader(p: Payload, q: Payload)
    requires p[2..] == q[2..]
    ensures ReadGains(p) == ReadGains(q)
  {
    assert forall k :: 2 <= k < PayloadLength ==> p[k] == p[2..][k - 2] && q[k] == q[2..][k - 2];
  }
}
