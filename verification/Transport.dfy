/** The vocabulary every substrate shares: datagrams, typed errors, and the oracle parameters of a path.
    Durations are natural numbers of nanoseconds. */
module Transport {

  type Byte = b: nat | b < 256

  type Datagram = seq<Byte>

  datatype SubstrateError =
    Closed | Timeout | Malformed | AuthFailed | RemoteRejected | Backpressure | Io(context: string)

  datatype OracleParams = OracleParams(hops: nat, meanHopDelay: nat, dropProb: real, slotInterval: nat, mtu: nat) {
    function Rtt(): nat {
      meanHopDelay * hops * 2
    }
  }
}
