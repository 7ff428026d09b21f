/** Types shared by the modules of the LoRaSerial model. */
module Basics {

  type byte = bv8

  datatype Option<+T> = None | Some(value: T)

  /** A value of the firmware's two-bit `ackNumber` field. */
  type Number = n: nat | n < 4

  /** The increment `(n + 1) & 3`. */
  function Succ4(n: Number): Number {
    (n + 1) % 4
  }

  /** The decrement `(n - 1) & 3`, which takes 0 to 3. */
  function Pred4(n: Number): Number {
    (n + 3) % 4
  }

  /** The two parties of a link; `Other` names the peer. */
  datatype Side = Left | Right

  function Other(side: Side): Side {
    if side.Left? then Right else Left
  }

  /** Circuit numbers of virtual-circuit mode. */
  const MAX_VC := 32

  /** The millisecond clock counts in 32 bits. */
  const MILLIS := 0x1_0000_0000

  /** Difference of two readings of the wrapping clock. */
  function Elapsed(now: nat, since: nat): nat {
    (now - since) % MILLIS
  }

  function Concat<T>(parts: seq<seq<T>>): seq<T> {
    if parts == [] then [] else parts[0] + Concat(parts[1..])
  }
}
