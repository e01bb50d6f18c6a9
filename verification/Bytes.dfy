/** Octets; `char` is unsigned on the target. */
module Bytes {
  type byte = x: int | 0 <= x < 256

  /** The parts one after the other. */
  function Flatten(parts: seq<seq<byte>>): seq<byte> {
    if parts == [] then [] else parts[0] + Flatten(parts[1..])
  }
}
