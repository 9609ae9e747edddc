/** Octets, and the greeting both proactor servers put before what they echo. */
module Bytes {

  type byte = x: nat | x < 256

  const ECHO_PREFIX: seq<byte> := [69, 99, 104, 111, 58, 32]  // "Echo: "
}
