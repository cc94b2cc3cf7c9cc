/** Bytes and the two fixed-length byte strings of the wire formats: addresses and hashes. */
module Bytes {
  type byte = x: int | 0 <= x < 256

  type Address = s: seq<byte> | |s| == 20 witness seq(20, i => 0)

  type Bytes32 = s: seq<byte> | |s| == 32 witness seq(32, i => 0)

  const ZERO_ADDRESS: Address := [0, 0, 0, 0, 0, 0, 0, 0, 0, 0, 0, 0, 0, 0, 0, 0, 0, 0, 0, 0]
}
