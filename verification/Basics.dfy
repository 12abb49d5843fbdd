/** Small types shared by the models. */
module Basics {

  datatype Option<+T> = None | Some(value: T)

  type byte = b: nat | b < 0x100

  type bytes = seq<byte>

  type uint32 = n: nat | n < 0x1_0000_0000

  const UINT32 := 0x1_0000_0000
  const UINT64 := 0x1_0000_0000_0000_0000

  /** The number with these bytes, least significant first. */
  function FromLittleEndian(b: bytes): nat {
    if b == [] then 0 else b[0] + 0x100 * FromLittleEndian(b[1..])
  }

  /** A transaction output, named by the transaction's hash. */
  datatype OutPoint = OutPoint(hash: nat, index: nat)
}
