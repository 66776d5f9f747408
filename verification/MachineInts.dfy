/** Bytes and machine words. */
module MachineInts {
  newtype Byte = b: int | 0 <= b < 256
  type U8 = x: nat | x < 0x100
  type U16 = x: nat | x < 0x1_0000
  type U32 = x: nat | x < 0x1_0000_0000
}
