/** Types the components share: optional values, and unsigned machine words as numbers. */
module Wrappers {
  datatype Option<T> = None | Some(value: T)

  const B32: nat := 0x1_0000_0000
  const B64: nat := 0x1_0000_0000_0000_0000

  type byte = x: nat | x < 256
  type u32 = x: int | 0 <= x < B32
  type u64 = x: int | 0 <= x < B64

  /** What a 32-bit word keeps of a result. */
  function Wrap32(x: int): u32 { x % B32 }
}
