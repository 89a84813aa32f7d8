/** Machine words as bounded integers, and the error codes every command returns. */
module Words {
  type Byte = x: int | 0 <= x < 0x100
  type Word16 = x: int | 0 <= x < 0x1_0000
  type Word32 = x: int | 0 <= x < 0x1_0000_0000
  type Word64 = x: int | 0 <= x < 0x1_0000_0000_0000_0000

  const SUCCESS: int := 0
  const ERROR: int := -2

  /** A __u32 assigned to an int. */
  function ToInt(w: Word32): int {
    if w < 0x8000_0000 then w else w - 0x1_0000_0000
  }
}

module Wrappers {
  datatype Option<+T> = None | Some(value: T)
}
