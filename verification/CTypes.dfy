/** Casts to C's fixed-width integer types, and an optional value. */
module CTypes {

  datatype Option<+T> = None | Some(value: T)

  function U16(v: int): int { v % 0x1_0000 }
  function U32(v: int): int { v % 0x1_0000_0000 }
  function U64(v: int): int { v % 0x1_0000_0000_0000_0000 }

  function S16(v: int): int {
    if U16(v) >= 0x8000 then U16(v) - 0x1_0000 else U16(v)
  }

  function S32(v: int): int {
    if U32(v) >= 0x8000_0000 then U32(v) - 0x1_0000_0000 else U32(v)
  }

  function S64(v: int): int {
    if U64(v) >= 0x8000_0000_0000_0000 then U64(v) - 0x1_0000_0000_0000_0000 else U64(v)
  }
}
