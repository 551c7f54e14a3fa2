/** Fixed-width machine integers of the Rust and Win32 sources, as ranges of int. */
module Ints {
  newtype byte = x: int | 0 <= x < 0x100
  newtype i8 = x: int | -0x80 <= x < 0x80
  newtype u16 = x: int | 0 <= x < 0x1_0000
  newtype i32 = x: int | -0x8000_0000 <= x < 0x8000_0000
  newtype u32 = x: int | 0 <= x < 0x1_0000_0000

  const U16_MAX: int := 0xFFFF
}
