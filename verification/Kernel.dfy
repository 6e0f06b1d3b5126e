/** Constants and small types of the C environment that several components share. */
module Kernel {

  const EINVAL := 22
  const ENOMEM := 12
  const ENODEV := 19

  const INT_MAX := 0x7fff_ffff
  const INT_MIN := -0x8000_0000

  type Int32 = x: int | INT_MIN <= x <= INT_MAX
  type UInt32 = x: int | 0 <= x < 0x1_0000_0000

  datatype Option<+T> = None | Some(value: T)

  /** The conversion of an unsigned 32-bit word to a signed one: two's complement. */
  function ToInt32(u: UInt32): (r: Int32)
    ensures (u - r) % 0x1_0000_0000 == 0
  {
    if u <= INT_MAX then u else u - 0x1_0000_0000
  }

  function Abs(x: int): nat {
    if x < 0 then -x else x
  }

  function Min(x: int, y: int): int {
    if x <= y then x else y
  }

  function Max(x: int, y: int): int {
    if x >= y then x else y
  }
}
