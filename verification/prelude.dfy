/** Types shared by the models. */
module Prelude {

  datatype Option<+T> = None | Some(value: T)

  /** C's `uint8_t` and `UCHAR`. */
  type byte = x: int | 0 <= x < 0x100

  /** Assigning an `int` to a `uint8_t` keeps the low eight bits. */
  function ToByte(x: int): byte {
    x % 0x100
  }
}
