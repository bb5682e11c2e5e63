/** What the kernel and the device tree reader share: bytes, and the smaller of two numbers. */
module Bytes {
  type Byte = b: int | 0 <= b < 256

  function Min(a: int, b: int): int {
    if a <= b then a else b
  }
}
