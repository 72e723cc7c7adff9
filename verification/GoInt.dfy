/** Go's 64-bit integers. */
module GoInt {

  const TWO_64: int := 0x1_0000_0000_0000_0000

  type uint64 = x: int | 0 <= x < TWO_64

  const TWO_63: int := 0x8000_0000_0000_0000

  type int64 = x: int | -TWO_63 <= x < TWO_63

  function Add64(a: uint64, b: uint64): uint64 {
    (a + b) % TWO_64
  }

  function Mul64(a: uint64, b: uint64): uint64 {
    (a * b) % TWO_64
  }
}
