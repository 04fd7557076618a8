/** The fixed-width C integers the firmware uses, as subset types of `int`. Every
    place where the C wraps or truncates is written out with these constants. */
module Ints {

  const TWO_16 := 0x1_0000
  const TWO_31 := 0x8000_0000
  const TWO_32 := 0x1_0000_0000

  type uint8 = x: int | 0 <= x < 0x100
  type uint16 = x: int | 0 <= x < TWO_16
  type uint32 = x: int | 0 <= x < TWO_32
  type int32 = x: int | -TWO_31 <= x < TWO_31

  /** The conversion of an int32 to uint32. */
  function ToUint32(i: int32): (u: uint32) {
    if i < 0 then i + TWO_32 else i
  }

  /** The conversion of a uint32 to int32 (two's complement). */
  function ToInt32(u: uint32): (i: int32)
    ensures ToUint32(i) == u
  {
    if u < TWO_31 then u else u - TWO_32
  }
}
