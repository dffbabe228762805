/**
 The machine words of the modelled code.
 */
module Words {

  const TWO_32: int := 0x1_0000_0000
  const TWO_63: int := 0x8000_0000_0000_0000
  const TWO_64: int := 0x1_0000_0000_0000_0000

  /** `std::uint64_t`: storing a larger value is a proof failure, never a wrap-around. */
  type uint64 = x: int | 0 <= x < TWO_64

  type int64 = x: int | -TWO_63 <= x < TWO_63
}
