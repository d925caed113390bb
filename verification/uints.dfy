/** Machine integer types of the C# source. */
module UInts {

  /** The C# `uint`: an unsigned 32-bit value. */
  newtype u32 = x: int | 0 <= x < 0x1_0000_0000
}
