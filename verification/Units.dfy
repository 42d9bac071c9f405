/** Durations in nanoseconds, and the size of a 64-bit word. */
module Units {
  const MICROSECOND: int := 1_000
  const SECOND: int := 1_000_000_000
  const TWO64: nat := 0x1_0000_0000_0000_0000
}
