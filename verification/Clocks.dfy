/** Unix time in signed 64-bit seconds. */
module Clocks {
  const I64_MAX: int := 0x7FFF_FFFF_FFFF_FFFF

  /** The time `seconds` after `t`, or the last there is. */
  function Later(t: int, seconds: nat): int {
    if t + seconds <= I64_MAX then t + seconds else I64_MAX
  }
}
