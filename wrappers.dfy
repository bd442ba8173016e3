/** Shared value types: the optional result that stands for a nullable
    pointer, and the fixed-width unsigned integers of the RDM interface. */
module Wrappers {

  /** A pointer that may be NULL: `None` is NULL, `Some(x)` points at `x`. */
  datatype Option<+T> = None | Some(value: T)

  /** `uint16_t`: PID values, sub-device numbers, manufacturer ids. */
  newtype u16 = x: int | 0 <= x < 0x1_0000

  /** `uint64_t`: the version of the loaded parameter data. */
  newtype u64 = x: int | 0 <= x < 0x1_0000_0000_0000_0000
}
