/** Types and units that several policies share. */
module Wrappers {
  /** The optional value that stands for Go's nil pointers and nil errors. */
  datatype Option<+T> = None | Some(value: T)

  type Byte = b: int | 0 <= b < 256

  /** Durations are nanoseconds. */
  const MILLISECOND := 1_000_000
  const SECOND := 1_000_000_000
}
