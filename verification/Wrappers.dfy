/** Option, for the nullable pointers and zero times of the Go source, and its unit of time. */
module Wrappers {

  /** Nanoseconds. */
  const SECOND: int := 1_000_000_000

  datatype Option<+T> = None | Some(value: T)
}
