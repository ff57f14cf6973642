/** Shared result types. */
module Wrappers {
  datatype Option<+T> = None | Some(value: T)

  /** An atomic file replacement: made, not made, or made and yet reported as failed (directory sync). */
  datatype Effect = Done | NotDone | DoneWithError
}
