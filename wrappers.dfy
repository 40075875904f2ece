/** Ruby's nil-able values and the two-way outcome of a call that may `fail`. */
module Wrappers {

  /** A value that may be nil. */
  datatype Option<+T> = None | Some(value: T)

  /** The result of a call that either completes or raises. */
  datatype Outcome<+E> = Pass | Fail(error: E)
}
