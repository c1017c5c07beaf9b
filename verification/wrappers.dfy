/** Small datatypes shared by the whole model: an optional value and the outcome of a validation step. */
module Wrappers {

  /** A value that may be absent: `None` plays the role of a C++ type trait
      without a nested `type`, or of a signature table with no entry. */
  datatype Option<+T> = None | Some(value: T)

  /** The outcome of a validation step: `Fail` carries the diagnostic. */
  datatype Outcome<+E> = Pass | Fail(error: E)
}
