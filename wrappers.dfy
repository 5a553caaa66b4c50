/** The optional value and the pass/fail outcome used across the model. */
module Wrappers {

  datatype Option<+T> = None | Some(value: T)

  /** The result of a command that either runs or is rejected with an error. */
  datatype Outcome<+E> = Pass | Fail(error: E)
}
