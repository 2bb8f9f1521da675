/** Option and Outcome values for the operations of the radar layout that can fail. */
module Wrappers {

  datatype Option<+T> = None | Some(value: T)

  /** The result of a step that either completes or stops with an error. */
  datatype Outcome<+E> = Pass | Fail(error: E)
}
