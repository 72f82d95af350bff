/** `undefined`/`null` results and thrown errors of the overlay code, made explicit. */
module Wrappers {
  datatype Option<+T> = None | Some(value: T)

  /** How a JavaScript call ends: with a value, or by throwing a TypeError. */
  datatype Completion<+T> = Normal(value: T) | TypeError
}
