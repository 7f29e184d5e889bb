/** Results that may be missing, and calls that may not come back. */
module Wrappers {
  datatype Option<T> = None | Some(value: T)

  /** What a call comes to: it returns, or it reaches outside an array or fails an assertion, where the model stops. */
  datatype Outcome<T> = Done(value: T) | Overrun
}
