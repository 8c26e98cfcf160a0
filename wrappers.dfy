/** Option and Result, plus the JavaScript TypeErrors the modelled code can throw. */
module Wrappers {

  /** A value that may be JSON `null`. A missing field (`undefined`) is not modelled. */
  datatype Option<+T> = None | Some(value: T)

  /** The outcome of an expression that either yields a value or throws. */
  datatype Result<+R, +E> = Success(value: R) | Failure(error: E)

  /** The two runtime TypeErrors reachable in the modelled code:
      `reduce` on an empty array with no initial value, and reading a
      property of `undefined`. */
  datatype TypeError = ReduceOfEmptyArray | ReadOfUndefined(property: string)
}
