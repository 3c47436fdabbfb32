/** Failure-carrying datatypes used throughout the model: `Option` for values
    Python represents with `None`, `Result` for computations that may raise. */
module Wrappers {

  datatype Option<+T> = None | Some(value: T)

  /** `Success` is a normal return; `Failure` is a raised exception. */
  datatype Result<+R, +E> = Success(value: R) | Failure(error: E)
}
