/** Failure-compatible result types shared by the modules of this model. */
module Wrappers {

  datatype Option<+T> = None | Some(value: T)

  /** The outcome of an operation that the source can abort or that has
      undefined behaviour on some inputs. */
  datatype Result<+T, +E> = Success(value: T) | Failure(error: E)
}
