/** Failure-carrying result types shared by the label engine and the Gleason grading. */
module Wrappers {

  datatype Option<+T> = None | Some(value: T)

  /** A computation that either produces a value or stops with the error the
      Python code would raise at that point. */
  datatype Result<+T, +E> = Success(value: T) | Failure(error: E)
}
