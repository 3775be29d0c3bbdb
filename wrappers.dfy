/** Failure-carrying results shared by the modules of the Octo policy model. */
module Wrappers {

  /** Either a value or the error the source raises instead of returning one. */
  datatype Result<+T, +E> = Success(value: T) | Failure(error: E)
}
