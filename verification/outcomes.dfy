/** Explicit outcomes for the places where the C# code throws an exception. */
module Outcomes {

  /** Either a value or the error that the source reports by throwing. */
  datatype Result<+T, +E> = Success(value: T) | Failure(error: E)
}
