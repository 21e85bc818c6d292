/** Option and Result datatypes shared by the modules of this model. */
module Wrappers {

  datatype Option<+T> = None | Some(value: T)

  /** A value or the error the C# code would throw instead of returning. */
  datatype Result<+R, +E> = Success(value: R) | Failure(error: E)
}
