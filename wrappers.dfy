/** Small failure-carrying datatypes shared by every module of the model. */
module Wrappers {

  /** A value that may be absent. */
  datatype Option<+T> = None | Some(value: T)

  /** A value or an error, as Go's `(value, error)` result pairs. */
  datatype Result<+R, +E> = Success(value: R) | Failure(error: E)

  /** A Go runtime panic the modelled code can raise. Only one kind occurs in the core. */
  datatype Panic = IndexOutOfRange
}
