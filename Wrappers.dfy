/** Option and Result, the two failure-carrying shapes the model uses
    (a missing value, and a thrown JavaScript Error with its message). */
module Wrappers {

  datatype Option<+T> = None | Some(value: T)

  datatype Result<+T, +E> = Success(value: T) | Failure(error: E)
}
