/** Option and Result, the two failure-carrying shapes the model uses for
    Go's nil-able values and its (value, error) returns. */
module Wrappers {

  datatype Option<+T> = None | Some(value: T)

  /** A Go error is modelled by its message. */
  type Error = string

  datatype Result<+T> = Success(value: T) | Failure(error: Error)
}
