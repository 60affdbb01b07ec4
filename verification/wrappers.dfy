/** Option and Result, the stock failure-carrying datatypes used throughout the model. */
module Wrappers {

  datatype Option<+T> = None | Some(value: T)

  /** Success carries a value; Failure carries the error text the source formats. */
  datatype Result<+R> = Success(value: R) | Failure(error: string)
}
