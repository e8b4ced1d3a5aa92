/** Failure-carrying results, standing in for the exceptions the game engine throws. */
module Wrappers {

  datatype Result<+T, +E> = Ok(value: T) | Err(error: E)
}
