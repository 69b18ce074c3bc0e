/** Result type for computations that can fail instead of producing a value. */
module Wrappers {

  /** Either a computed value or the reason no value could be produced. */
  datatype Result<+T, +E> = Success(value: T) | Failure(error: E)
}
