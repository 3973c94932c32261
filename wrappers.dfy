/**
 * Option and Result, for the values the source leaves null and the exceptions
 * it throws, and the unsigned 32-bit integers of the cluster labels.
 */
module Wrappers {

  /** C#'s `uint`. */
  newtype uint32 = x: int | 0 <= x < 0x1_0000_0000

  datatype Option<+T> = None | Some(value: T)

  datatype Result<+T, +E> = Success(value: T) | Failure(error: E)

  /** The exceptions the modelled code throws. */
  datatype Exception =
    | ArgumentNullException(paramName: string)
    | ArgumentException(message: string)
}
