/** Optional values, outcomes, and the Python exceptions that the modelled code raises. */
module Outcome {

  datatype Option<+T> = None | Some(value: T)

  /** The exceptions the modelled scripts can raise; each one ends the run. */
  datatype Error =
    | KeyError(key: string)         // a dict lookup of an absent key
    | IndexError                    // a list index out of range
    | ValueError(text: string)      // `int(text)` on a non-integer, or a frame of ragged columns
    | AttributeError                // a string method called on an integer cell
    | NameError(variable: string)   // a script variable read before its first assignment

  /** The value a computation returns, or the exception it raises. */
  datatype Result<+T> = Success(value: T) | Failure(error: Error)
}
