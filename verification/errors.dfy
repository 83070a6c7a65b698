/**
 The Python exceptions the binding raises, with the argument each one carries, and the
 result type every fallible operation returns.
 */
module Errors {

  /** The payload of an IndexError: the integer index for `array[i]`, the pointer text for
      `array.at(pointer)`. */
  datatype ErrorArg = IntArg(i: int) | TextArg(s: string)

  datatype Error =
    | ValueError(message: string)
    | KeyError(key: string)
    | IndexError(arg: ErrorArg)
      /** simdjson's own failure for `object[key]` when no member has that key. */
    | NoSuchField(field: string)

  datatype Result<+T> = Ok(value: T) | Err(error: Error)
}
