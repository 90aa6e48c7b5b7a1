/** Option and Result, and the Python exceptions the modelled code can raise. */
module Wrappers {

  datatype Option<+T> = None | Some(value: T)

  /** The Python exception a failing call raises. */
  datatype Exception =
    | AssertionError      // a failed `assert` statement
    | IndexError          // indexing an empty sequence
    | ValueError          // `list.index` of a missing item, `int()` of a non-digit, `range()` with step 0
    | ZeroDivisionError   // division by zero
    | TypeError           // `create_task` given something that is not a coroutine
    | UnicodeDecodeError  // `bytes.decode("utf-8")` of ill-formed UTF-8

  /** A call that either returns a value or raises. */
  datatype Result<+T> = Ok(value: T) | Err(error: Exception)
}
