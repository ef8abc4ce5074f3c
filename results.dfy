/** Option and Result values: the absent dictionary entry and the exception that aborts a script run. */
module Results {

  datatype Option<+T> = None | Some(value: T)

  /** `Ok` carries the value a step computed; `Err` carries the reason the Python code raised. */
  datatype Result<+T, +E> = Ok(value: T) | Err(error: E)

  /** The error of every line-oriented reader: the (1-based) number of the offending input line. */
  datatype LineError = LineError(lineNumber: nat)
}
