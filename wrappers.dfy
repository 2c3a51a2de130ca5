/** Option, Python-exception results and the exceptions the core can raise. */
module Wrappers {

  datatype Option<+T> = None | Some(value: T)

  /** The exceptions `ziostat.py` can raise in the modelled code. */
  datatype Error =
    | KeyError(key: string)     // a dictionary lookup of a missing key
    | ValueError                // `int()` of text that is not an integer
    | IOError(path: string)     // a file that cannot be opened
    | IndexError                // indexing a string past its start
    | ZeroDivisionError         // a rate over an interval of zero seconds

  /** The value a Python call returns, or the exception it raises. */
  datatype Result<+T> = Ok(value: T) | Err(error: Error)

  /** The same for a call whose only effect is on state. */
  datatype Outcome = Pass | Fail(error: Error)
}
