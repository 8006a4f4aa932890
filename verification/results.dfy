/** Failure-carrying values used across the model. The error kinds are the
    Python exceptions the modelled scripts can raise on the paths they take. */
module Results {

  datatype Option<+T> = None | Some(value: T)

  /** The exceptions the scripts let escape. */
  datatype Error =
    | IndexError                  // a list or array index past the end
    | ValueError                  // float()/int() of a malformed string, np.full of a negative size, min() of nothing
    | TypeError                   // arithmetic on a value that stayed text
    | RuntimeError(message: string)
    | OSError(message: string)    // a missing file or a process that could not be started

  /** What `open()` raises for a file that is not there. */
  const MissingFile := OSError("No such file or directory")

  datatype Result<+T> = Ok(value: T) | Err(error: Error) {

    predicate IsFailure() {
      Err?
    }

    function PropagateFailure<U>(): Result<U>
      requires Err?
    {
      Err(error)
    }

    function Extract(): T
      requires Ok?
    {
      value
    }
  }
}
