/** Small failure-carrying datatypes shared by the other modules.
    Go's `(value, error)` pairs become `Result`, a nil pointer becomes `None`. */
module Wrappers {

  datatype Option<+T> = None | Some(value: T)

  /** `Err` carries the text of the Go error; the model only relies on which
      constructor is returned, not on the wording. */
  datatype Result<+T> = Ok(value: T) | Err(msg: string)

  /** A Go function returning only an `error`: `Pass` is a nil error. */
  datatype Outcome = Pass | Fail(error: string)
}
