/** Result types shared by the modules of the model. */
module Wrappers {

  datatype Option<+T> = None | Some(value: T)

  /** How a call of the original ends: with a value, with a non-nil error, or with a run-time panic. */
  datatype Outcome<+T> = Ok(value: T) | Error | Panic
}
