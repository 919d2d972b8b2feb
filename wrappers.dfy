/** Option, Result and Outcome: the error paths of the modelled Python code
    (an exception it raises becomes a Failure / Fail value). */
module Wrappers {

  datatype Option<+T> = None | Some(value: T)

  datatype Result<+R, +E> = Success(value: R) | Failure(error: E)

  datatype Outcome<+E> = Pass | Fail(error: E)
}
