/** Small failure-carrying datatypes shared by the whole model. */
module Wrappers {

  /** Python's `None` or a value. */
  datatype Option<+T> = None | Some(value: T)

  /** The result of a Python call that may raise: `Raised` stands for an
      exception nobody catches, which Django turns into an HTTP 500. */
  datatype Outcome<+T> = Ok(value: T) | Raised
}
