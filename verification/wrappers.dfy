/** The optional-value datatype used throughout the model. */
module Wrappers {

  /** A value that may be absent: a missing key, a rejected payload, a query that builds no filter. */
  datatype Option<+T> = None | Some(value: T)
}
