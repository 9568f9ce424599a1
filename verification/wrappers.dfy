/** Failure-carrying datatypes shared by the whole model. A Python exception that the
    modelled code raises becomes a `Failure` value; Python's `None` becomes `None`. */
module Wrappers {

  datatype Option<+T> = None | Some(value: T)

  datatype Result<+R, +E> = Success(value: R) | Failure(error: E)
}
