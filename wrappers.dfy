/** Option and Result values, standing for JavaScript's optional values (`undefined`/`null`)
    and for thrown errors. */
module Wrappers {

  datatype Option<+T> = None | Some(value: T)

  datatype Result<+R, +E> = Success(value: R) | Failure(error: E)
}
