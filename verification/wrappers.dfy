/** Optional values and results shared by every module of the model. */
module Wrappers {

  /** An optional value; in the JavaScript-facing modules `None` stands for `undefined` or `null`. */
  datatype Option<+T> = None | Some(value: T)

  /** Either a computed value or the error that stopped the computation. */
  datatype Result<+R, +E> = Success(value: R) | Failure(error: E)
}
