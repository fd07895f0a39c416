/** Option and Result, used for the combiner's "nothing to combine" path and
    for the numbered-cards script's failure on an empty document. */
module Wrappers {

  datatype Option<+T> = None | Some(value: T)

  datatype Result<+R, +E> = Success(value: R) | Failure(error: E)
}
