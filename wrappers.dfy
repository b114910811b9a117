/** Optional values and error-or-value results, used where the pipeline can
    find nothing (a missing field) or fail (an exception that ends the run). */
module Wrappers {

  datatype Option<+T> = None | Some(value: T)

  datatype Result<+T, +E> = Ok(value: T) | Err(error: E)
}
