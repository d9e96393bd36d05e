/** Optional values and outcomes that may carry an error, used wherever the
    modelled code returns "nothing" or raises. */
module Results {

  datatype Option<+T> = None | Some(value: T)

  datatype Result<+T, +E> = Success(value: T) | Failure(error: E)
}
