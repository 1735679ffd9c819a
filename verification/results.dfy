/** Optional values and success-or-failure results, used for the garage's
    optional session fields and for the export error path. */
module Results {

  datatype Option<+T> = None | Some(value: T)

  datatype Result<+T, +E> = Success(value: T) | Failure(error: E)
}
