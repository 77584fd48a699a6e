/** Optional values and results with an error, for the places where the
    coordinator returns NULL or a negative status. */
module Options {

  datatype Option<+T> = None | Some(value: T)

  datatype Result<+T, +E> = Success(value: T) | Failure(error: E)
}
