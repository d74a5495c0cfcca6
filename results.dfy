/** Option and Result values used for the error paths of the modelled code
    (Python exceptions and unbound names become Failure values). */
module Results {

  datatype Option<+T> = None | Some(value: T)

  datatype Result<+T, +E> = Success(value: T) | Failure(error: E)
}
