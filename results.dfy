/** Optional values and outcomes that carry a failure. */
module Results {

  datatype Option<T> = None | Some(value: T)

  /** The outcome of an operation that may fail, as a rejected promise does in the system modelled. */
  datatype Result<T, E> = Ok(value: T) | Err(error: E)
}
