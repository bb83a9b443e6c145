/** Failure-compatible result type shared by the splitter and the pipeline. */
module Wrappers {

  datatype Option<T> = None | Some(value: T)

  /** Either a value or an error, as Go's `(value, error)` return pairs. */
  datatype Result<T, E> = Ok(value: T) | Err(error: E)
}
