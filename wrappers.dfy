/** Optional values (Java's null and java.util.Optional) and results with an error value (exceptions). */
module Wrappers {

  datatype Option<+T> = None | Some(value: T)

  datatype Result<+T, +E> = Ok(value: T) | Err(error: E)
}
