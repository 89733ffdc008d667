/** Optional values and results that can fail, shared by all modules. */
module Wrappers {

  /** A value that may be absent (Python's `Optional[...]` / `None`). */
  datatype Option<+T> = None | Some(value: T)

  /** The outcome of a computation that may raise; `Err` carries the exception text. */
  datatype Result<+T> = Ok(value: T) | Err(message: string)
}
