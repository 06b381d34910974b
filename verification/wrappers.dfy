/** Optional values and the outcome of a call that may throw. */
module Wrappers {

  /** An optional value: a field that may be unset. */
  datatype Option<+T> = None | Some(value: T)

  /** The outcome of a JavaScript call that either returns a value or throws
      an `Error` whose `message` is recorded. */
  datatype Result<+T> = Ok(value: T) | Thrown(message: string)
}
