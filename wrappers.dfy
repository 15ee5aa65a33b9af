/** Option and Result values for lookups that may miss and actions that may throw. */
module Wrappers {

  datatype Option<+T> = None | Some(value: T)

  /** The outcome of a server action: a value, or the message of the Error it throws. */
  datatype Result<+T> = Ok(value: T) | Err(message: string)

  /** The outcome of a schema's `safeParse`: the parsed value, or the issues found. */
  datatype Validated<+T, +E> = Valid(value: T) | Invalid(issues: seq<E>)
}
