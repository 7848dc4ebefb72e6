/** Option and Outcome, standing in for Java's nullable references, Optional and thrown exceptions. */
module Wrappers {

  /** A value that may be absent: a Java `null` field, an empty `Optional`. */
  datatype Option<+T> = None | Some(value: T)

  /** The result of a `void` operation that may throw: it completes (`Pass`) or throws `error`. */
  datatype Outcome<+E> = Pass | Fail(error: E)
}
