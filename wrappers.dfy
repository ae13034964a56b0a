/** Option and Outcome values shared by the whole model. */
module Wrappers {

  /** A value that may be absent: C#'s `null` for references and `Nullable<T>`. */
  datatype Option<+T> = None | Some(value: T)

  /** The result of a call that either returns a value or throws an exception. */
  datatype Outcome<+T> = Returned(value: T) | Threw
}
