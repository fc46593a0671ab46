/** Small failure-carrying datatypes shared by the other modules. */
module Wrappers {

  /** An optional value: a lookup or a parse that may come back empty. */
  datatype Option<+T> = None | Some(value: T)

  /** The result of Go code that can `panic`: either a value or the panic message. */
  datatype Outcome<+T> = Ok(value: T) | Panic(reason: string)
}
