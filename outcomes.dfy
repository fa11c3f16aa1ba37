/** Failure-compatible wrappers and the error kinds the configuration
    library raises. Ruby exceptions become `Err` values. */
module Outcomes {

  datatype Option<+T> = None | Some(value: T)

  /** The error classes of the library (TTY::Config::*Error) that the
      modelled operations raise, plus the Ruby core errors that surface
      through them. */
  datatype Error =
    | ArgumentError(message: string)
    | UnsupportedSource(message: string)
    | UnsupportedExtError(message: string)
    | ReadError(message: string)
    | WriteError(message: string)
      // Hash#fetch on an unknown name (the registry's [] operator)
    | KeyError(key: string)
      // a method the receiver does not have, e.g. `fetch` on an Integer
    | NoMethodError(name: string)
      // a Symbol used where Ruby expects an Integer index
    | TypeError(message: string)

  datatype Result<+T> = Ok(value: T) | Err(error: Error) {
    predicate IsFailure() { Err? }

    function PropagateFailure<U>(): Result<U>
      requires Err?
    {
      Err(error)
    }

    function Extract(): T
      requires Ok?
    {
      value
    }
  }
}
