/** Failure-carrying result types shared by the modules of this model.
    A C# exception thrown by an operation becomes an Err/Fail value here. */
module Wrappers {

  datatype Option<T> = None | Some(value: T)

  datatype Result<T, E> = Ok(value: T) | Err(error: E)

  /** Outcome of an operation that returns nothing but may throw. */
  datatype Outcome<E> = Pass | Fail(error: E)
}
