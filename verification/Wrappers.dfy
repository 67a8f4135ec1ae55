/** Optional values, and results that carry either a value or the reason there is none. */
module Wrappers {

  datatype Option<+T> = None | Some(value: T)

  /** A computation that may throw: `Err` is the thrown reason. Usable with `:-`. */
  datatype Result<+T, +E> = Ok(value: T) | Err(error: E) {

    predicate IsFailure() {
      Err?
    }

    function PropagateFailure<U>(): Result<U, E>
      requires Err?
    {
      Err(error)
    }

    function Extract(): T
      requires Ok?
    {
      value
    }
  }
}
