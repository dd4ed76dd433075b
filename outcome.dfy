/** Optional values and failures, for the places where the scripts return
    nothing or raise. A `Result` can be used with `:-`, which stops at the
    first failure as a raised exception does. */
module Outcome {
  datatype Option<T> = None | Some(value: T)

  datatype Result<T, E> = Ok(value: T) | Err(error: E) {
    predicate IsFailure() {
      Err?
    }

    function PropagateFailure<U>(): Result<U, E>
      requires Err?
    {
      Err(error)
    }

    function Extract(): T
      requires Ok?
    {
      value
    }
  }
}
