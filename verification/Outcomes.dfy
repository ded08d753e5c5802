/** Optional values and computations that may end in a Python exception. */
module Outcomes {

  datatype Option<+T> = None | Some(value: T)

  datatype Try<+T> = Ok(value: T) | Raise {
    predicate IsFailure() {
      Raise?
    }

    function PropagateFailure<U>(): Try<U>
      requires Raise?
    {
      Raise
    }

    function Extract(): T
      requires Ok?
    {
      value
    }
  }
}
