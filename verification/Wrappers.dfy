/** Failure-compatible results shared by every model in this project. */
module Wrappers {

  datatype Option<+T> = None | Some(value: T)

  /** `Raised` stands for a Python exception leaving the modelled function. */
  datatype Result<+T> = Ok(value: T) | Raised {
    predicate IsFailure() {
      Raised?
    }

    function PropagateFailure<U>(): Result<U>
      requires Raised?
    {
      Raised
    }

    function Extract(): T
      requires Ok?
    {
      value
    }
  }
}
