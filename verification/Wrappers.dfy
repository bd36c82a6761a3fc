/** Failure-compatible results shared by every component. */
module Wrappers {

  datatype Option<+T> = None | Some(value: T)

  /** What a Python call does: it returns a value or raises. Which exception
      class is raised is not distinguished. */
  datatype Result<+T> = Ok(value: T) | Raised {

    predicate IsFailure() {
      Raised?
    }

    function PropagateFailure<U>(): Result<U>
      requires Raised?
    {
      Raised
    }

    function Extract(): T
      requires Ok?
    {
      value
    }
  }

  /** A guard: `:- Require(c)` raises unless `c` holds. */
  function Require(condition: bool): Result<()> {
    if condition then Ok(()) else Raised
  }
}
