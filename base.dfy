/** Failure-carrying values shared by every module of the model.

    The source signals failure by raising Python exceptions; the model
    returns them as values.  An `Error` keeps the exception's type name
    and its message (what `str(e)` gives), which is all the program ever
    looks at. */
module Base {

  datatype Option<+T> = None | Some(value: T) {
    function GetOr(default: T): T {
      match this
      case Some(v) => v
      case None => default
    }
  }

  function Min(a: int, b: int): int {
    if a <= b then a else b
  }

  function Max(a: int, b: int): int {
    if a >= b then a else b
  }

  /** A raised exception: `type(e).__name__` and `str(e)`. */
  datatype Error = Error(typeName: string, message: string)

  datatype Result<+T> = Success(value: T) | Failure(error: Error) {
    predicate IsFailure() {
      Failure?
    }

    function PropagateFailure<U>(): Result<U>
      requires Failure?
    {
      Failure(error)
    }

    function Extract(): T
      requires Success?
    {
      value
    }
  }
}
