/** Failure-carrying datatypes shared by every module of the model.
    Python's `None` becomes `Option.None`; a raised exception becomes
    `Result.Failure` carrying the kind of exception. */
module Wrappers {

  datatype Option<+T> = None | Some(value: T)

  /** The exceptions the modelled Python code can raise. */
  datatype Error =
    | ValueError          // `raise ValueError(...)`, `math.sqrt` of a negative,
                          // or a negative number raised to a fractional power
    | ZeroDivisionError   // float division by 0.0
    | TypeError           // unpacking the `None` that `solve` can return

  datatype Result<+R> = Success(value: R) | Failure(error: Error) {
    predicate IsFailure() {
      Failure?
    }

    function PropagateFailure<U>(): Result<U>
      requires Failure?
    {
      Failure(error)
    }

    function Extract(): R
      requires Success?
    {
      value
    }
  }
}
