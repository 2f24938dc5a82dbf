/** Failure-carrying result types shared by every module of the model.

    The drivers and serializers report failures by raising Python
    exceptions; the model returns them as values so that every error path is
    an ordinary branch that contracts can talk about.
 */
module Base {

  datatype Option<+T> = None | Some(value: T)

  /** The exception classes the modelled code raises, with the detail a
      caller can act on (the missing key, the reason text). */
  datatype PyError =
    | RuntimeError(reason: string)
    | ValueError(reason: string)
    | TypeError(reason: string)
    | KeyError(key: string)
    | IndexError
    | NotImplementedError(reason: string)
    | AssertionError(reason: string)
    | UnboundLocalError(variable: string)
    | AttributeError(name: string)

  datatype Result<+T> = Success(value: T) | Failure(error: PyError) {
    predicate IsFailure() {
      Failure?
    }

    function PropagateFailure<U>(): Result<U>
      requires Failure?
    {
      Failure(error)
    }

    function Extract(): T
      requires Success?
    {
      value
    }
  }
}
