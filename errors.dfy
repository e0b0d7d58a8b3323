/** The ways a property read can fail, and the result type that carries them.
    The facade never catches anything: a failure of the transport or of a
    Python conversion reaches the caller of the property unchanged. */
module Errors {

  datatype Error =
    | Transport(reason: string)  // raised by a refresh operation of the transport
    | AttributeError             // a method such as `lstrip`, `split` or `get` called on a value that lacks it
    | TypeError                  // `int(None)`, `"\n".join(None)` and the like
    | ValueError                 // `int` of text that is not an integer literal

  datatype Result<+T> = Ok(value: T) | Err(error: Error) {

    predicate IsFailure() {
      Err?
    }

    function PropagateFailure<U>(): Result<U>
      requires Err?
    {
      Err(error)
    }

    function Extract(): T
      requires Ok?
    {
      value
    }
  }
}
