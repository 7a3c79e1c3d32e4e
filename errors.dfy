/** The exceptions the Python program can raise on the paths this model
    covers, and the result type that carries them instead of a crash. */
module Errors {

  datatype Error =
    | KeyError        // a dict lookup of a key that is absent
    | IndexError      // a list or array index out of range
    | AssertionError  // an `assert` statement that fails
    | ValueError      // `int(...)` of text that is not an integer

  datatype Option<+T> = None | Some(value: T)

  datatype Result<+T> = Ok(value: T) | Err(error: Error) {
    predicate IsFailure() {
      Err?
    }

    function PropagateFailure<U>(): Result<U>
      requires Err?
    {
      Err(error)
    }

    function Extract(): T
      requires Ok?
    {
      value
    }
  }
}
