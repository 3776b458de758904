/**
 * The Python exceptions that the conversation-shaping layer can raise,
 * and a failure-compatible Result type that carries them.
 */
module Results {

  datatype Error =
    | TypeError            // `str + generator`, or `raise` of something that is not an exception
    | NotImplementedError  // an explicit `raise NotImplementedError(...)`
    | IndexError           // `xs[-1]` on an empty list
    | KeyError             // a dictionary lookup with a missing key

  datatype Result<+T> = Ok(value: T) | Err(error: Error) {
    predicate IsFailure() { Err? }

    function PropagateFailure<U>(): Result<U>
      requires Err?
    {
      Err(error)
    }

    function Extract(): T
      requires Ok?
    {
      value
    }
  }
}
