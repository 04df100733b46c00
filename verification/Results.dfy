/** How an operation ends. */
module Results {
  import opened ByteCodec

  datatype Option<+T> = None | Some(value: T)

  /** What reading from the remaining input gives: a value and the input after it. */
  datatype Parse<+T> = Done(value: T, rest: Bytes) | Fail {
    predicate IsFailure() {
      Fail?
    }
    function PropagateFailure<U>(): Parse<U>
      requires Fail?
    {
      Fail
    }
    function Extract(): (T, Bytes)
      requires Done?
    {
      (value, rest)
    }
  }

  /** A value, an error that is returned, or a panic. */
  datatype Outcome<+T> = Ok(value: T) | Error | Panic
}
