/** Option and Result, the two wrappers every other module uses for absent values and for errors. */
module Base {

  datatype Option<+T> = None | Some(value: T)

  /** The outcome of an operation that Python would end by raising an exception. */
  datatype Result<+T, +E> = Ok(value: T) | Err(error: E)
  {
    predicate IsFailure()
    {
      Err?
    }

    function PropagateFailure<U>(): Result<U, E>
      requires Err?
    {
      Err(error)
    }

    function Extract(): T
      requires Ok?
    {
      value
    }
  }
}
