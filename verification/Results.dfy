/** The source reports every misuse by throwing out_of_range; a model method
    returns Err instead and leaves its object as the throw would. */
module Results {
  datatype Result<+T> = Ok(value: T) | Err {
    predicate IsFailure() {
      Err?
    }

    function PropagateFailure<U>(): Result<U>
      requires Err?
    {
      Err
    }

    function Extract(): T
      requires Ok?
    {
      value
    }
  }

  datatype Option<+T> = Some(value: T) | None
}
