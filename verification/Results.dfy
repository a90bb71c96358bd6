/** Result and option types shared by every module of the model. */
module Results {

  datatype Option<+T> = None | Some(value: T)

  /** A thrown exception of the source is an `Err` carrying what was thrown. */
  datatype Result<+T> = Ok(value: T) | Err(error: string) {
    predicate IsFailure() { Err? }

    function PropagateFailure<U>(): Result<U>
      requires Err?
    {
      Err(error)
    }

    function Extract(): T
      requires Ok?
    {
      value
    }
  }
}
