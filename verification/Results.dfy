/** The three ways a call of the modelled Go code can end. */
module Results {

  /** `Panic` is a Go run-time panic (index out of range), kept apart from an error return. */
  datatype Outcome<+T> = Ok(value: T) | Err | Panic {

    predicate IsFailure() {
      !Ok?
    }

    function PropagateFailure<U>(): Outcome<U>
      requires !Ok?
    {
      if Err? then Err else Panic
    }

    function Extract(): T
      requires Ok?
    {
      value
    }
  }

  datatype Option<+T> = None | Some(value: T)
}
