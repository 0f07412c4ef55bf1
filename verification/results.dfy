/** Failure-carrying results for the engine's error paths. */
module Results {

  datatype Option<+T> = None | Some(value: T)

  /** The errors the core raises: an operation given the wrong number of
      inputs, a division whose divisor is exactly zero, and a neuron called
      with an input vector whose length differs from its weight count. */
  datatype Error =
    | ArityMismatch(expected: nat, got: nat)
    | DivisionByZero
    | InputSizeMismatch(inputs: nat, weights: nat)

  datatype Result<+T> = Ok(value: T) | Err(error: Error) {
    predicate IsFailure() { Err? }

    function PropagateFailure<U>(): Result<U>
      requires Err?
    {
      Err(error)
    }

    function Extract(): T
      requires Ok?
    {
      value
    }
  }
}
