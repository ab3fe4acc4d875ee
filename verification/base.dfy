/** Failure-carrying return values shared by every module of the model.
    Each constructor of `Error` stands for one abort (panic or failed
    assertion) of the modelled source. */
module Base {

  /** Rust's `usize` on a 64-bit target (the source converts it with `as u64`). */
  type Usize = n: nat | n < 0x1_0000_0000_0000_0000

  datatype Option<+T> = None | Some(value: T)

  datatype Error =
    | DegenerateChallenge        // `lc` called with challenge 0 or 1
    | EmptyValues                // `lc` called with no values
    | NotInvertible              // `inverse().unwrap()` on a zero denominator
    | IndexOutOfDomain           // Lagrange index not below the domain size
    | TableNotLoaded             // `contains_table::<T>()` assertion failed
    | UnassignedVariable(id: nat)// a witness variable with no value
    | ValueNotInTable            // Proving-mode containment check failed
    | NoMatchingRow              // Proving-mode 1-D/2-D lookup found no row
    | CircuitSizeMismatch        // Setup and Proving gate counts differ
    | PublicInputMismatch        // public-input positions differ
    | GateUnsatisfied(gate: nat) // arithmetic gate equation is nonzero

  datatype Result<+T> = Ok(value: T) | Err(error: Error) {
    predicate IsFailure() { Err? }
    function PropagateFailure<U>(): Result<U>
      requires Err?
    {
      Err(error)
    }
    function Extract(): T
      requires Ok?
    {
      value
    }
  }
}
