/**
 * Error outcomes of the overlay construction and path enumeration.
 * Every exception the modelled C# code can throw becomes an `Err` value,
 * so the model never has to forbid the inputs that make the source throw.
 */
module Outcomes {

  /** The exceptional exits of the modelled code. */
  datatype Error =
    | DuplicateKey     // Dictionary.Add on a key that is already present
    | KeyNotFound      // the Dictionary indexer on a missing key
    | NoSuchMix        // Enumerable.First finds no mix with the requested id
    | UnknownStrategy  // an overlay strategy other than "Random" or "Latency-aware"
    | UnknownPolicy    // a path selection strategy other than "Random" or "Latency-aware"
    | DrawsExhausted   // the random stream ends inside a resampling loop (the source would spin)

  datatype Option<+T> = None | Some(value: T)

  datatype Result<+T> = Ok(value: T) | Err(error: Error) {
    predicate IsFailure() { Err? }

    function PropagateFailure<U>(): Result<U>
      requires Err?
    {
      Err(error)
    }

    function Extract(): T
      requires Ok?
    {
      value
    }
  }
}
