/** Outcomes of operations that can fail, and the one error the core raises. */
module Wrappers {

  datatype Option<+T> = None | Some(value: T)

  /** The exception a Python call raises, reduced to its class and message. */
  datatype Error = ValueError(message: string)

  datatype Result<+T> = Ok(value: T) | Err(error: Error)

  /** The error `generate_ngrams` raises for a window size below one. */
  const NonPositiveN: Error := ValueError("n must be >= 1")
}
