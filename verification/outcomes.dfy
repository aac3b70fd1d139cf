/** Failure-carrying results of the engine. Every `panic!` of the library, and
    every panic of the collaborators it calls (`Uniform::new` on an empty
    range, an out-of-range index in the quantile estimator), becomes an
    `Err` carrying one of these errors. */
module Outcomes {

  datatype Error =
    | InvalidArity           // the input holds neither 2 nor 4 arrays
    | PairedLengthMismatch   // paired resampling over arrays of different lengths
    | PairLengthMismatch     // a numerator array and its denominator array differ in length
    | EmptyRange             // a uniform index distribution over an empty array
    | QuantileOutOfRange     // the quantile estimator indexed past its sorted copy

  datatype Result<+T> = Ok(value: T) | Err(error: Error)

  datatype Option<+T> = None | Some(value: T)
}
