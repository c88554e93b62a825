// Shared result types for the calibrator drafts: a missing value (Ruby's nil)
// and the exceptions the drafts raise.
module Base {

  datatype Option<+T> = None | Some(value: T)

  datatype Result<+T, +E> = Success(value: T) | Failure(error: E)

  /** The failures the three drafts can raise in the modelled core. */
  datatype Error =
    | ZeroDivisionError   // integer division by zero (Ruby and Python)
    | ArgumentError       // Ruby: each_slice with a slice size below 1
    | IndexError          // Python: list index out of range
    | ValueError          // Python: slice step cannot be zero
    | InvalidKey          // Python: Vector.__getitem__ with a key other than 0, 1, 2
    | NoReadings          // Ruby guess over no readings (the source yields nil bounds)
}
