/** Failure-carrying results shared by every module of the model.
    The repository reports errors in two ways: C++ code throws
    `std::runtime_error` (or a standard-library exception), Python code
    raises.  Both become a `Failure` carrying one of the error kinds below. */
module Wrappers {

  /** The kinds of failure the modelled code can raise. */
  datatype Error =
    | ZeroDivision        // Python ZeroDivisionError
    | AssertionFailed     // Python `assert` statement
    | KeyMissing          // Python KeyError (missing configuration key)
    | ValueInvalid        // Python ValueError (bad literal, negative numpy dimension)
    | IndexOutOfRange     // Python/numpy IndexError
    | InvalidArgument     // C++ std::invalid_argument (std::stoul & co.)
    | OutOfRange          // C++ std::out_of_range
    | EmptyQueue          // "Cannot peek/pop an empty queue."
    | EmptyFlowQueue      // "Cannot pop an empty flow queue."
    | NegativeLatency     // "Departure time must be GEQ arrival time"
    | AlreadyCalibrated   // "Traffic-generator was already calibrated."
    | CalibrationFailed   // "Calibration failed, check computed rate."
    | NotCalibrated       // "TrafficGenerator is not calibrated"
    | FlowOrderViolated   // policy does not guarantee per-flow ordering

  datatype Option<+T> = None | Some(value: T)

  datatype Result<+T> = Success(value: T) | Failure(error: Error) {
    predicate IsFailure() { Failure? }

    function PropagateFailure<U>(): Result<U>
      requires Failure?
    {
      Failure(error)
    }

    function Extract(): T
      requires Success?
    {
      value
    }
  }
}
