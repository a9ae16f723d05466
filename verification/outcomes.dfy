/** Failure-compatible wrappers shared by the whole model.

    Java references that may be `null` are modelled as `Option`; operations that
    throw are modelled as `Result` (a value or an `Error`), and operations whose
    side effect survives the exception they throw (for instance `stop`, which sets
    its flag before failing) return an `Effect`: the new state together with an
    `Outcome`.
 */
module Outcomes {

  /** A nullable reference: `None` is Java's `null`. */
  datatype Option<+T> = None | Some(value: T)

  /** The exception kinds the scheduler raises or lets propagate. */
  datatype Error =
    | NullPointer(message: string)      // Objects.requireNonNull and implicit dereferences
    | IllegalArgument(message: string)  // also NumberFormatException, a subclass
    | IllegalState(message: string)
    | Configuration(message: string)    // BatchConfigurationException
    | InvalidClass(className: string)   // reflective lookup of the task class failed
    | Arithmetic(message: string)       // integer division by zero
    | UnsupportedTemporalType(field: string)  // a formatter asked for a field its input lacks

  /** The value of an operation that either returns or throws. */
  datatype Result<+T> = Success(value: T) | Failure(error: Error) {

    predicate IsFailure() {
      Failure?
    }

    function PropagateFailure<U>(): Result<U>
      requires Failure?
    {
      Failure(error)
    }

    function Extract(): T
      requires Success?
    {
      value
    }
  }

  /** Whether a `void` operation returned normally or threw. */
  datatype Outcome = Pass | Fail(error: Error)

  /** The state left behind by an operation, together with how the operation ended. */
  datatype Effect<+S> = Effect(state: S, outcome: Outcome)
}
