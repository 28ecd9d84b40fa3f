/** Java's null and exceptions, stated as values.
    `Option.None` stands for a Java `null` reference; a `Fault` names the exception the
    source would throw, and `Result`/`Outcome` carry it instead of a throw. */
module Faults {

  /** A nullable reference: `None` is Java's `null`. */
  datatype Option<+T> = None | Some(value: T)

  /** The exceptions the modelled code raises or lets through. */
  datatype Fault =
    | NullPointer
    | ArrayIndexOutOfBounds(index: int)
    | IllegalArgument(message: string)
    | IllegalState(message: string)
    | FileConversion(message: string)
    | Interrupted
    | ExecutionFailed

  /** A value-returning call that either returns or throws. */
  datatype Result<+T> = Ok(value: T) | Err(fault: Fault)

  /** A `void` call that either completes or throws. */
  datatype Outcome = Pass | Fail(fault: Fault)
}
