/** Value types standing in for Java's null and for the exceptions the core throws. */
module Results {

  /** An optional value: `None` plays the part of Java's `null`. */
  datatype Option<+T> = None | Some(value: T)

  /** The two recoverable exception kinds the engine and the controller raise. */
  datatype Failure = IllegalArgument | IllegalState

  /** The outcome of a Java method that returns a value or throws. */
  datatype Result<+T> = Ok(value: T) | Err(failure: Failure)

  /** The outcome of a Java `void` method that returns normally or throws. */
  datatype Outcome = Pass | Fail(failure: Failure)
}
