/** Null references and thrown exceptions of the Java program, as values. */
module Wrappers {

  /** A Java reference that may be null. */
  datatype Option<+T> = None | Some(value: T)

  /** The exception classes the modelled code throws. */
  datatype Exception =
    | IllegalArgument        // IllegalArgumentException
    | IndexOutOfBounds       // IndexOutOfBoundsException, from ArrayList.checkIndex
    | ArrayIndexOutOfBounds  // ArrayIndexOutOfBoundsException, from a raw array access
    | NullPointer            // NullPointerException
    | NoSuchElement          // NoSuchElementException
    | IllegalState           // IllegalStateException

  /** The result of a Java method that returns a value or throws. */
  datatype Result<+T> = Ok(value: T) | Err(error: Exception)

  /** The result of a void Java method: it returns normally or throws. */
  datatype Outcome = Pass | Fail(error: Exception)

  /** The outcome of a computation that either threw `failure` or did not. */
  function OutcomeOf(failure: Option<Exception>): (o: Outcome)
    ensures o.Pass? <==> failure.None?
    ensures o.Fail? ==> failure == Some(o.error)
  {
    match failure
    case None => Pass
    case Some(e) => Fail(e)
  }
}
