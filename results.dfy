/** Outcome types shared by every module of the dispatch model. */
module Results {

  /** A value that may be absent: a Python `None`, a Java `null`, or "no best driver yet". */
  datatype Option<+T> = None | Some(value: T)

  /**
   * The two failure kinds of the dispatch engine.
   * InvalidInput stands for Python's TypeError and Java's IllegalArgumentException;
   * NoAvailableDriver for Python's ValueError and Java's NoSuchElementException.
   */
  datatype Error = InvalidInput | NoAvailableDriver

  /** A returned value or a raised error. */
  datatype Result<+T> = Success(value: T) | Failure(error: Error)
}
