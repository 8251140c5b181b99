/** Failure-carrying values used across the model.

    The program signals every failure by raising a Python exception; the model
    returns a `Result` instead, whose `Error` names the exception that would have
    been raised.
 */
module Results {

  datatype Option<+T> = None | Some(value: T)

  /** The exceptions fetching and parsing can raise. Errors of the database
      insert are not modelled. */
  datatype Error =
    | HttpError        // `requests.get` failed or `raise_for_status` rejected the reply
    | MarkerNotFound   // no script block contains the statistics marker
    | IndexError       // too few lines in the script, or too few integers on the line
    | ValueError       // a token on the statistics line is not an integer literal

  datatype Result<+T> = Success(value: T) | Failure(error: Error)
}
