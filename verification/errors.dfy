/** The failures the address service can report. */
module Errors {

  datatype Error =
    | InvalidHex              // the driver's ErrInvalidHex: an id that is not 24 characters long
    | InvalidByte(c: char)    // the hex decoder's InvalidByteError: the first character that is no hex digit
    | NoDocuments             // the driver's ErrNoDocuments: FindOne matched nothing
    | DuplicateKey            // an insert whose _id is already in the collection
    | NegativeSkip            // the server refuses a find with a negative skip
    | External(reason: string)  // a failure reported by the geocoding provider
    | Wrapped(op: string, cause: Error)  // fmt.Errorf("<op>: %w", cause)

  /** The error that `errors.Unwrap` reaches at the end of the chain. */
  function Root(e: Error): (r: Error)
    ensures !r.Wrapped?
  {
    match e
    case Wrapped(_, cause) => Root(cause)
    case _ => e
  }
}
