/** The exceptions the storage core throws, and the result types that carry them.
    Each exception class of the repository becomes one constructor of `Error`. */
module Exceptions {

  datatype Error =
    | DatabaseAccessException          // a coordination or table file could not be read or written
    | DatabaseDoesNotExistsException   // the requested database directory is unknown
    | FileManipulateException          // a file could not be created, listed or archived
    | CypherFailedException            // encryption or decryption reported failure
    | CypherInvalidPathException       // the path given to the cipher is not a file
    | ParseError                       // the key could not be encoded or decoded
    | ProcessHalted                    // `die()` after a failed backup: the process stops

  datatype Option<+T> = None | Some(value: T)

  /** The value of an operation that returns something or throws. */
  datatype Result<+T> = Ok(value: T) | Err(error: Error)

  /** The outcome of an operation that returns nothing or throws. */
  datatype Outcome = Done | Failed(error: Error)
}
