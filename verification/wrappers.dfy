/** Optional values and results shared by the model's modules. */
module Wrappers {

  /** An optional value, in place of Java's `Optional` or a null reference. */
  datatype Option<+T> = None | Some(value: T)

  /** Either a value or the error that a Java method would have thrown. */
  datatype Result<+R, +E> = Success(value: R) | Failure(error: E)
}

/** The failures the key generator and the service report to their callers. */
module Errors {

  datatype Error =
    /** The URL validator rejected the URL ("Invalid URL format"). */
    | InvalidUrl
    /** No row has this miniKey ("MiniUrl not found with miniKey: ..."). */
    | NotFound(miniKey: string)
    /** Bean validation refused to save a row that breaks the entity's size constraints. */
    | ConstraintViolation
    /** `SecureRandom.nextInt(0)`: drawing an index from an empty alphabet. */
    | BoundMustBePositive
    /** The finite random stream of the model ran out before a fresh key was found. */
    | RetriesExhausted
}
