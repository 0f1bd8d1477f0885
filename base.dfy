/** Values shared by every module of the model: Java's nullable references and
    the exceptions the modelled code can throw. */
module Base {

  /** A Java reference that may be null: `None` is null. */
  datatype Option<T> = None | Some(value: T)

  /** The runtime exceptions the modelled Java code can raise. */
  datatype Exception =
    | NullPointer     // NullPointerException, also the one Objects.requireNonNull throws
    | NoSuchElement   // NoSuchElementException from an exhausted java.util.Iterator

  /** A Java call that either returns a value or throws. */
  datatype Result<T> = Ok(value: T) | Err(error: Exception)
}
