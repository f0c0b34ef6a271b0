/** The error channel of the core: an operation either succeeds with a value
    or fails with one of the errors the Kotlin code raises (`require` throws
    an IllegalArgumentException there). */
module Results {

  datatype Result<+T, +E> = Ok(value: T) | Err(error: E)
}
