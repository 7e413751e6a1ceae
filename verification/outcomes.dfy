/**
  Outcomes of the image-handle operations: a value, or the exception the
  wrapper throws. The two messages the wrapper uses are kept apart because
  they come from the two directions of the format table.
 */
module Outcomes {

  /** The exceptions `RawImage` raises. */
  datatype Error =
    | UnsupportedPixelFormat   // host format outside the table ("Unsupported pixel format")
    | UnsupportedImageType     // native type code outside the table ("Unsupported image type")

  datatype Result<+T> = Success(value: T) | Failure(error: Error) {

    predicate IsFailure() {
      Failure?
    }

    function PropagateFailure<U>(): Result<U>
      requires Failure?
    {
      Failure(error)
    }

    function Extract(): T
      requires Success?
    {
      value
    }
  }

  /** A reference that may be null, such as a managed `WriteableBitmap^`. */
  datatype Option<+T> = None | Some(value: T)
}
