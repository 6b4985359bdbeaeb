/** Small value types shared by the model: bytes, optional values and results. */
module Types {

  /** One octet of a BLE notification frame or a command payload. */
  newtype byte = x: int | 0 <= x < 256

  /** Python's `None` or a value. */
  datatype Option<+T> = None | Some(value: T)

  /** A value, or the exception the script would raise instead. */
  datatype Result<+T, +E> = Success(value: T) | Failure(error: E)
}
