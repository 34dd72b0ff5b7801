/** Value wrappers shared by every module: Java's nullable references and
    thrown exceptions are modelled as these values. */
module Common {

  /** A Java reference that may be null: `None` is null. */
  datatype Option<T> = None | Some(value: T)

  /** The result of an operation that may throw: `Err` carries the exception's message. */
  datatype Result<T> = Ok(value: T) | Err(message: string)

  /** Java's signed fixed-width integers. */
  newtype int8 = x: int | -0x80 <= x < 0x80
  newtype int16 = x: int | -0x8000 <= x < 0x8000
  newtype int32 = x: int | -0x8000_0000 <= x < 0x8000_0000
}
