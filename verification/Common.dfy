/** Types that several modules share. */
module Common {

  datatype Option<T> = None | Some(value: T)

  /** A value, or what an exception says. */
  datatype Result<T, E> = Ok(value: T) | Err(error: E)

  type Byte = b: nat | b < 256
}
