/** Failure-carrying values and the byte type shared by the other modules. */
module Wrappers {

  /** An unsigned 8-bit value (`u8`). */
  type Byte = x: int | 0 <= x < 256

  /** A value that may be missing; `None` stands for an undefined (NaN or infinite) result. */
  datatype Option<+T> = None | Some(value: T)

  /** The outcome of an operation that panics in the Rust code of image-to-ascii on some inputs. */
  datatype Result<+T, +E> = Ok(value: T) | Err(error: E)
}
