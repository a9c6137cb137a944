/** Failure-carrying datatypes shared by every module of the model.
    - Option<T>: Rust's `Option`.
    - Result<T, E>: Rust's `Result`, the error path of a call that returns normally.
    - Run<T>: whether a call returned or panicked (an `unwrap` on a failure, say).
      A panic is not a value the caller can inspect, so it is kept apart from `Result`.
 */
module Wrappers {

  datatype Option<+T> = None | Some(value: T)

  datatype Result<+T, +E> = Ok(value: T) | Err(error: E)

  datatype Run<+T> = Returned(value: T) | Panicked(message: string)

  /** The message Rust prints when `Option::unwrap` meets `None`. */
  const UnwrapNone: string := "called `Option::unwrap()` on a `None` value"

  /** The message Rust prints when `Result::unwrap` meets `Err`. */
  const UnwrapErr: string := "called `Result::unwrap()` on an `Err` value"

  /** 8-bit unsigned integers, the element type of byte buffers. */
  type u8 = x: int | 0 <= x < 0x100

  /** 32-bit unsigned integers. */
  type u32 = x: int | 0 <= x < 0x1_0000_0000

  /** 32-bit signed integers, the wire type of protobuf enum fields. */
  type i32 = x: int | -0x8000_0000 <= x < 0x8000_0000

  /** 64-bit unsigned integers. */
  type u64 = x: int | 0 <= x < 0x1_0000_0000_0000_0000

  type Bytes = seq<u8>
}
