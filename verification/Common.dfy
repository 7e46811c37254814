/** Small shared vocabulary: options, results and bytes. */
module Common {

  datatype Option<+T> = None | Some(value: T)

  datatype Result<+T, +E> = Ok(value: T) | Err(error: E)

  /** An octet, as Rust's `u8` and an element of a `Uint8Array`. */
  type byte = x: int | 0 <= x < 0x100

  /** An unsigned 16-bit number, as both halves of a terminal size. */
  type u16 = x: int | 0 <= x < 0x1_0000

  /** A signed 32-bit number, as a process exit code. */
  type i32 = x: int | -0x8000_0000 <= x < 0x8000_0000

  datatype Size = Size(cols: u16, rows: u16)
}
