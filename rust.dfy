/** The few Rust base types and outcomes the model needs. */
module Rust {

  /** Rust's `u32`. */
  newtype u32 = x: int | 0 <= x < 0x1_0000_0000

  /** `std::mem::size_of::<u32>()`. */
  const WORD_BYTES: nat := 4

  datatype Option<+T> = None | Some(value: T)

  /** What a call does: it returns a value, or the thread panics with a message. */
  datatype Outcome<+T> = Returned(value: T) | Panicked(message: string)

  /** `b as u32` for a `bool`. */
  function BoolAsU32(b: bool): (w: u32)
    ensures w == 0 || w == 1
    ensures w == 1 <==> b
  {
    if b then 1 else 0
  }

  function Min(a: int, b: int): (m: int)
    ensures m <= a && m <= b && (m == a || m == b)
  {
    if a <= b then a else b
  }
}
