/** Machine-level values shared by every part of the model. */
module Primitives {

  /** An unsigned byte (Rust `u8`), the type of the inline length field. */
  type U8 = x: int | 0 <= x < 0x100

  /** A raw pointer. Addresses are opaque: the model only ever asks whether
      a pointer is null. */
  datatype Ptr = Null | NonNull(address: nat)

  /** The outcome of code that may panic. `message` is the text the Rust
      code panics with. */
  datatype Result<+T> = Ok(value: T) | Panic(message: string)
}
