/** Types shared by every part of the model. */
module Prelude {
  datatype Option<+T> = None | Some(value: T)

  datatype Result<+T, +E> = Ok(value: T) | Err(error: E)

  type byte = i: int | 0 <= i < 256

  type Bytes = seq<byte>

  // A path in an flist is the sequence of its names; the root is the empty one.
  type Path = seq<string>

  // A value kept in 64 signed bits.
  function ToInt64(n: nat): int {
    var p := n % 0x1_0000_0000_0000_0000;
    if p < 0x8000_0000_0000_0000 then p else p - 0x1_0000_0000_0000_0000
  }
}
