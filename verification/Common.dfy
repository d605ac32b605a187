/** Small types shared by every module of the model. */
module Common {

  datatype Option<+T> = None | Some(value: T)

  datatype Result<+T, +E> = Ok(value: T) | Err(error: E)

  /** A Go byte. Go strings and slices of bytes are both `Bytes` here. */
  type Byte = x: int | 0 <= x < 256

  type Bytes = seq<Byte>

  /** One past the largest uint64. */
  const TWO64: int := 0x1_0000_0000_0000_0000

  function Min(a: int, b: int): int { if a <= b then a else b }

  function Max(a: int, b: int): int { if a >= b then a else b }
}
