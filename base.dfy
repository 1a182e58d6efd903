/** Shared vocabulary of the model: optional values, bytes and the range of Swift's 64-bit `Int`. */
module Base {
  datatype Option<T> = None | Some(value: T)

  newtype byte = b: int | 0 <= b < 256
  type Bytes = seq<byte>

  /** `Int.max` and `Int.min` on the 64-bit platforms the downloader runs on. */
  const IntMax: int := 0x7FFF_FFFF_FFFF_FFFF
  const IntMin: int := -0x8000_0000_0000_0000

  function Min(a: int, b: int): int { if a <= b then a else b }
}
