/** Shared value types used by every part of the model. */
module Base {

  /** An unsigned 8-bit value (`uint8_t`, a `Uint8Array` element). */
  type Byte = x: int | 0 <= x < 256

  /** A UTF-16 code unit, the element of a JavaScript string. */
  type CodeUnit = x: int | 0 <= x < 0x1_0000

  datatype Option<+T> = None | Some(value: T)

  function Min(a: int, b: int): int { if a <= b then a else b }

  function Max(a: int, b: int): int { if a <= b then b else a }
}
