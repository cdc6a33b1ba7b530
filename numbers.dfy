/** Small numeric definitions shared by the scanner, the opening and the tile compositor. */
module Numbers {
  /** An unsigned 8-bit value: a file byte or a pixel channel. */
  type Byte = x: int | 0 <= x < 256

  function Min(a: int, b: int): int { if a <= b then a else b }
  function Max(a: int, b: int): int { if a <= b then b else a }
}
