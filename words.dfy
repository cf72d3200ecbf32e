/** Machine words and the Option type shared by the other modules. */
module Words {

  /** An unsigned 8-bit value (uint8_t). */
  type Byte = x: int | 0 <= x < 0x100

  /** An unsigned 16-bit value (uint16_t). */
  type Word16 = x: int | 0 <= x < 0x1_0000

  /** An unsigned 32-bit value (uint32_t). Audio samples are kept as such
      words: the code only copies them and never computes with them. */
  type Word32 = x: int | 0 <= x < 0x1_0000_0000

  const Two32: int := 0x1_0000_0000

  datatype Option<T> = None | Some(value: T)
}
