/** The fixed-width types of the C sources, and the one wrapper every module needs. */
module Words {

  newtype int8 = x: int | -0x80 <= x < 0x80
  newtype int32 = x: int | -0x8000_0000 <= x < 0x8000_0000
  newtype uint8 = x: int | 0 <= x < 0x100
  newtype uint16 = x: int | 0 <= x < 0x1_0000
  newtype uint32 = x: int | 0 <= x < 0x1_0000_0000

  /** A raw octet, as stored in buffers and streams. */
  type byte = bv8

  /** A value or nothing; also a C pointer that may be NULL. */
  datatype Option<+T> = None | Some(value: T)
}
