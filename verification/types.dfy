/** Fixed-width unsigned integers of the C source and an Option wrapper. */
module Types {

  type uint8 = x: int | 0 <= x < 0x100
  type uint16 = x: int | 0 <= x < 0x1_0000
  type uint32 = x: int | 0 <= x < 0x1_0000_0000

  /** An optional value, standing in for a NULL pointer or a `false` return. */
  datatype Option<+T> = None | Some(value: T)
}
