/** What several parts of the model share. */
module Common {

  datatype Option<+T> = None | Some(value: T)

  /** The values of a 32-bit unsigned integer are below this. */
  const TWO_32: nat := 0x1_0000_0000
}
