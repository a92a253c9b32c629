/** What several modules share. */
module Common {
  datatype Option<+T> = None | Some(value: T)

  /** One past the largest 32-bit unsigned integer, at which counters wrap to zero. */
  const UINT32 := 0x1_0000_0000
}
