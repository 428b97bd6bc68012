/** A value that may be missing. */
module Options {

  datatype Option<+T> = None | Some(value: T)
}

/** Bytes and machine words. */
module Words {

  const TWO_64: int := 0x1_0000_0000_0000_0000

  type Byte = b: int | 0 <= b < 0x100

  /** A `size_t` or `uint64_t`. */
  type Word = w: int | 0 <= w < TWO_64
}
