/** Types and constants the modules share (types.h, param.h). */
module Common {
  const U32: nat := 0x1_0000_0000

  type byte = x: int | 0 <= x < 256
  type word = x: int | 0 <= x < 0x1_0000_0000

  /** The most blocks a file-system operation may log, and the most the log may hold. */
  const MAXOPBLOCKS: nat := 10
  const LOGSIZE: nat := 30

  datatype Option<T> = None | Some(value: T)
}
