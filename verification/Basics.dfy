/** Shared result types and the machine constants that the collector takes from its configuration. */
module Basics {
  datatype Option<+T> = None | Some(value: T)

  /** Bytes in a heap block; every heap address is handled by the block it lies in. */
  const HBLKSIZE: nat := 4096

  /** The smallest increment of the heap, in heap blocks. */
  const MINHINCR: nat := 16

  /** Bytes in a machine word. */
  const WORD: nat := 8
}
