/**
  The sizes of chunks that the bins and the boundary tags agree on.
 */
module Chunks {
  type Addr = nat

  const MIN_CHUNK_SIZE: nat := 16

  /** From this size on a chunk belongs to a tree bin. */
  const MIN_LARGE_SIZE: nat := 256
}
