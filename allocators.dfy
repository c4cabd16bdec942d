/** Unity's built-in allocator handle indices, as compared by the
    containers of this model. */
module Allocators {
  const AllocatorInvalid: nat := 0
  const AllocatorNone: nat := 1
  const AllocatorTemp: nat := 2
  const AllocatorTempJob: nat := 3
  const AllocatorPersistent: nat := 4
  const AllocatorFirstUserIndex: nat := 64
}
