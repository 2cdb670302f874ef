/** The sizes that several parts of the kernel share. */
module Limits {
  const MAX_TERMINALS := 3
  const FILENAME_LEN := 32
  const FILE_DESCRIPTOR_MIN := 2
  const FILE_DESCRIPTOR_MAX := 8

  predicate IsTerminal(t: int) {
    0 <= t < MAX_TERMINALS
  }
}
