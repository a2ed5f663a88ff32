/** The sizes and addresses that the memory layout fixes. */
module Addresses {
  const PAGE_SIZE: nat := 4096
  /** One past the last user address. */
  const USER_END: nat := 0x8000_0000_0000
  /** The user stack ends at 4 GB and may grow to 256 pages. */
  const STACK_TOP: nat := 0x1_0000_0000
  const STACK_START: nat := STACK_TOP - 0x100 * PAGE_SIZE
  const STACK_PAGE: nat := STACK_TOP / PAGE_SIZE - 1
  const HEAP_BASE: nat := 0x4000_0000
  /** sbrk refuses requests from this size on. */
  const BRK_LIMIT: nat := 0x100_0000
  /** The pages of the kernel addresses 0xffffffff80000000, through which do_execv writes the new stack, and
      0xffffffff80001000, through which the fault handler copies: bits 47 to 12 of the address. */
  const EXEC_SCRATCH: nat := 0xF_FFF8_0000
  const SCRATCH: nat := 0xF_FFF8_0001
}
