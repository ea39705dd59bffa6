/** Words the memory models share. */
module MemorySpaces {

  /** Kernel memory is mapped one to one; user memory gets frames of its own. */
  datatype Space = Kernel | User

  /** Bytes of a page. */
  const PAGE := 4096

  /** Where the user part of every address space begins. */
  const FIRST_USER := 0x10000000000
}
