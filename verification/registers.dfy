/**
 * The register file of the machine: seven addressable 32-bit locations.
 * `A`..`E` are general purpose, `F` is the flag/compare register (and the
 * address register of `SET`), `IP` is the instruction pointer.
 */
module Registers {

  datatype Register = A | B | C | D | E | F | IP

  /**
   * The 3-bit pattern that names a register in an instruction byte.
   * Pattern 7 names no register of its own.
   */
  function Index(r: Register): (i: bv8)
    ensures i < 7
  {
    match r
    case A => 0
    case B => 1
    case C => 2
    case D => 3
    case E => 4
    case F => 5
    case IP => 6
  }

  /** Distinct registers have distinct encodings. */
  lemma IndexInjective(r: Register, s: Register)
    ensures Index(r) == Index(s) <==> r == s
  {
  }
}
