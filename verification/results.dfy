/**
 * Outcomes of the emulator's partial operations. Every place where the Rust
 * code would index a byte buffer out of bounds (and so panic) is modelled as
 * an `Err` carrying a `Fault` instead.
 */
module Results {

  /** The two byte buffers an access can address. */
  datatype Region = Ram | Video

  /** An out-of-bounds access: the region and the first offset of the access. */
  datatype Fault = OutOfBounds(region: Region, offset: nat)

  /** A value, or the fault that stopped the computation; usable with `:-`. */
  datatype Result<+T> = Ok(value: T) | Err(fault: Fault) {

    predicate IsFailure() {
      Err?
    }

    function PropagateFailure<U>(): Result<U>
      requires Err?
    {
      Err(fault)
    }

    function Extract(): T
      requires Ok?
    {
      value
    }
  }
}
