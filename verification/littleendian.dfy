/**
 * Little-endian conversion between a 32-bit word and four bytes, as done by
 * Rust's `u32::from_le_bytes` and `u32::to_le_bytes`.
 */
module LittleEndian {

  /** The word whose least significant byte is `b0` and most significant is `b3`. */
  function FromLe(b0: bv8, b1: bv8, b2: bv8, b3: bv8): bv32
  {
    (b0 as bv32) | ((b1 as bv32) << 8) | ((b2 as bv32) << 16) | ((b3 as bv32) << 24)
  }

  /** The four bytes of `v`, least significant first. */
  function ToLe(v: bv32): (bytes: seq<bv8>)
    ensures |bytes| == 4
  {
    [(v & 0xFF) as bv8, ((v >> 8) & 0xFF) as bv8, ((v >> 16) & 0xFF) as bv8, (v >> 24) as bv8]
  }

  /** Byte `k` of the four contributes its value times 256^k. */
  lemma FromLeValue(b0: bv8, b1: bv8, b2: bv8, b3: bv8)
    ensures FromLe(b0, b1, b2, b3)
      == b0 as bv32 + 0x100 * b1 as bv32 + 0x1_0000 * b2 as bv32 + 0x100_0000 * b3 as bv32
  {
  }

  /** Writing a word as four bytes and reading them back gives the same word. */
  lemma FromLeToLe(v: bv32)
    ensures var bytes := ToLe(v); FromLe(bytes[0], bytes[1], bytes[2], bytes[3]) == v
  {
  }

  /** Reading four bytes as a word and writing the word back gives the same bytes. */
  lemma ToLeFromLe(b0: bv8, b1: bv8, b2: bv8, b3: bv8)
    ensures ToLe(FromLe(b0, b1, b2, b3)) == [b0, b1, b2, b3]
  {
  }

  /** `FromLe` is injective, i.e. the immediate determines its bytes. */
  lemma FromLeInjective(a: seq<bv8>, b: seq<bv8>)
    requires |a| == 4 && |b| == 4
    requires FromLe(a[0], a[1], a[2], a[3]) == FromLe(b[0], b[1], b[2], b[3])
    ensures a == b
  {
    ToLeFromLe(a[0], a[1], a[2], a[3]);
    ToLeFromLe(b[0], b[1], b[2], b[3]);
    assert a == [a[0], a[1], a[2], a[3]];
    assert b == [b[0], b[1], b[2], b[3]];
  }

  /** Distinct words have distinct byte images. */
  lemma ToLeInjective(v: bv32, w: bv32)
    requires ToLe(v) == ToLe(w)
    ensures v == w
  {
    FromLeToLe(v);
    FromLeToLe(w);
  }
}
