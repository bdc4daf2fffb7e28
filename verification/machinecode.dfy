/**
 * Bit-field extraction from an instruction byte. Each field is produced the
 * way the Rust code does it: the bits are collected most significant first
 * into a string of '0' and '1' characters, and the register field is then
 * looked up by matching that string.
 *
 * Layout of the first byte of every instruction, most significant bit first:
 * [5 bits: opcode] [3 bits: register].
 */
module MachineCode {
  import opened Registers

  /** '1' when bit `i` of `b` is set, '0' otherwise. */
  function BitChar(b: bv8, i: nat): char
    requires i < 8
  {
    if b & (1 << i) != 0 then '1' else '0'
  }

  /**
   * Bits `lo` .. `hi - 1` of `b` as characters, most significant first.
   * Like the loops in `machinecode.rs`, which inserts each bit at the front while `i`
   * runs upwards, bit `lo` ends up last.
   */
  function FieldBits(b: bv8, lo: nat, hi: nat): (s: string)
    requires lo <= hi <= 8
    ensures |s| == hi - lo
    ensures forall k :: 0 <= k < |s| ==> s[k] == BitChar(b, hi - 1 - k)
    decreases hi - lo
  {
    if lo == hi then "" else FieldBits(b, lo + 1, hi) + [BitChar(b, lo)]
  }

  /** Every character of `s` is a binary digit. */
  predicate IsBinary(s: string)
  {
    forall k :: 0 <= k < |s| ==> s[k] == '0' || s[k] == '1'
  }

  /** The number `s` spells in binary, most significant digit first. */
  function BinValue(s: string): nat
  {
    if |s| == 0 then 0 else 2 * BinValue(s[..|s| - 1]) + (if s[|s| - 1] == '1' then 1 else 0)
  }

  /** 2 to the power `n`. */
  function Pow2(n: nat): nat
  {
    if n == 0 then 1 else 2 * Pow2(n - 1)
  }

  /** The value of bits `lo` .. 7 of `b`. */
  function Shifted(b: bv8, lo: nat): nat
    requires lo <= 8
  {
    (b >> lo) as int
  }

  /** A byte is twice its upper seven bits plus its lowest bit. */
  lemma HalfSplit(x: bv8)
    ensures x as int == 2 * (x >> 1) as int + (x & 1) as int
  {
  }

  /** Dropping bit `lo` from the bits `lo` .. 7 halves their value. */
  lemma ShiftStep(b: bv8, lo: nat)
    requires lo < 8
    ensures Shifted(b, lo) == 2 * Shifted(b, lo + 1) + (if BitChar(b, lo) == '1' then 1 else 0)
  {
    var x := b >> lo;
    assert b >> (lo + 1) == x >> 1;
    assert (b & (1 << lo) != 0) == (x & 1 == 1);
    HalfSplit(x);
  }

  /** Read as a binary number, the bits `lo` .. 7 of `b` spell `b >> lo`. */
  lemma {:induction false} HighFieldValue(b: bv8, lo: nat)
    requires lo <= 8
    ensures BinValue(FieldBits(b, lo, 8)) == Shifted(b, lo)
    decreases 8 - lo
  {
    if lo < 8 {
      HighFieldValue(b, lo + 1);
      var s := FieldBits(b, lo, 8);
      assert s[..|s| - 1] == FieldBits(b, lo + 1, 8);
      ShiftStep(b, lo);
    } else {
      assert Shifted(b, 8) == 0;
    }
  }

  /** The value of a concatenation: the first part shifted past the second. */
  lemma {:induction false} BinValueConcat(s: string, t: string)
    ensures BinValue(s + t) == BinValue(s) * Pow2(|t|) + BinValue(t)
    decreases |t|
  {
    if |t| == 0 {
      assert s + t == s;
    } else {
      var n := |t| - 1;
      var d := if t[n] == '1' then 1 else 0;
      assert (s + t)[..|s + t| - 1] == s + t[..n];
      BinValueConcat(s, t[..n]);
      var v, p, w := BinValue(s), Pow2(n), BinValue(t[..n]);
      assert BinValue(s + t) == 2 * (v * p + w) + d;
      assert BinValue(t) == 2 * w + d;
      DoubleProduct(v, p);
    }
  }

  lemma DoubleProduct(v: nat, p: nat)
    ensures 2 * (v * p) == v * (2 * p)
  {
  }

  /** Splitting a field at `mid` splits its bit string: high part first. */
  lemma {:induction false} FieldBitsSplit(b: bv8, lo: nat, mid: nat, hi: nat)
    requires lo <= mid <= hi <= 8
    ensures FieldBits(b, lo, hi) == FieldBits(b, mid, hi) + FieldBits(b, lo, mid)
  {
    var s, t := FieldBits(b, lo, hi), FieldBits(b, mid, hi) + FieldBits(b, lo, mid);
    assert |s| == |t|;
    forall k | 0 <= k < |s|
      ensures s[k] == t[k]
    {
      if k < hi - mid {
        assert t[k] == FieldBits(b, mid, hi)[k];
      } else {
        assert t[k] == FieldBits(b, lo, mid)[k - (hi - mid)];
      }
    }
  }

  /** Binary strings of equal length and equal value are equal. */
  lemma {:induction false} BinValueInjective(s: string, t: string)
    requires |s| == |t| && IsBinary(s) && IsBinary(t)
    requires BinValue(s) == BinValue(t)
    ensures s == t
  {
    if |s| > 0 {
      var n := |s| - 1;
      assert s[n] == t[n];
      BinValueInjective(s[..n], t[..n]);
      assert s == s[..n] + [s[n]];
      assert t == t[..n] + [t[n]];
    }
  }

  /** The opcode field: bits 7..3 of `b` as a 5-character binary string. */
  function GetOpcode(b: bv8): (s: string)
    ensures |s| == 5 && IsBinary(s)
    ensures forall k :: 0 <= k < 5 ==> s[k] == BitChar(b, 7 - k)
    ensures BinValue(s) == (b >> 3) as int
  {
    HighFieldValue(b, 3);
    FieldBits(b, 3, 8)
  }

  /**
   * Matching the opcode string against a 5-digit binary literal is the
   * same as comparing the opcode field with the literal's value.
   */
  lemma OpcodeMatches(b: bv8, literal: string)
    requires |literal| == 5 && IsBinary(literal)
    ensures GetOpcode(b) == literal <==> (b >> 3) as int == BinValue(literal)
  {
    if (b >> 3) as int == BinValue(literal) {
      BinValueInjective(GetOpcode(b), literal);
    }
  }

  /** Two bytes have the same opcode string exactly when their bits 3..7 agree. */
  lemma OpcodeDependsOnHighBits(b1: bv8, b2: bv8)
    ensures GetOpcode(b1) == GetOpcode(b2) <==> b1 >> 3 == b2 >> 3
  {
    if b1 >> 3 == b2 >> 3 {
      BinValueInjective(GetOpcode(b1), GetOpcode(b2));
    }
  }

  /**
   * The register field: bits 2..0 of `b` looked up in the register table.
   * Pattern "111" has no entry and falls back to `A`.
   */
  function GetRegister(b: bv8): (r: Register)
    ensures b & 7 != 7 ==> Index(r) == b & 7
    ensures b & 7 == 7 ==> r == A
  {
    var s := FieldBits(b, 0, 3);
    assert s == [BitChar(b, 2), BitChar(b, 1), BitChar(b, 0)];
    if s == "000" then A
    else if s == "001" then B
    else if s == "010" then C
    else if s == "011" then D
    else if s == "100" then E
    else if s == "101" then F
    else if s == "110" then IP
    else A
  }

  /** The register field ignores the opcode bits. */
  lemma RegisterDependsOnLowBits(b1: bv8, b2: bv8)
    requires b1 & 7 == b2 & 7
    ensures GetRegister(b1) == GetRegister(b2)
  {
    IndexInjective(GetRegister(b1), GetRegister(b2));
  }

  /** Encoding a register by its index, under any opcode, decodes back to it. */
  lemma RegisterLeftInverse(op: bv8, r: Register)
    requires op < 32
    ensures GetRegister((op << 3) | Index(r)) == r
  {
    var b := (op << 3) | Index(r);
    assert b & 7 == Index(r);
    IndexInjective(GetRegister(b), r);
  }

  /** The high nibble of `b` as a 4-character binary string. */
  function GetFronthalf(b: bv8): (s: string)
    ensures |s| == 4 && IsBinary(s)
    ensures BinValue(s) == (b >> 4) as int
  {
    HighFieldValue(b, 4);
    FieldBits(b, 4, 8)
  }

  /** The low nibble of `b` as a 4-character binary string. */
  function GetBackhalf(b: bv8): (s: string)
    ensures |s| == 4 && IsBinary(s)
    ensures BinValue(s) == (b & 15) as int
  {
    LowNibbleValue(b);
    FieldBits(b, 0, 4)
  }

  /** Read as a binary number, bits 3..0 of `b` spell `b & 15`. */
  lemma LowNibbleValue(b: bv8)
    ensures BinValue(FieldBits(b, 0, 4)) == (b & 15) as int
  {
    ByteBitsValue(b);
    HighFieldValue(b, 0);
    HighFieldValue(b, 4);
    NibbleSplit(b);
  }

  /** The byte's bit string is worth 16 times its high half plus its low half. */
  lemma ByteBitsValue(b: bv8)
    ensures BinValue(FieldBits(b, 0, 8)) == 16 * BinValue(FieldBits(b, 4, 8)) + BinValue(FieldBits(b, 0, 4))
  {
    FieldBitsSplit(b, 0, 4, 8);
    BinValueConcat(FieldBits(b, 4, 8), FieldBits(b, 0, 4));
    assert Pow2(4) == 16;
  }

  /** A byte is its high nibble times 16 plus its low nibble. */
  lemma NibbleSplit(b: bv8)
    ensures Shifted(b, 0) == 16 * Shifted(b, 4) + (b & 15) as int
  {
  }

  /** The two halves together are the 8-bit binary of `b`, most significant bit first. */
  lemma HalvesSpellByte(b: bv8)
    ensures var s := GetFronthalf(b) + GetBackhalf(b);
      && |s| == 8 && IsBinary(s)
      && (forall k :: 0 <= k < 8 ==> s[k] == BitChar(b, 7 - k))
      && BinValue(s) == b as int
  {
    FieldBitsSplit(b, 0, 4, 8);
    HighFieldValue(b, 0);
  }
}
