/**
 * Instructions and their decoding from a byte buffer.
 *
 * An instruction is one byte [opcode:5][register:3], optionally followed by
 * either a second register byte (whose low 3 bits are decoded with the same
 * register table) or a 4-byte little-endian immediate.
 */
module Instructions {
  import opened Results
  import opened Registers
  import opened LittleEndian
  import opened MachineCode

  /**
   * A decoded instruction. The `D` forms take an immediate ("direct") value,
   * the `R` forms a second register. `DUMMY` is what an unknown opcode
   * decodes to.
   */
  datatype Instruction =
    | DUMMY
    | MOVD(reg: Register, val: bv32)
    | MOVR(reg: Register, src: Register)
    | JEQ(reg: Register, val: bv32)
    | JLT(reg: Register, val: bv32)
    | ADDD(reg: Register, val: bv32)
    | ADDR(reg: Register, src: Register)
    | SUBD(reg: Register, val: bv32)
    | SUBR(reg: Register, src: Register)
    | ANDD(reg: Register, val: bv32)
    | ANDR(reg: Register, src: Register)
    | ORD(reg: Register, val: bv32)
    | ORR(reg: Register, src: Register)
    | NOT(reg: Register)
    | LOD(reg: Register, val: bv32)
    | SET(reg: Register)
  {
    /** The instruction carries a 32-bit immediate operand. */
    predicate HasImmediate()
    {
      MOVD? || JEQ? || JLT? || ADDD? || SUBD? || ANDD? || ORD? || LOD?
    }

    /** The instruction carries a second register operand. */
    predicate HasSource()
    {
      MOVR? || ADDR? || SUBR? || ANDR? || ORR?
    }
  }

  /** A decoded instruction together with the number of bytes it occupies. */
  datatype Decoded = Decoded(ins: Instruction, len: nat)

  /**
   * The 5-bit opcode of each instruction kind. `DUMMY` has no opcode of its
   * own: opcodes 11, 12 and 17 to 31 all decode to it. It is given 31 here
   * only so that every instruction has a value in the field.
   */
  function OpcodeOf(ins: Instruction): (op: bv8)
    ensures op < 32
  {
    match ins
    case DUMMY => 31
    case MOVD(_, _) => 0
    case MOVR(_, _) => 1
    case JEQ(_, _) => 2
    case ADDD(_, _) => 3
    case ADDR(_, _) => 4
    case SUBD(_, _) => 5
    case SUBR(_, _) => 6
    case ANDD(_, _) => 7
    case ANDR(_, _) => 8
    case ORD(_, _) => 9
    case ORR(_, _) => 10
    case NOT(_) => 13
    case LOD(_, _) => 14
    case SET(_) => 15
    case JLT(_, _) => 16
  }

  /** Opcodes whose instruction is followed by a 4-byte immediate. */
  predicate TakesImmediate(op: bv8)
  {
    op == 0 || op == 2 || op == 3 || op == 5 || op == 7 || op == 9 || op == 14 || op == 16
  }

  /** Opcodes whose instruction is followed by a second register byte. */
  predicate TakesRegister(op: bv8)
  {
    op == 1 || op == 4 || op == 6 || op == 8 || op == 10
  }

  /** Opcodes whose instruction is the opcode byte alone. */
  predicate TakesNothing(op: bv8)
  {
    op == 13 || op == 15
  }

  /**
   * The encoded length of an instruction with opcode `op`: 5 with an
   * immediate, 2 with a second register, 1 for the one-operand forms and 0
   * for opcodes without a table entry.
   */
  function OpcodeLength(op: bv8): nat
  {
    if TakesImmediate(op) then 5
    else if TakesRegister(op) then 2
    else if TakesNothing(op) then 1
    else 0
  }

  /** The instruction an immediate-taking opcode names. */
  function ImmediateForm(op: bv8, reg: Register, val: bv32): (ins: Instruction)
    requires TakesImmediate(op)
    ensures ins.HasImmediate() && OpcodeOf(ins) == op && ins.reg == reg && ins.val == val
  {
    if op == 0 then MOVD(reg, val)
    else if op == 2 then JEQ(reg, val)
    else if op == 3 then ADDD(reg, val)
    else if op == 5 then SUBD(reg, val)
    else if op == 7 then ANDD(reg, val)
    else if op == 9 then ORD(reg, val)
    else if op == 14 then LOD(reg, val)
    else JLT(reg, val)
  }

  /** The instruction a register-pair opcode names. */
  function RegisterForm(op: bv8, reg: Register, src: Register): (ins: Instruction)
    requires TakesRegister(op)
    ensures ins.HasSource() && OpcodeOf(ins) == op && ins.reg == reg && ins.src == src
  {
    if op == 1 then MOVR(reg, src)
    else if op == 4 then ADDR(reg, src)
    else if op == 6 then SUBR(reg, src)
    else if op == 8 then ANDR(reg, src)
    else ORR(reg, src)
  }

  /** The instruction a single-operand opcode names. */
  function SingleForm(op: bv8, reg: Register): (ins: Instruction)
    requires TakesNothing(op)
    ensures !ins.DUMMY? && !ins.HasImmediate() && !ins.HasSource() && OpcodeOf(ins) == op && ins.reg == reg
  {
    if op == 13 then NOT(reg) else SET(reg)
  }

  /** The 4-byte immediate that follows the instruction byte at `index`. */
  function Immediate(bytes: seq<bv8>, index: nat): Result<bv32>
  {
    if index + 4 < |bytes| then
      Ok(FromLe(bytes[index + 1], bytes[index + 2], bytes[index + 3], bytes[index + 4]))
    else
      Err(OutOfBounds(Ram, index))
  }

  /** The second register operand, from the byte after the instruction byte at `index`. */
  function SecondRegister(bytes: seq<bv8>, index: nat): Result<Register>
  {
    if index + 1 < |bytes| then Ok(GetRegister(bytes[index + 1])) else Err(OutOfBounds(Ram, index))
  }

  /**
   * Decodes the instruction starting at `bytes[index]`: the opcode selects
   * the instruction kind and its operand shape; a byte that would be read
   * past the end of the buffer is a fault.
   */
  function Decode(bytes: seq<bv8>, index: nat): (r: Result<Decoded>)
    ensures r.Ok? <==> index < |bytes| && index + OpcodeLength(bytes[index] >> 3) <= |bytes|
    ensures r.Err? ==> r.fault == OutOfBounds(Ram, index)
    ensures r.Ok? ==> r.value.len == OpcodeLength(bytes[index] >> 3)
  {
    if index >= |bytes| then Err(OutOfBounds(Ram, index))
    else
      var op := bytes[index] >> 3;
      var arg1 := GetRegister(bytes[index]);
      if TakesImmediate(op) then
        var val :- Immediate(bytes, index);
        Ok(Decoded(ImmediateForm(op, arg1, val), 5))
      else if TakesRegister(op) then
        var arg2 :- SecondRegister(bytes, index);
        Ok(Decoded(RegisterForm(op, arg1, arg2), 2))
      else if TakesNothing(op) then
        Ok(Decoded(SingleForm(op, arg1), 1))
      else
        Ok(Decoded(DUMMY, 0))
  }

  /**
   * A successful decode reads the instruction's kind from the opcode, its
   * first register from the low bits of the opcode byte and its operand
   * from the bytes after it; only an unknown opcode gives `DUMMY`, of
   * length 0.
   */
  lemma DecodeFields(bytes: seq<bv8>, index: nat)
    requires Decode(bytes, index).Ok?
    ensures var d := Decode(bytes, index).value;
      && index < |bytes|
      && (d.ins.DUMMY? <==> d.len == 0)
      && (!d.ins.DUMMY? ==> OpcodeOf(d.ins) == bytes[index] >> 3 && d.ins.reg == GetRegister(bytes[index]))
      && (d.ins.HasImmediate() <==> d.len == 5)
      && (d.ins.HasSource() <==> d.len == 2)
      && (d.len == 5 ==>
        && index + 4 < |bytes|
        && d.ins.val == FromLe(bytes[index + 1], bytes[index + 2], bytes[index + 3], bytes[index + 4]))
      && (d.len == 2 ==> index + 1 < |bytes| && d.ins.src == GetRegister(bytes[index + 1]))
  {
    var op := bytes[index] >> 3;
    if TakesImmediate(op) {
    } else if TakesRegister(op) {
    } else if TakesNothing(op) {
    } else {
    }
  }

  /**
   * The canonical encoding of an instruction: the opcode over the register
   * index, then the immediate (little-endian) or the second register's index.
   */
  function Encode(ins: Instruction): (bytes: seq<bv8>)
    requires !ins.DUMMY?
    ensures |bytes| == OpcodeLength(OpcodeOf(ins))
    ensures bytes[0] >> 3 == OpcodeOf(ins)
  {
    var head := (OpcodeOf(ins) << 3) | Index(ins.reg);
    if ins.HasImmediate() then [head] + ToLe(ins.val)
    else if ins.HasSource() then [head, Index(ins.src)]
    else [head]
  }

  /**
   * Round trip: an encoded instruction, wherever it sits in a buffer,
   * decodes to itself with its encoded length.
   */
  lemma DecodeEncode(ins: Instruction, before: seq<bv8>, after: seq<bv8>)
    requires !ins.DUMMY?
    ensures Decode(before + Encode(ins) + after, |before|) == Ok(Decoded(ins, |Encode(ins)|))
  {
    var bytes := before + Encode(ins) + after;
    assert bytes[|before| .. |before| + |Encode(ins)|] == Encode(ins);
    DecodeAtEncoding(ins, bytes, |before|);
  }

  /** A buffer holding the encoding of `ins` at `i` decodes there to `ins`. */
  lemma DecodeAtEncoding(ins: Instruction, bytes: seq<bv8>, i: nat)
    requires !ins.DUMMY?
    requires i + |Encode(ins)| <= |bytes| && bytes[i .. i + |Encode(ins)|] == Encode(ins)
    ensures Decode(bytes, i) == Ok(Decoded(ins, |Encode(ins)|))
  {
    var code, op := Encode(ins), OpcodeOf(ins);
    assert bytes[i] == code[0];
    HeadByte(ins);
    OpcodeShape(ins);
    if ins.HasImmediate() {
      ImmediateAtEncoding(ins, bytes, i);
      SameFieldsSameInstruction(ImmediateForm(op, ins.reg, ins.val), ins);
    } else if ins.HasSource() {
      SourceAtEncoding(ins, bytes, i);
      SameFieldsSameInstruction(RegisterForm(op, ins.reg, ins.src), ins);
    } else {
      SameFieldsSameInstruction(SingleForm(op, ins.reg), ins);
    }
  }

  /** The first byte of an encoding carries the opcode over the register index. */
  lemma HeadByte(ins: Instruction)
    requires !ins.DUMMY?
    ensures Encode(ins)[0] >> 3 == OpcodeOf(ins) && GetRegister(Encode(ins)[0]) == ins.reg
  {
    RegisterLeftInverse(OpcodeOf(ins), ins.reg);
  }

  /** The immediate read back from an encoding is the one encoded. */
  lemma ImmediateAtEncoding(ins: Instruction, bytes: seq<bv8>, i: nat)
    requires ins.HasImmediate()
    requires i + |Encode(ins)| <= |bytes| && bytes[i .. i + |Encode(ins)|] == Encode(ins)
    ensures Immediate(bytes, i) == Ok(ins.val)
  {
    var le := ToLe(ins.val);
    assert Encode(ins) == [Encode(ins)[0]] + le;
    assert bytes[i + 1] == le[0] && bytes[i + 2] == le[1] && bytes[i + 3] == le[2] && bytes[i + 4] == le[3];
    FromLeToLe(ins.val);
  }

  /** The second register read back from an encoding is the one encoded. */
  lemma SourceAtEncoding(ins: Instruction, bytes: seq<bv8>, i: nat)
    requires ins.HasSource()
    requires i + |Encode(ins)| <= |bytes| && bytes[i .. i + |Encode(ins)|] == Encode(ins)
    ensures SecondRegister(bytes, i) == Ok(ins.src)
  {
    assert bytes[i + 1] == Encode(ins)[1] == Index(ins.src);
    RegisterLeftInverse(0, ins.src);
    assert (0 as bv8 << 3) | Index(ins.src) == Index(ins.src);
  }

  /** An instruction's operand shape is the one its opcode calls for. */
  lemma OpcodeShape(ins: Instruction)
    requires !ins.DUMMY?
    ensures ins.HasImmediate() <==> TakesImmediate(OpcodeOf(ins))
    ensures ins.HasSource() <==> TakesRegister(OpcodeOf(ins))
    ensures !ins.HasImmediate() && !ins.HasSource() <==> TakesNothing(OpcodeOf(ins))
  {
  }

  /** An instruction is determined by its opcode and its operands. */
  lemma SameFieldsSameInstruction(x: Instruction, y: Instruction)
    requires !x.DUMMY? && !y.DUMMY?
    requires OpcodeOf(x) == OpcodeOf(y) && x.reg == y.reg
    requires x.HasImmediate() && y.HasImmediate() ==> x.val == y.val
    requires x.HasSource() && y.HasSource() ==> x.src == y.src
    ensures x == y
  {
  }

  /**
   * Converse round trip: when neither register byte uses the unassigned
   * pattern 7, re-encoding a decoded instruction gives back exactly the
   * bytes that were decoded.
   */
  lemma EncodeDecode(bytes: seq<bv8>, index: nat)
    requires Decode(bytes, index).Ok?
    requires !Decode(bytes, index).value.ins.DUMMY?
    requires bytes[index] & 7 != 7
    requires Decode(bytes, index).value.len == 2 ==> bytes[index + 1] < 7
    ensures var d := Decode(bytes, index).value;
      Encode(d.ins) == bytes[index .. index + d.len]
  {
    var d := Decode(bytes, index).value;
    DecodeFields(bytes, index);
    var s := bytes[index .. index + d.len];
    assert forall k :: 0 <= k < d.len ==> s[k] == bytes[index + k];
    Reencode(d.ins, s);
  }

  /**
   * The bytes an instruction was decoded from are its encoding, when the
   * register bytes avoid the unassigned pattern 7.
   */
  lemma Reencode(ins: Instruction, s: seq<bv8>)
    requires !ins.DUMMY? && |s| == OpcodeLength(OpcodeOf(ins))
    requires s[0] & 7 != 7 && s[0] >> 3 == OpcodeOf(ins) && GetRegister(s[0]) == ins.reg
    requires ins.HasImmediate() ==> |s| == 5 && ins.val == FromLe(s[1], s[2], s[3], s[4])
    requires ins.HasSource() ==> |s| == 2 && s[1] < 7 && ins.src == GetRegister(s[1])
    ensures Encode(ins) == s
  {
    HeadRebuilt(ins, s[0]);
    OpcodeShape(ins);
    if ins.HasImmediate() {
      RebuildImmediate(ins, s[0], s[1], s[2], s[3], s[4]);
    } else if ins.HasSource() {
      RebuildSource(ins, s[0], s[1]);
    } else {
      EncodeShape(ins);
    }
  }

  /** An immediate form re-encodes to its head byte and the immediate's bytes. */
  lemma RebuildImmediate(ins: Instruction, b: bv8, b1: bv8, b2: bv8, b3: bv8, b4: bv8)
    requires ins.HasImmediate() && Encode(ins)[0] == b && ins.val == FromLe(b1, b2, b3, b4)
    ensures Encode(ins) == [b, b1, b2, b3, b4]
  {
    EncodeShape(ins);
    ToLeFromLe(b1, b2, b3, b4);
  }

  /** A register-pair form re-encodes to its head byte and a register byte below 7. */
  lemma RebuildSource(ins: Instruction, b: bv8, b1: bv8)
    requires ins.HasSource() && Encode(ins)[0] == b && b1 < 7 && ins.src == GetRegister(b1)
    ensures Encode(ins) == [b, b1]
  {
    EncodeShape(ins);
    SmallByteRebuilt(b1);
  }

  /** The layout of an encoding: head byte, then the operand if any. */
  lemma EncodeShape(ins: Instruction)
    requires !ins.DUMMY?
    ensures var code := Encode(ins);
      && (ins.HasImmediate() ==> code == [code[0]] + ToLe(ins.val))
      && (ins.HasSource() ==> code == [code[0], Index(ins.src)])
      && (!ins.HasImmediate() && !ins.HasSource() ==> code == [code[0]])
  {
  }

  /**
   * A byte whose high bits are the opcode of `ins` and whose low bits
   * decode to its register (the pattern 7 excluded) is its encoding's head.
   */
  lemma HeadRebuilt(ins: Instruction, b: bv8)
    requires !ins.DUMMY?
    requires b & 7 != 7 && b >> 3 == OpcodeOf(ins) && GetRegister(b) == ins.reg
    ensures Encode(ins)[0] == b
  {
    assert Index(ins.reg) == b & 7;
  }

  /** A register byte below 7 is the index of the register it decodes to. */
  lemma SmallByteRebuilt(b: bv8)
    requires b < 7
    ensures Index(GetRegister(b)) == b
  {
    assert b & 7 == b;
  }

  /**
   * A decode reads nothing outside the instruction it decodes: the opcode
   * byte and the `len - 1` bytes after it (an unknown opcode still reads its
   * opcode byte).
   */
  lemma DecodeIsLocal(bytes: seq<bv8>, other: seq<bv8>, index: nat)
    requires Decode(bytes, index).Ok?
    requires var n := index + Footprint(Decode(bytes, index).value);
      n <= |other| && bytes[index .. n] == other[index .. n]
    ensures Decode(other, index) == Decode(bytes, index)
  {
    var n := index + Footprint(Decode(bytes, index).value);
    forall k | index <= k < n
      ensures other[k] == bytes[k]
    {
      assert other[k] == other[index .. n][k - index];
      assert bytes[k] == bytes[index .. n][k - index];
    }
    var op := bytes[index] >> 3;
    if TakesImmediate(op) {
      assert Immediate(other, index) == Immediate(bytes, index);
    } else if TakesRegister(op) {
      assert SecondRegister(other, index) == SecondRegister(bytes, index);
    }
  }

  /**
   * Decoding does not depend on where the buffer starts: behind a prefix,
   * the same bytes decode to the same instruction, and fail where they
   * failed, with the fault at the shifted offset.
   */
  lemma DecodeShift(prefix: seq<bv8>, bytes: seq<bv8>, i: nat)
    ensures var r, shifted := Decode(bytes, i), Decode(prefix + bytes, |prefix| + i);
      && (shifted.Ok? <==> r.Ok?)
      && (r.Ok? ==> shifted.value == r.value)
      && (r.Err? ==> shifted.fault == OutOfBounds(Ram, |prefix| + i))
  {
    var all := prefix + bytes;
    assert forall k :: 0 <= k < |bytes| ==> all[|prefix| + k] == bytes[k];
    if i < |bytes| {
      var op := bytes[i] >> 3;
      if TakesImmediate(op) {
        assert Immediate(bytes, i).Ok? ==> Immediate(all, |prefix| + i).value == Immediate(bytes, i).value;
      } else if TakesRegister(op) {
        assert SecondRegister(bytes, i).Ok? ==> SecondRegister(all, |prefix| + i).value == SecondRegister(bytes, i).value;
      }
    }
  }

  /** The number of bytes a decode reads: its length, but at least the opcode byte. */
  function Footprint(d: Decoded): nat
  {
    if d.len == 0 then 1 else d.len
  }
}
