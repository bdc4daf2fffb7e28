/**
 * The emulator's main loop: booting a program image and stepping the
 * machine until the instruction pointer leaves the program.
 *
 * Memory holds 65535 zeroed words and then the program, and execution
 * starts at the program's first byte. Before each step the loop compares
 * `IP` with the end of the program and, once it is at or past it, stops for
 * good. Otherwise it decodes the instruction at `IP`, executes it and, when
 * it did not jump, advances `IP` by the instruction's length.
 */
module Emulation {
  import opened Results
  import opened Registers
  import opened Instructions
  import opened Machines
  import MachineCode
  import LittleEndian

  /** Bytes of zeroed memory below the program: 65535 words. */
  const RESERVED: nat := 65535 * 4

  /** `RESERVED` as a 32-bit address: where execution starts. */
  const ENTRY: bv32 := 0x3_FFFC

  /** The machine, the program's length and whether execution has stopped. */
  datatype Emulator = Emulator(machine: Machine, proglen: nat, halted: bool)

  /** The initial state for a program image. */
  function Boot(program: seq<bv8>): (e: Emulator)
    ensures !e.halted && e.proglen == |program|
    ensures forall r :: r != IP ==> GetRegister(e.machine, r) == 0
    ensures GetRegister(e.machine, IP) == ENTRY && ENTRY as int == RESERVED
    ensures |e.machine.memory| == RESERVED + |program|
    ensures e.machine.memory[RESERVED..] == program
    ensures forall k :: 0 <= k < RESERVED ==> e.machine.memory[k] == 0
    ensures |e.machine.vidMemory| == VIDEO_SIZE
    ensures forall k :: 0 <= k < VIDEO_SIZE ==> e.machine.vidMemory[k] == 0
  {
    var memory := seq(RESERVED, _ => 0 as bv8) + program;
    Emulator(Machine(0, 0, 0, 0, 0, 0, ENTRY, memory, seq(VIDEO_SIZE, _ => 0 as bv8)), |program|, false)
  }

  /**
   * The address just past the program: its length cut to 32 bits plus
   * `RESERVED`, wrapping modulo 2^32 as the release build's `u32` addition
   * does.
   */
  function CodeEnd(proglen: nat): (end: nat)
    ensures end < 0x1_0000_0000
    ensures end == (proglen + RESERVED) % 0x1_0000_0000
    ensures proglen + RESERVED < 0x1_0000_0000 ==> end == RESERVED + proglen
    ensures proglen < 0x1_0000_0000 <= proglen + RESERVED ==> end == RESERVED + proglen - 0x1_0000_0000
  {
    ((proglen % 0x1_0000_0000) + RESERVED) % 0x1_0000_0000
  }

  /** `IP` has reached or passed the end of the program (as unsigned words). */
  predicate AtEnd(e: Emulator)
  {
    e.machine.regIP as int >= CodeEnd(e.proglen)
  }

  /**
   * An instruction length as the `u32` the decoder reports it as; lengths
   * are 0, 1, 2 or 5.
   */
  function LengthWord(len: nat): bv32
  {
    if len == 5 then 5 else if len == 2 then 2 else if len == 1 then 1 else 0
  }

  /** `m` with `IP` moved forward by `len` bytes, modulo 2^32. */
  function Advance(m: Machine, len: nat): (m': Machine)
    ensures GetRegister(m', IP) == WrappingAdd(GetRegister(m, IP), LengthWord(len))
    ensures forall r :: r != IP ==> GetRegister(m', r) == GetRegister(m, r)
    ensures m'.memory == m.memory && m'.vidMemory == m.vidMemory
  {
    SetRegister(m, IP, WrappingAdd(GetRegister(m, IP), LengthWord(len)))
  }

  /** The instruction at `IP`. */
  function Fetch(e: Emulator): (r: Result<Decoded>)
    ensures var mem, ip := e.machine.memory, e.machine.regIP as int;
      && (r.Ok? <==> ip < |mem| && ip + OpcodeLength(mem[ip] >> 3) <= |mem|)
      && (r.Err? ==> r.fault == OutOfBounds(Ram, ip))
  {
    Decode(e.machine.memory, e.machine.regIP as int)
  }

  /**
   * One pass of the main loop. A stopped emulator stays as it is; at the
   * end of the program it stops without decoding; otherwise it decodes at
   * `IP`, executes, and advances `IP` past the instruction unless it
   * jumped. A decode or an access out of bounds is a fault.
   */
  function Step(e: Emulator): (r: Result<Emulator>)
    ensures e.halted ==> r == Ok(e)
    ensures !e.halted && AtEnd(e) ==> r == Ok(e.(halted := true))
    ensures r.Ok? ==> r.value.proglen == e.proglen
    ensures r.Ok? ==> (r.value.halted <==> e.halted || AtEnd(e))
  {
    if e.halted then Ok(e)
    else if AtEnd(e) then Ok(e.(halted := true))
    else
      var d :- Fetch(e);
      var x :- Exec(e.machine, d.ins);
      Ok(e.(machine := if x.jumped then x.machine else Advance(x.machine, d.len)))
  }

  /**
   * `fuel` passes of the main loop, stopping at the first fault. A halted
   * emulator stays as it is however long it runs, the program length never
   * changes, and a run that starts at the end of the program halts.
   */
  function Run(e: Emulator, fuel: nat): (r: Result<Emulator>)
    ensures e.halted ==> r == Ok(e)
    ensures r.Ok? ==> r.value.proglen == e.proglen
    ensures r.Ok? && fuel > 0 && AtEnd(e) ==> r.value.halted
    decreases fuel
  {
    if fuel == 0 then Ok(e)
    else
      var e' :- Step(e);
      Run(e', fuel - 1)
  }

  /**
   * A running step faults exactly when fetching the instruction at `IP`
   * or executing it faults.
   */
  lemma StepFaults(e: Emulator)
    requires !e.halted && !AtEnd(e)
    ensures Step(e).Err? <==> Fetch(e).Err? || Exec(e.machine, Fetch(e).value.ins).Err?
  {
  }

  /**
   * Whenever the instruction at `IP` executes without jumping, the loop
   * adds its length to whatever `IP` the instruction left, modulo 2^32,
   * and keeps everything else the instruction produced.
   */
  lemma StepNoJump(e: Emulator)
    requires !e.halted && !AtEnd(e) && Fetch(e).Ok?
    requires Exec(e.machine, Fetch(e).value.ins).Ok?
    requires !Exec(e.machine, Fetch(e).value.ins).value.jumped
    ensures var d := Fetch(e).value;
      var x := Exec(e.machine, d.ins).value.machine;
      && Step(e).Ok?
      && GetRegister(Step(e).value.machine, IP) == WrappingAdd(GetRegister(x, IP), LengthWord(d.len))
      && (forall r :: r != IP ==> GetRegister(Step(e).value.machine, r) == GetRegister(x, r))
      && Step(e).value.machine.memory == x.memory
      && Step(e).value.machine.vidMemory == x.vidMemory
  {
  }

  /** When the instruction at `IP` jumps, the loop keeps the machine it left untouched. */
  lemma StepJumped(e: Emulator)
    requires !e.halted && !AtEnd(e) && Fetch(e).Ok?
    requires Exec(e.machine, Fetch(e).value.ins).Ok?
    requires Exec(e.machine, Fetch(e).value.ins).value.jumped
    ensures Step(e) == Ok(e.(machine := Exec(e.machine, Fetch(e).value.ins).value.machine))
  {
  }

  /**
   * An instruction that does not branch and does not name `IP` as its
   * destination executes as usual and then moves `IP` forward by its
   * length.
   */
  lemma StepAdvances(e: Emulator)
    requires !e.halted && !AtEnd(e) && Fetch(e).Ok?
    requires var ins := Fetch(e).value.ins;
      !ins.JEQ? && !ins.JLT? && !(WritesRegister(ins) && ins.reg == IP)
    requires Exec(e.machine, Fetch(e).value.ins).Ok?
    ensures var d := Fetch(e).value;
      var x := Exec(e.machine, d.ins).value.machine;
      && Step(e).Ok?
      && GetRegister(Step(e).value.machine, IP) == WrappingAdd(e.machine.regIP, LengthWord(d.len))
      && (forall r :: r != IP ==> GetRegister(Step(e).value.machine, r) == GetRegister(x, r))
      && Step(e).value.machine.memory == x.memory
      && Step(e).value.machine.vidMemory == x.vidMemory
  {
    var d := Fetch(e).value;
    ExecKeepsIp(e.machine, d.ins);
    StepNoJump(e);
  }

  /**
   * `JEQ` leaves `IP` at its target when its register equals `F` and just
   * past its 5 bytes otherwise; nothing else changes.
   */
  lemma StepJeq(e: Emulator, reg: Register, target: bv32)
    requires !e.halted && !AtEnd(e) && Fetch(e) == Ok(Decoded(JEQ(reg, target), 5))
    ensures var m := e.machine;
      var taken := GetRegister(m, reg) == GetRegister(m, F);
      && Step(e).Ok?
      && GetRegister(Step(e).value.machine, IP) == (if taken then target else WrappingAdd(m.regIP, 5))
      && (forall r :: r != IP ==> GetRegister(Step(e).value.machine, r) == GetRegister(m, r))
      && Step(e).value.machine.memory == m.memory
      && Step(e).value.machine.vidMemory == m.vidMemory
  {
    ExecJeq(e.machine, reg, target);
  }

  /**
   * `JLT` leaves `IP` at its target when its register is below `F`
   * (unsigned) and just past its 5 bytes otherwise; nothing else changes.
   */
  lemma StepJlt(e: Emulator, reg: Register, target: bv32)
    requires !e.halted && !AtEnd(e) && Fetch(e) == Ok(Decoded(JLT(reg, target), 5))
    ensures var m := e.machine;
      var taken := GetRegister(m, reg) < GetRegister(m, F);
      && Step(e).Ok?
      && GetRegister(Step(e).value.machine, IP) == (if taken then target else WrappingAdd(m.regIP, 5))
      && (forall r :: r != IP ==> GetRegister(Step(e).value.machine, r) == GetRegister(m, r))
      && Step(e).value.machine.memory == m.memory
      && Step(e).value.machine.vidMemory == m.vidMemory
  {
    ExecJlt(e.machine, reg, target);
  }

  /**
   * Moving a value into `IP` is not a jump: the loop still adds the
   * instruction's length, so execution continues 5 bytes past the value.
   */
  lemma StepMoveIntoIp(e: Emulator, v: bv32)
    requires !e.halted && !AtEnd(e) && Fetch(e) == Ok(Decoded(MOVD(IP, v), 5))
    ensures Step(e).Ok? && GetRegister(Step(e).value.machine, IP) == WrappingAdd(v, 5)
  {
    ExecMovd(e.machine, IP, v);
    StepNoJump(e);
  }

  /**
   * An unknown opcode decodes to `DUMMY` of length 0, so a step leaves the
   * emulator exactly as it was.
   */
  lemma StepDummySpins(e: Emulator)
    requires !e.halted && !AtEnd(e) && Fetch(e) == Ok(Decoded(DUMMY, 0))
    ensures Step(e) == Ok(e)
  {
    ExecDummy(e.machine);
    assert Advance(e.machine, 0) == e.machine;
  }

  /** Hence, once at an unknown opcode, the emulator never halts. */
  lemma {:induction false} RunDummySpins(e: Emulator, fuel: nat)
    requires !e.halted && !AtEnd(e) && Fetch(e) == Ok(Decoded(DUMMY, 0))
    ensures Run(e, fuel) == Ok(e)
    decreases fuel
  {
    if fuel > 0 {
      StepDummySpins(e);
      RunDummySpins(e, fuel - 1);
    }
  }

  /** A step keeps the sizes of RAM and of the video buffer. */
  lemma StepKeepsLayout(e: Emulator)
    requires Step(e).Ok?
    ensures |Step(e).value.machine.memory| == |e.machine.memory|
    ensures |Step(e).value.machine.vidMemory| == |e.machine.vidMemory|
  {
    if !e.halted && !AtEnd(e) {
      ExecFrame(e.machine, Fetch(e).value.ins);
    }
  }

  /**
   * Execution starts at the program's first byte: a successful fetch from
   * a freshly booted emulator is the decode of the program at offset 0.
   */
  lemma BootFetch(program: seq<bv8>)
    ensures Fetch(Boot(program)).Ok? <==> Decode(program, 0).Ok?
    ensures Decode(program, 0).Ok? ==> Fetch(Boot(program)).value == Decode(program, 0).value
  {
    var e := Boot(program);
    assert e.machine.memory == seq(RESERVED, _ => 0 as bv8) + program;
    DecodeShift(seq(RESERVED, _ => 0 as bv8), program, 0);
  }

  /**
   * A one-instruction program, `MOVD A, 5`: the first step loads 5 into `A`
   * and moves `IP` to the end of the program, and the next step halts.
   */
  lemma BootMoveThenHalt()
    ensures var e0 := Boot([0x00, 0x05, 0x00, 0x00, 0x00]);
      && Step(e0).Ok?
      && GetRegister(Step(e0).value.machine, A) == 5
      && GetRegister(Step(e0).value.machine, IP) == ENTRY + 5
      && Step(Step(e0).value) == Ok(Step(e0).value.(halted := true))
  {
    var program: seq<bv8> := [0x00, 0x05, 0x00, 0x00, 0x00];
    var e0 := Boot(program);
    assert MachineCode.GetRegister(0x00) == A;
    assert LittleEndian.FromLe(0x05, 0, 0, 0) == 5;
    assert Decode(program, 0) == Ok(Decoded(MOVD(A, 5), 5));
    BootFetch(program);
    assert (ENTRY + 5) as int == CodeEnd(5);
    ExecMovd(e0.machine, A, 5);
  }

  /**
   * A program whose first byte has the unassigned opcode 31 never halts:
   * however many steps run, the emulator is still in its initial state.
   */
  lemma BootUnknownOpcodeSpins(fuel: nat)
    ensures Run(Boot([0xF8]), fuel) == Ok(Boot([0xF8]))
  {
    var e0 := Boot([0xF8]);
    assert Decode([0xF8], 0) == Ok(Decoded(DUMMY, 0));
    BootFetch([0xF8]);
    RunDummySpins(e0, fuel);
  }

  /**
   * A program that ends inside an instruction faults on that instruction:
   * `MOVD` needs four immediate bytes and only one follows it.
   */
  lemma BootTruncatedFaults()
    ensures Step(Boot([0x00, 0x05])) == Err(OutOfBounds(Ram, RESERVED))
  {
    var e0 := Boot([0x00, 0x05]);
    assert e0.machine.memory[RESERVED] == 0x00;
  }

  /**
   * Without wrap-around, the loop stops exactly when `IP` reaches the
   * first byte past the program.
   */
  lemma AtEndPastProgram(e: Emulator)
    requires e.proglen + RESERVED < 0x1_0000_0000
    ensures AtEnd(e) <==> e.machine.regIP as int >= RESERVED + e.proglen
  {
  }
}
