/**
 * The machine state and the execution of one decoded instruction.
 *
 * Registers are unsigned 32-bit values; `+` and `-` on `bv32` wrap modulo
 * 2^32, which is what the Rust `u32` operators do in a release build.
 * Addresses at or above `IO_BASE` are rebased into the video buffer, all
 * other addresses index RAM directly.
 */
module Machines {
  import opened Results
  import opened Registers
  import opened LittleEndian
  import opened Instructions

  /** Size in bytes of the memory-mapped video buffer. */
  const VIDEO_SIZE: nat := 0x2A00

  /** First address that is routed to the video buffer. */
  const IO_BASE: bv32 := 0xFFFF0000

  datatype Machine = Machine(
    regA: bv32,
    regB: bv32,
    regC: bv32,
    regD: bv32,
    regE: bv32,
    regF: bv32,
    regIP: bv32,
    memory: seq<bv8>,
    vidMemory: seq<bv8>
  )

  /** The value held in register `r`. */
  function GetRegister(m: Machine, r: Register): bv32
  {
    match r
    case A => m.regA
    case B => m.regB
    case C => m.regC
    case D => m.regD
    case E => m.regE
    case F => m.regF
    case IP => m.regIP
  }

  /**
   * The seven registers and the two buffers are the whole machine state:
   * machines that agree on all of them are equal.
   */
  lemma SameRegistersSameMachine(m1: Machine, m2: Machine)
    requires forall r :: GetRegister(m1, r) == GetRegister(m2, r)
    requires m1.memory == m2.memory && m1.vidMemory == m2.vidMemory
    ensures m1 == m2
  {
    assert GetRegister(m1, A) == GetRegister(m2, A);
    assert GetRegister(m1, B) == GetRegister(m2, B);
    assert GetRegister(m1, C) == GetRegister(m2, C);
    assert GetRegister(m1, D) == GetRegister(m2, D);
    assert GetRegister(m1, E) == GetRegister(m2, E);
    assert GetRegister(m1, F) == GetRegister(m2, F);
    assert GetRegister(m1, IP) == GetRegister(m2, IP);
  }

  /** `m` with register `r` holding `v`; nothing else changes. */
  function SetRegister(m: Machine, r: Register, v: bv32): (m': Machine)
    ensures GetRegister(m', r) == v
    ensures forall s :: s != r ==> GetRegister(m', s) == GetRegister(m, s)
    ensures m'.memory == m.memory && m'.vidMemory == m.vidMemory
  {
    match r
    case A => m.(regA := v)
    case B => m.(regB := v)
    case C => m.(regC := v)
    case D => m.(regD := v)
    case E => m.(regE := v)
    case F => m.(regF := v)
    case IP => m.(regIP := v)
  }

  /** Where an address points: an offset into RAM or into the video buffer. */
  datatype Location = InRam(offset: nat) | InVideo(offset: nat)

  /** Addresses from `IO_BASE` up are the video buffer, rebased to offset 0. */
  function Route(addr: bv32): (loc: Location)
    ensures loc.InVideo? <==> addr >= IO_BASE
    ensures loc.InRam? ==> loc.offset == addr as int
    ensures loc.InVideo? ==> loc.offset < 0x1_0000 && loc.offset as bv32 == addr - IO_BASE
  {
    if addr >= IO_BASE then InVideo((addr - IO_BASE) as int) else InRam(addr as int)
  }

  /** The byte buffer a location lies in. */
  function Buffer(m: Machine, loc: Location): seq<bv8>
  {
    if loc.InRam? then m.memory else m.vidMemory
  }

  /** The four bytes at `loc` lie inside its buffer. */
  predicate WordFits(m: Machine, loc: Location)
  {
    loc.offset + 4 <= |Buffer(m, loc)|
  }

  /** `s` with `bytes` written over it from index `at` onwards. */
  function Splice(s: seq<bv8>, at: nat, bytes: seq<bv8>): seq<bv8>
    requires at + |bytes| <= |s|
  {
    s[..at] + bytes + s[at + |bytes|..]
  }

  /** `buf` holds the little-endian bytes of `w` at `at` .. `at + 3`. */
  predicate HoldsWord(buf: seq<bv8>, at: nat, w: bv32)
  {
    at + 4 <= |buf| && buf[at .. at + 4] == ToLe(w)
  }

  /** The word stored little-endian in `buf` at `at` .. `at + 3`. */
  function ReadWord(buf: seq<bv8>, at: nat): (w: bv32)
    requires at + 4 <= |buf|
    ensures HoldsWord(buf, at, w)
  {
    ToLeFromLe(buf[at], buf[at + 1], buf[at + 2], buf[at + 3]);
    FromLe(buf[at], buf[at + 1], buf[at + 2], buf[at + 3])
  }

  /** The four bytes written to `buf` at `at` in ascending order (the video path of `SET`). */
  function WriteAscending(buf: seq<bv8>, at: nat, bytes: seq<bv8>): (r: seq<bv8>)
    requires |bytes| == 4 && at + 4 <= |buf|
    ensures r == Splice(buf, at, bytes)
  {
    buf[at := bytes[0]][at + 1 := bytes[1]][at + 2 := bytes[2]][at + 3 := bytes[3]]
  }

  /** The four bytes written to `buf` at `at` in the order 1, 0, 2, 3 (the RAM path of `SET`). */
  function WriteRamOrder(buf: seq<bv8>, at: nat, bytes: seq<bv8>): (r: seq<bv8>)
    requires |bytes| == 4 && at + 4 <= |buf|
    ensures r == WriteAscending(buf, at, bytes)
  {
    buf[at + 1 := bytes[1]][at := bytes[0]][at + 2 := bytes[2]][at + 3 := bytes[3]]
  }

  /**
   * The word stored little-endian at address `addr`, as read by `LOD`:
   * routed to RAM or the video buffer, four bytes read from there.
   */
  function Load(m: Machine, addr: bv32): (r: Result<bv32>)
    ensures var loc := Route(addr);
      && (r.Ok? <==> WordFits(m, loc))
      && (r.Ok? ==> HoldsWord(Buffer(m, loc), loc.offset, r.value))
      && (r.Err? ==> r.fault == OutOfBounds(if loc.InRam? then Ram else Video, loc.offset))
  {
    match Route(addr)
    case InVideo(rebased) =>
      if rebased + 3 < |m.vidMemory| then Ok(ReadWord(m.vidMemory, rebased))
      else Err(OutOfBounds(Video, rebased))
    case InRam(a) =>
      if a + 3 < |m.memory| then Ok(ReadWord(m.memory, a))
      else Err(OutOfBounds(Ram, a))
  }

  /**
   * `m` with the little-endian bytes of `val` stored at `addr`, as written
   * by `SET`. RAM is written in the order byte 1, 0, 2, 3, as `main.rs` does.
   */
  function Store(m: Machine, addr: bv32, val: bv32): (r: Result<Machine>)
    ensures var loc := Route(addr);
      && (r.Ok? <==> WordFits(m, loc))
      && (r.Ok? ==>
        && Buffer(r.value, loc) == Splice(Buffer(m, loc), loc.offset, ToLe(val))
        && (loc.InRam? ==> r.value.vidMemory == m.vidMemory)
        && (loc.InVideo? ==> r.value.memory == m.memory)
        && forall s :: GetRegister(r.value, s) == GetRegister(m, s))
      && (r.Err? ==> r.fault == OutOfBounds(if loc.InRam? then Ram else Video, loc.offset))
  {
    var bytes := ToLe(val);
    match Route(addr)
    case InVideo(rebased) =>
      if rebased + 3 < |m.vidMemory| then Ok(m.(vidMemory := WriteAscending(m.vidMemory, rebased, bytes)))
      else Err(OutOfBounds(Video, rebased))
    case InRam(a) =>
      if a + 3 < |m.memory| then Ok(m.(memory := WriteRamOrder(m.memory, a, bytes)))
      else Err(OutOfBounds(Ram, a))
  }

  /**
   * `u32` addition as a release build performs it: modulo 2^32. The
   * Rust code uses plain `+`, which panics on overflow only in debug
   * builds.
   */
  function WrappingAdd(a: bv32, b: bv32): bv32 { a + b }

  /** `u32` subtraction modulo 2^32, as `WrappingAdd`. */
  function WrappingSub(a: bv32, b: bv32): bv32 { a - b }

  /** `u32` comparison: registers are unsigned. */
  predicate UnsignedLess(a: bv32, b: bv32) { a < b }

  /** The outcome of executing one instruction: the new state and whether it jumped. */
  datatype Executed = Executed(machine: Machine, jumped: bool)

  /** The instruction overwrites its first register operand and nothing else. */
  predicate WritesRegister(ins: Instruction)
  {
    ins.MOVD? || ins.MOVR? || ins.ADDD? || ins.ADDR? || ins.SUBD? || ins.SUBR?
    || ins.ANDD? || ins.ANDR? || ins.ORD? || ins.ORR? || ins.NOT? || ins.LOD?
  }

  /**
   * Executes one instruction and reports whether it jumped. Only `LOD` and
   * `SET` can fault, only `SET` writes memory, and no instruction resizes
   * RAM or the video buffer.
   */
  function Exec(m: Machine, ins: Instruction): (r: Result<Executed>)
  {
    match ins
    case MOVD(reg, val) =>
      Ok(Executed(SetRegister(m, reg, val), false))
    case MOVR(target, source) =>
      Ok(Executed(SetRegister(m, target, GetRegister(m, source)), false))
    case JEQ(reg, val) =>
      if GetRegister(m, reg) == GetRegister(m, F) then Ok(Executed(m.(regIP := val), true))
      else Ok(Executed(m, false))
    case JLT(reg, val) =>
      if UnsignedLess(GetRegister(m, reg), GetRegister(m, F)) then Ok(Executed(m.(regIP := val), true))
      else Ok(Executed(m, false))
    case ADDD(reg, val) =>
      Ok(Executed(SetRegister(m, reg, WrappingAdd(GetRegister(m, reg), val)), false))
    case ADDR(reg, src) =>
      Ok(Executed(SetRegister(m, reg, WrappingAdd(GetRegister(m, reg), GetRegister(m, src))), false))
    case SUBD(reg, val) =>
      Ok(Executed(SetRegister(m, reg, WrappingSub(GetRegister(m, reg), val)), false))
    case SUBR(reg, src) =>
      Ok(Executed(SetRegister(m, reg, WrappingSub(GetRegister(m, reg), GetRegister(m, src))), false))
    case ANDD(reg, val) =>
      Ok(Executed(SetRegister(m, reg, GetRegister(m, reg) & val), false))
    case ANDR(reg, src) =>
      Ok(Executed(SetRegister(m, reg, GetRegister(m, reg) & GetRegister(m, src)), false))
    case ORD(reg, val) =>
      Ok(Executed(SetRegister(m, reg, GetRegister(m, reg) | val), false))
    case ORR(reg, src) =>
      Ok(Executed(SetRegister(m, reg, GetRegister(m, reg) | GetRegister(m, src)), false))
    case NOT(reg) =>
      Ok(Executed(SetRegister(m, reg, !GetRegister(m, reg)), false))
    case LOD(reg, addr) =>
      var val :- Load(m, addr);
      Ok(Executed(SetRegister(m, reg, val), false))
    case SET(reg) =>
      var m' :- Store(m, GetRegister(m, F), GetRegister(m, reg));
      Ok(Executed(m', false))
    case DUMMY =>
      Ok(Executed(m, false))
  }

  /**
   * Only a load or a store can fault, and exactly when the word it
   * addresses does not fit in the buffer the address routes to.
   */
  lemma ExecFaults(m: Machine, ins: Instruction)
    ensures Exec(m, ins).Err? <==>
      || (ins.LOD? && !WordFits(m, Route(ins.val)))
      || (ins.SET? && !WordFits(m, Route(m.regF)))
  {
    if ins.LOD? {
      ExecLoad(m, ins.reg, ins.val);
    } else if ins.SET? {
      ExecStore(m, ins.reg);
    } else {
      ExecTotal(m, ins);
    }
  }

  /** Every instruction other than `LOD` and `SET` succeeds. */
  lemma ExecTotal(m: Machine, ins: Instruction)
    requires !ins.LOD? && !ins.SET?
    ensures Exec(m, ins).Ok?
  {
  }

  /**
   * Execution keeps both buffers' sizes; only a store touches them, and a
   * store leaves every register alone.
   */
  lemma ExecFrame(m: Machine, ins: Instruction)
    requires Exec(m, ins).Ok?
    ensures var m' := Exec(m, ins).value.machine;
      && |m'.memory| == |m.memory|
      && |m'.vidMemory| == |m.vidMemory|
      && (!ins.SET? ==> m'.memory == m.memory && m'.vidMemory == m.vidMemory)
      && (ins.SET? ==> forall s :: GetRegister(m', s) == GetRegister(m, s))
  {
    match ins
    case MOVD(reg, val) => ExecMovd(m, reg, val);
    case MOVR(reg, src) => ExecMovr(m, reg, src);
    case JEQ(reg, val) => ExecJeq(m, reg, val);
    case JLT(reg, val) => ExecJlt(m, reg, val);
    case ADDD(reg, val) => ExecAddd(m, reg, val);
    case ADDR(reg, src) => ExecAddr(m, reg, src);
    case SUBD(reg, val) => ExecSubd(m, reg, val);
    case SUBR(reg, src) => ExecSubr(m, reg, src);
    case ANDD(reg, val) => ExecAndd(m, reg, val);
    case ANDR(reg, src) => ExecAndr(m, reg, src);
    case ORD(reg, val) => ExecOrd(m, reg, val);
    case ORR(reg, src) => ExecOrr(m, reg, src);
    case NOT(reg) => ExecNot(m, reg);
    case LOD(reg, addr) => ExecLoad(m, reg, addr);
    case SET(reg) =>
      ExecStore(m, reg);
      StoreChangesOnlyWord(m, GetRegister(m, F), GetRegister(m, reg));
    case DUMMY => ExecDummy(m);
  }

  /**
   * Only the compare-and-jump instructions jump, and an instruction that
   * neither jumps nor names `IP` as its destination leaves `IP` alone.
   */
  lemma ExecKeepsIp(m: Machine, ins: Instruction)
    requires Exec(m, ins).Ok?
    ensures Exec(m, ins).value.jumped ==> ins.JEQ? || ins.JLT?
    ensures !ins.JEQ? && !ins.JLT? && !(WritesRegister(ins) && ins.reg == IP) ==>
      GetRegister(Exec(m, ins).value.machine, IP) == GetRegister(m, IP)
  {
    match ins
    case MOVD(reg, val) => ExecMovd(m, reg, val);
    case MOVR(reg, src) => ExecMovr(m, reg, src);
    case JEQ(reg, val) => ExecJeq(m, reg, val);
    case JLT(reg, val) => ExecJlt(m, reg, val);
    case ADDD(reg, val) => ExecAddd(m, reg, val);
    case ADDR(reg, src) => ExecAddr(m, reg, src);
    case SUBD(reg, val) => ExecSubd(m, reg, val);
    case SUBR(reg, src) => ExecSubr(m, reg, src);
    case ANDD(reg, val) => ExecAndd(m, reg, val);
    case ANDR(reg, src) => ExecAndr(m, reg, src);
    case ORD(reg, val) => ExecOrd(m, reg, val);
    case ORR(reg, src) => ExecOrr(m, reg, src);
    case NOT(reg) => ExecNot(m, reg);
    case LOD(reg, addr) => ExecLoad(m, reg, addr);
    case SET(reg) =>
      ExecStore(m, reg);
      StoreChangesOnlyWord(m, GetRegister(m, F), GetRegister(m, reg));
    case DUMMY => ExecDummy(m);
  }

  /** The two ends of the routing threshold. */
  lemma RouteThreshold()
    ensures Route(0xFFFF_0000) == InVideo(0)
    ensures Route(0xFFFF_0001) == InVideo(1)
    ensures Route(0xFFFE_FFFF) == InRam(0xFFFE_FFFF)
  {
  }

  /** `DUMMY` does nothing and does not jump. */
  lemma ExecDummy(m: Machine)
    ensures Exec(m, DUMMY) == Ok(Executed(m, false))
  {
  }

  /**
   * `JEQ` jumps exactly when its register equals `F`, and the jump changes
   * nothing but `IP`, which becomes the target; no jump changes nothing.
   */
  lemma ExecJeq(m: Machine, reg: Register, target: bv32)
    ensures var x, y := GetRegister(m, reg), GetRegister(m, F);
      Exec(m, JEQ(reg, target)) ==
        Ok(if x == y then Executed(SetRegister(m, IP, target), true) else Executed(m, false))
  {
    assert SetRegister(m, IP, target) == m.(regIP := target);
  }

  /**
   * `JLT` jumps exactly when its register is below `F` as unsigned 32-bit
   * values, and the jump changes nothing but `IP`.
   */
  lemma ExecJlt(m: Machine, reg: Register, target: bv32)
    ensures var x, y := GetRegister(m, reg), GetRegister(m, F);
      Exec(m, JLT(reg, target)) ==
        Ok(if x < y then Executed(SetRegister(m, IP, target), true) else Executed(m, false))
  {
  }

  /**
   * Executing `ins` from `m` succeeded without a jump and changed register
   * `reg` to `v` and nothing else.
   */
  predicate WroteRegister(m: Machine, r: Result<Executed>, reg: Register, v: bv32)
  {
    && r.Ok? && !r.value.jumped
    && GetRegister(r.value.machine, reg) == v
    && (forall s :: s != reg ==> GetRegister(r.value.machine, s) == GetRegister(m, s))
    && r.value.machine.memory == m.memory && r.value.machine.vidMemory == m.vidMemory
  }

  /** `MOVD` loads the immediate into its register. */
  lemma ExecMovd(m: Machine, reg: Register, val: bv32)
    ensures WroteRegister(m, Exec(m, MOVD(reg, val)), reg, val)
  {
  }

  /** `ADDD` adds the immediate to its register, wrapping modulo 2^32. */
  lemma ExecAddd(m: Machine, reg: Register, val: bv32)
    ensures WroteRegister(m, Exec(m, ADDD(reg, val)), reg, GetRegister(m, reg) + val)
  {
  }

  /** `SUBD` subtracts the immediate from its register, wrapping modulo 2^32. */
  lemma ExecSubd(m: Machine, reg: Register, val: bv32)
    ensures WroteRegister(m, Exec(m, SUBD(reg, val)), reg, GetRegister(m, reg) - val)
  {
  }

  /** `ANDD` masks its register with the immediate. */
  lemma ExecAndd(m: Machine, reg: Register, val: bv32)
    ensures WroteRegister(m, Exec(m, ANDD(reg, val)), reg, GetRegister(m, reg) & val)
  {
  }

  /** `ORD` sets in its register the bits set in the immediate. */
  lemma ExecOrd(m: Machine, reg: Register, val: bv32)
    ensures WroteRegister(m, Exec(m, ORD(reg, val)), reg, GetRegister(m, reg) | val)
  {
  }

  /** `MOVR` copies the second register into the first. */
  lemma ExecMovr(m: Machine, reg: Register, src: Register)
    ensures WroteRegister(m, Exec(m, MOVR(reg, src)), reg, GetRegister(m, src))
  {
  }

  /** `ADDR` adds the second register to the first, wrapping modulo 2^32. */
  lemma ExecAddr(m: Machine, reg: Register, src: Register)
    ensures WroteRegister(m, Exec(m, ADDR(reg, src)), reg, GetRegister(m, reg) + GetRegister(m, src))
  {
  }

  /** `SUBR` subtracts the second register from the first, wrapping modulo 2^32. */
  lemma ExecSubr(m: Machine, reg: Register, src: Register)
    ensures WroteRegister(m, Exec(m, SUBR(reg, src)), reg, GetRegister(m, reg) - GetRegister(m, src))
  {
  }

  /** `ANDR` masks the first register with the second. */
  lemma ExecAndr(m: Machine, reg: Register, src: Register)
    ensures WroteRegister(m, Exec(m, ANDR(reg, src)), reg, GetRegister(m, reg) & GetRegister(m, src))
  {
  }

  /** `ORR` sets in the first register the bits set in the second. */
  lemma ExecOrr(m: Machine, reg: Register, src: Register)
    ensures WroteRegister(m, Exec(m, ORR(reg, src)), reg, GetRegister(m, reg) | GetRegister(m, src))
  {
  }

  /** `NOT` replaces its register with its bitwise complement. */
  lemma ExecNot(m: Machine, reg: Register)
    ensures WroteRegister(m, Exec(m, NOT(reg)), reg, !GetRegister(m, reg))
  {
  }

  /** Register arithmetic wraps around modulo 2^32 instead of failing. */
  lemma ArithmeticWraps(m: Machine, r: Register)
    requires GetRegister(m, r) == 0xFFFF_FFFF
    ensures GetRegister(Exec(m, ADDD(r, 1)).value.machine, r) == 0
    ensures GetRegister(Exec(m, ADDR(r, r)).value.machine, r) == 0xFFFF_FFFE
    ensures GetRegister(Exec(SetRegister(m, r, 0), SUBD(r, 1)).value.machine, r) == 0xFFFF_FFFF
  {
    ExecAddd(m, r, 1);
    ExecAddr(m, r, r);
    ExecSubd(SetRegister(m, r, 0), r, 1);
  }

  /**
   * `LOD` succeeds exactly when the four bytes at the routed address exist;
   * it then writes the word they hold into its register and changes nothing
   * else.
   */
  lemma ExecLoad(m: Machine, reg: Register, addr: bv32)
    ensures var r, loc := Exec(m, LOD(reg, addr)), Route(addr);
      && (r.Ok? <==> WordFits(m, loc))
      && (r.Err? ==> r.fault == Load(m, addr).fault)
      && (r.Ok? ==>
        && WroteRegister(m, r, reg, GetRegister(r.value.machine, reg))
        && HoldsWord(Buffer(m, loc), loc.offset, GetRegister(r.value.machine, reg)))
  {
  }

  /** `SET` stores its register at the address held in `F` and never jumps. */
  lemma ExecStore(m: Machine, reg: Register)
    ensures var r, st := Exec(m, SET(reg)), Store(m, GetRegister(m, F), GetRegister(m, reg));
      && (r.Ok? <==> st.Ok?)
      && (r.Ok? ==> r.value == Executed(st.value, false))
      && (r.Err? ==> r.fault == st.fault)
  {
  }

  /**
   * A store changes exactly the four bytes at the routed offset of the
   * routed buffer, to the word's little-endian bytes; every other byte of
   * both buffers, and every register, stays as it was.
   */
  lemma StoreChangesOnlyWord(m: Machine, addr: bv32, val: bv32)
    requires Store(m, addr, val).Ok?
    ensures var loc, m' := Route(addr), Store(m, addr, val).value;
      var before, after := Buffer(m, loc), Buffer(m', loc);
      && |after| == |before|
      && after[loc.offset .. loc.offset + 4] == ToLe(val)
      && (forall k :: 0 <= k < |before| && !(loc.offset <= k < loc.offset + 4) ==> after[k] == before[k])
      && (loc.InRam? ==> m'.vidMemory == m.vidMemory)
      && (loc.InVideo? ==> m'.memory == m.memory)
      && (forall s :: GetRegister(m', s) == GetRegister(m, s))
  {
    var loc := Route(addr);
    SpliceChangesOnly(Buffer(m, loc), loc.offset, ToLe(val));
  }

  /** Splicing replaces exactly the spliced range. */
  lemma SpliceChangesOnly(s: seq<bv8>, at: nat, bytes: seq<bv8>)
    requires at + |bytes| <= |s|
    ensures var r := Splice(s, at, bytes);
      && |r| == |s|
      && r[at .. at + |bytes|] == bytes
      && forall k :: 0 <= k < |s| && !(at <= k < at + |bytes|) ==> r[k] == s[k]
  {
  }

  /** A `LOD` from the address in `F` right after a `SET` reads back the stored register. */
  lemma LoadAfterStore(m: Machine, src: Register, dst: Register)
    requires Exec(m, SET(src)).Ok?
    ensures var m1 := Exec(m, SET(src)).value.machine;
      && Exec(m1, LOD(dst, GetRegister(m, F))).Ok?
      && GetRegister(Exec(m1, LOD(dst, GetRegister(m, F))).value.machine, dst) == GetRegister(m, src)
  {
    var addr, v := GetRegister(m, F), GetRegister(m, src);
    var loc := Route(addr);
    ExecStore(m, src);
    var m1 := Exec(m, SET(src)).value.machine;
    StoreChangesOnlyWord(m, addr, v);
    ExecLoad(m1, dst, addr);
    var w := GetRegister(Exec(m1, LOD(dst, addr)).value.machine, dst);
    ToLeInjective(w, v);
  }
}
