# Orchid emulator core in Dafny

Orchid is a small 32-bit virtual machine. A program is a flat byte string.
Every instruction begins with one byte. Its top five bits are the opcode and
its low three bits name the first register operand. Depending on the opcode,
that byte is followed by nothing, by a byte naming a second register, or by a
four-byte little-endian immediate. The machine has five general registers
`A`..`E`, a flag register `F` and an instruction pointer `IP`, all unsigned
32-bit. `JEQ` and `JLT` compare against `F`, and `SET` stores to the address
held in `F`. It has RAM
and a 0x2A00-byte video buffer. Addresses at or above `0xFFFF0000` are
mapped onto the video buffer. The emulator loads the program after 65535*4
zero bytes and starts `IP` there. It then repeatedly decodes the instruction
at `IP`, executes it, and advances `IP` by the instruction's length unless
the instruction jumped. It halts once `IP` reaches the end of the program.

The model has seven modules:

- `Results` (results.dfy) holds the `Result` type. An indexing panic in the
  Rust code becomes an `Err(OutOfBounds(region, offset))`.
- `Registers` (registers.dfy) holds the register enumeration and its 3-bit
  index.
- `LittleEndian` (littleendian.dfy) holds `u32::from_le_bytes` and
  `to_le_bytes`, with both round trips.
- `MachineCode` (machinecode.dfy) holds the bit-string helpers of
  `src/machinecode.rs`.
- `Instructions` (instructions.dfy) holds the instruction set, the decoder
  `Instruction::from_bytes`, and an encoder used as the decoder's inverse.
- `Machines` (machine.dfy) holds the machine state, register access, the
  memory-mapped load and store, and `exec_instruction`.
- `Emulation` (emulator.dfy) holds the boot state built by `main`, one step
  of its loop, and a fuel-bounded run.

The decoder's partner is the encoder: decoding an encoding gives the
instruction back, and re-encoding a decoded instruction gives back the bytes
read. Execution's partners are per-instruction reference statements, a
fault characterisation and frame lemmas. The load/store pair is related by
a load-after-store lemma.

## Model

| member | source | states |
|---|---|---|
| Registers.Index | src/machinecode.rs:44-50 | every register has a 3-bit index below 7; the indices of the seven registers are distinct (with `Registers.IndexInjective`) |
| Registers.IndexInjective | src/machinecode.rs:28-53 | two registers with the same 3-bit field pattern are the same register, so the register table is one-to-one |
| LittleEndian.FromLe | src/main.rs:48-53 | the bytes are read least significant first: byte k contributes its value times 256^k (stated by `LittleEndian.FromLeValue`) |
| LittleEndian.FromLeValue | src/main.rs:48-53 | the word read from four bytes is b0 + 0x100*b1 + 0x10000*b2 + 0x1000000*b3 |
| LittleEndian.ToLe | src/main.rs:276 | the result is four bytes; `LittleEndian.FromLeToLe` and `LittleEndian.ToLeFromLe` state that it inverts `FromLe` |
| LittleEndian.FromLeToLe | src/main.rs:48-53 | reading the four bytes written for a word gives the word back |
| LittleEndian.ToLeFromLe | src/main.rs:276 | writing the word read from four bytes gives those bytes back |
| LittleEndian.FromLeInjective | src/main.rs:48-53 | different byte quadruples are read as different immediates |
| MachineCode.GetOpcode | src/machinecode.rs:12-27 | the opcode string has five binary digits, spelling bits 7..3 of the byte most significant first; its value is the byte shifted right by three |
| MachineCode.OpcodeMatches | src/main.rs:46-141 | comparing the opcode string with a five-digit binary literal is the same as comparing the opcode field with the literal's value |
| MachineCode.OpcodeDependsOnHighBits | src/machinecode.rs:12-27 | two bytes get the same opcode string exactly when their top five bits agree |
| MachineCode.GetRegister | src/machinecode.rs:28-53 | for field values 0..6 the register's index equals the low three bits; the pattern 111 yields `A` |
| MachineCode.RegisterDependsOnLowBits | src/machinecode.rs:28-53 | the register field ignores the opcode bits |
| MachineCode.RegisterLeftInverse | src/machinecode.rs:28-53 | placing a register's index under any opcode and reading the register field gives that register back |
| MachineCode.GetFronthalf | src/machinecode.rs:56-71 | the result has four binary digits whose value is the high nibble |
| MachineCode.GetBackhalf | src/machinecode.rs:72-87 | the result has four binary digits whose value is the low nibble |
| MachineCode.HalvesSpellByte | src/machinecode.rs:56-87 | front half followed by back half is the byte's 8-bit binary, most significant bit first, and its value is the byte |
| Instructions.OpcodeOf | src/main.rs:46-140 | every instruction's opcode fits the 5-bit field |
| Instructions.ImmediateForm | src/main.rs:47-55 | opcodes 0, 2, 3, 5, 7, 9, 14 and 16 build the immediate-operand instruction with that opcode, register and value |
| Instructions.RegisterForm | src/main.rs:56-59 | opcodes 1, 4, 6, 8 and 10 build the two-register instruction with that opcode and both registers |
| Instructions.SingleForm | src/main.rs:121-131 | opcode 13 builds `NOT` and opcode 15 builds `SET` on the given register |
| Instructions.Decode | src/main.rs:43-143 | decoding succeeds exactly when the index and all operand bytes of its opcode lie inside the buffer; a failure reports a RAM access at the index; the reported length is 5, 2, 1 or 0 according to the opcode's operand shape |
| Instructions.DecodeFields | src/main.rs:43-143 | a decoded instruction is `DUMMY` exactly when its length is 0; otherwise it carries the byte's opcode and register field; it has an immediate exactly when its length is 5, read little-endian from the next four bytes; it has a second register exactly when its length is 2, read from the next byte's low bits |
| Instructions.Encode | src/main.rs:43-143 | the inverse of `from_bytes`, which has no counterpart in the Rust code: an encoding is 5, 2 or 1 bytes long according to the instruction's operands and its first byte carries the opcode in its top five bits |
| Instructions.DecodeEncode | src/main.rs:43-143 | decoding the encoding of any non-`DUMMY` instruction, wherever it sits in a buffer, gives that instruction and the encoding's length |
| Instructions.EncodeDecode | src/main.rs:43-143 | when the register fields are in range, re-encoding a decoded instruction gives exactly the bytes the decoder consumed |
| Instructions.DecodeIsLocal | src/main.rs:43-143 | decoding reads only the bytes of the instruction: two buffers that agree there decode alike |
| Instructions.DecodeShift | src/main.rs:366 | prepending bytes to the buffer and shifting the index by as much changes neither the decoded instruction nor its length; a fault moves with the index |
| Machines.GetRegister | src/main.rs:170-180 | each register name reads its own field; `Machines.SameRegistersSameMachine` states that the seven reads and the two buffers are the whole state |
| Machines.SameRegistersSameMachine | src/main.rs:146-167 | two machines that agree on every register read and on both buffers are the same machine |
| Machines.SetRegister | src/main.rs:181-191 | the written register reads back the new value; every other register, RAM and the video buffer are unchanged |
| Machines.ReadWord | src/main.rs:265-270 | the word read is the one whose little-endian bytes are stored at the offset |
| Machines.WriteRamOrder | src/main.rs:286-290 | writing bytes 1, 0, 2, 3 in that order has the same effect as writing them in ascending order |
| Machines.Route | src/main.rs:256-258 | the address split shared by `LOD` and `SET` (also at src/main.rs:279-281): an address goes to the video buffer exactly when it is at least 0xFFFF0000, at offset `addr - 0xFFFF0000` (below 0x10000); a lower address is a RAM offset equal to the address |
| Machines.RouteThreshold | src/main.rs:279-281 | 0xFFFF0000 and 0xFFFF0001 are video offsets 0 and 1, and 0xFFFEFFFF is the last RAM address |
| Machines.Load | src/main.rs:253-274 | addresses from 0xFFFF0000 read the video buffer at the rebased offset and lower ones read RAM; the load succeeds exactly when four bytes fit there and returns the word they hold; otherwise it faults in that region at that offset |
| Machines.Store | src/main.rs:275-292 | the store routes like the load, succeeds exactly when four bytes fit, and then replaces exactly those four bytes with the value's little-endian bytes, leaving the other buffer and all registers alone; otherwise it faults at the routed offset |
| Machines.Exec | src/main.rs:194-296 | executes one instruction and reports whether it jumped; its behaviour is stated by the lemmas `Machines.ExecFaults` to `Machines.LoadAfterStore` below |
| Machines.ExecFaults | src/main.rs:194-296 | an instruction faults exactly when it is `LOD` with an immediate address whose word does not fit, or `SET` with an `F` address whose word does not fit |
| Machines.ExecTotal | src/main.rs:196-252 | every instruction other than `LOD` and `SET` executes without a fault |
| Machines.ExecFrame | src/main.rs:194-296 | no instruction resizes RAM or the video buffer; only `SET` writes memory; `SET` changes no register |
| Machines.ExecKeepsIp | src/main.rs:194-296 | only `JEQ` and `JLT` report a jump; an instruction that neither jumps nor writes `IP` as its first operand leaves `IP` unchanged |
| Machines.ExecDummy | src/main.rs:293 | `DUMMY` changes nothing and does not jump |
| Machines.ExecJeq | src/main.rs:203-208 | `JEQ` jumps exactly when its register equals `F`; the jump sets `IP` to the target and changes nothing else; otherwise nothing changes |
| Machines.ExecJlt | src/main.rs:209-214 | `JLT` jumps exactly when its register is below `F` as unsigned 32-bit numbers; the jump sets `IP` to the target and changes nothing else; otherwise nothing changes |
| Machines.ExecMovd | src/main.rs:197-199 | `MOVD` writes the immediate to its register and changes nothing else |
| Machines.ExecMovr | src/main.rs:200-202 | `MOVR` copies the source register into the target and changes nothing else |
| Machines.ExecAddd | src/main.rs:215-219 | `ADDD` replaces its register with the 32-bit wrapping sum with the immediate, nothing else changes |
| Machines.ExecAddr | src/main.rs:220-223 | `ADDR` replaces its register with the 32-bit wrapping sum with the second register, nothing else changes |
| Machines.ExecSubd | src/main.rs:224-227 | `SUBD` replaces its register with the 32-bit wrapping difference with the immediate, nothing else changes |
| Machines.ExecSubr | src/main.rs:228-231 | `SUBR` replaces its register with the 32-bit wrapping difference with the second register, nothing else changes |
| Machines.ExecAndd | src/main.rs:232-235 | `ANDD` masks its register with the immediate, nothing else changes |
| Machines.ExecAndr | src/main.rs:236-239 | `ANDR` masks its register with the second register, nothing else changes |
| Machines.ExecOrd | src/main.rs:240-243 | `ORD` ors the immediate into its register, nothing else changes |
| Machines.ExecOrr | src/main.rs:244-247 | `ORR` ors the second register into the first, nothing else changes |
| Machines.ExecNot | src/main.rs:248-251 | `NOT` replaces its register with its bitwise complement, nothing else changes |
| Machines.ArithmeticWraps | src/main.rs:215-227 | adding 1 to 0xFFFFFFFF gives 0, doubling it gives 0xFFFFFFFE, and 0 minus 1 gives 0xFFFFFFFF |
| Machines.ExecLoad | src/main.rs:253-274 | `LOD` succeeds exactly when the addressed word fits, faulting as the load does; on success it writes that word to its register and changes nothing else |
| Machines.ExecStore | src/main.rs:275-292 | `SET` stores its register's value at the address held in `F`, with the store's fault, and never jumps |
| Machines.StoreChangesOnlyWord | src/main.rs:275-292 | after a successful store the four addressed bytes are the value's little-endian bytes; every other byte of that buffer, the other buffer and all registers are unchanged |
| Machines.LoadAfterStore | src/main.rs:253-292 | after `SET` succeeds, `LOD` from the same address into any register succeeds and yields the stored value |
| Emulation.Boot | src/main.rs:333-348 | the boot state is not halted; every register but `IP` is 0; `IP` is 65535*4; RAM is 65535*4 zero bytes followed by the program; the video buffer is 0x2A00 zero bytes |
| Emulation.CodeEnd | src/main.rs:361 | the end address is 65535*4 plus the program length modulo 2^32, for every length, so the `proglen as u32` truncation is included; it is the plain sum when that fits in 32 bits and the sum minus 2^32 when it wraps once |
| Emulation.AtEnd | src/main.rs:361 | the halt test `IP >= proglen + 65535*4` on 32-bit values; `Emulation.AtEndPastProgram` states what it means |
| Emulation.Fetch | src/main.rs:366 | fetching at `IP` succeeds exactly when the instruction's opcode byte and operand bytes lie in RAM, and otherwise faults at `IP` |
| Emulation.Advance | src/main.rs:384-386 | `IP` grows by the instruction length modulo 2^32; nothing else changes |
| Emulation.Step | src/main.rs:360-387 | a halted emulator stays as it is; an emulator whose `IP` has reached the end of the program halts without executing anything; a successful step keeps the program length and is halted exactly when it was or the end was reached |
| Emulation.StepFaults | src/main.rs:366-370 | a running step faults exactly when decoding at `IP` faults or executing the decoded instruction faults |
| Emulation.StepNoJump | src/main.rs:366-386 | whenever the instruction executes without jumping, the step adds its length modulo 2^32 to the `IP` the instruction left, including an `IP` it wrote itself, and keeps every other register and both buffers as the instruction left them |
| Emulation.StepJumped | src/main.rs:370-386 | when the instruction jumps, the step keeps exactly the machine the instruction left and adds no length to `IP` |
| Emulation.StepAdvances | src/main.rs:366-386 | a step that neither jumps nor writes `IP` moves `IP` on by the decoded length modulo 2^32 and otherwise leaves the machine as the instruction did |
| Emulation.StepJeq | src/main.rs:203-208 | a step over `JEQ` sets `IP` to the target when the register equals `F` and to the address just after the instruction otherwise; nothing else changes |
| Emulation.StepJlt | src/main.rs:209-214 | a step over `JLT` sets `IP` to the target when the register is below `F` and to the address just after the instruction otherwise; nothing else changes |
| Emulation.StepMoveIntoIp | src/main.rs:197-199 | `MOVD IP, v` leaves `IP` at `v + 5`, because the loop adds the length after the write |
| Emulation.StepDummySpins | src/main.rs:141 | a step over an unknown opcode changes nothing, because `DUMMY` has length 0 |
| Emulation.RunDummySpins | src/main.rs:358-387 | from a state at an unknown opcode, any number of steps leaves the state unchanged, so the emulator never halts |
| Emulation.Run | src/main.rs:358-387 | any number of passes of the loop: a halted emulator stays as it is, the program length never changes, and a run that starts at the end of the program halts |
| Emulation.StepKeepsLayout | src/main.rs:358-387 | a step never resizes RAM or the video buffer |
| Emulation.BootFetch | src/main.rs:336-347 | the first instruction fetched after boot is the program decoded from its first byte, with a fault exactly when that decode faults |
| Emulation.BootMoveThenHalt | src/main.rs:335-387 | the program `MOVD A, 5` leaves `A` at 5 and `IP` just past the program, and the following step halts |
| Emulation.BootUnknownOpcodeSpins | src/main.rs:141 | a program made of the single byte 0xF8 never gets past its first step |
| Emulation.BootTruncatedFaults | src/main.rs:47-55 | a `MOVD` cut short after two bytes faults reading RAM at the program's first address |
| Emulation.AtEndPastProgram | src/main.rs:361 | while 65535*4 plus the program length fits in 32 bits, the halt test holds exactly when `IP` is at or past the end of the program |

## Left out

- Rendering is not modelled: the raylib window (src/main.rs:350-354 and 388 on) and the colour helpers `fourbit_color` and `colors_from_byte` (src/main.rs:299-322). They only read the video buffer.
- Command-line handling and reading the program file (src/main.rs:323-334) are not modelled. `Boot` takes the program bytes as its parameter.
- The debug prints (src/main.rs:367-369 and 371-383) are not modelled. The second one runs after `exec_instruction` but before `IP` is advanced, and indexes `memory[reg_ip]` at the `IP` the instruction left, which panics when a jump or a write to `IP` has left RAM. Only a debug run does this.
- The main loop runs forever and redraws while halted. The model gives one loop iteration as `Step` and a fuel-bounded `Run`.
- Arithmetic overflow is modelled as a release build performs it, wrapping modulo 2^32. A debug build panics on overflow in `ADDD`, `ADDR`, `SUBD`, `SUBR` and `IP += len`, and also in `proglen + 65535*4` in the halt test.
- Instructions.Decode: it dispatches on the numeric opcode rather than on the opcode string. The two agree by `MachineCode.OpcodeMatches`.
- Instructions.Decode: a truncated instruction reports the fault at the instruction's first byte, not at the first missing byte that `main.rs` indexes. The same holds for `Machines.Load` and `Machines.Store`, which report the word's first offset.
- Instructions.EncodeDecode: it requires the first byte's register field to be other than 111, and for two-register instructions the whole second byte to be below 7. `get_register` reads only the low three bits (src/machinecode.rs:32-34), so pattern 111 decodes as `A` and any bits above the low three are dropped; such bytes cannot be re-encoded to themselves.
- Machines.ExecNot: it states the complement bit by bit only. It does not state the arithmetic identity `x + !x == 0xFFFFFFFF`.
- Only one instruction encoding exists in the Rust code: a 5-bit opcode over a 3-bit register (src/machinecode.rs:6, src/main.rs:46-141). The comment at src/machinecode.rs:8-9 says a second register sits in the low four bits and an immediate in two bytes; the code reads the low three bits and four bytes, and the model follows the code.
- A truncated operand makes `from_bytes` index past the buffer and panic (src/main.rs:48-53). The model returns this as an `Err` (`Emulation.BootTruncatedFaults`).
- Opcodes 11 and 12, and 17 to 31, decode as `DUMMY` with length 0 (src/main.rs:141). The loop adds that length to `IP` (src/main.rs:384-386), so it spins at that address forever (`Emulation.RunDummySpins`).
