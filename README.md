# c64: a verified model of the assembler and the emulator

The repository has two programs that share one binary instruction format:

- an **assembler** (`src/bin/assembler.rs`). It reads a text program line
  by line. Each mnemonic becomes opcode bytes (opcodes 1 to 23), with:
  - operand widths given by a type tag (`byte`/`dbyte`/`qbyte`/`obyte` = tag 0..3 = 1/2/4/8 bytes, big-endian);
  - two registers packed as nibbles in one byte;
  - 8-byte big-endian absolute addresses.

  Pass 2 keeps a running byte offset, a table of declared labels
  (`:name` maps to the offset) and a table of pending references (label
  name maps to the offset of its 8-byte placeholder). Pass 3
  overwrites every placeholder with the declared address.
- an **emulator** (`src/emulator.rs`). It has sixteen `u64` registers
  (14 is the program counter, 15 the stack pointer) and 320,000 bytes of
  RAM. It has big-endian memory helpers, operand readers that advance the
  program counter, and a little-endian stack that grows downward. Its
  fetch-decode-execute loop stops after the first instruction that leaves
  the program counter above 50.

The Dafny modules follow that split:

| module | file | contents |
|---|---|---|
| `Wrappers` | wrappers.dfy | `Option`, `Result` |
| `Encoding` | encoding.dfy | bytes, `u64`, opcodes, type-tag widths, big- and little-endian codecs with their round trips |
| `Assembler` | assembler.dfy | register/type lookup, literal parsing, every `*_instruction` encoder as a pure function returning `(bytes, count)`, and the effect of one source line on the pass-2 state |
| `AssemblerDriver` | assemble.dfy | the pass-2 loop and the pass-3 backpatch loop as methods, proved against the functions of `Assembler` |
| `Semantics` | semantics.dfy | one emulator cycle as a function over a machine value, `run` as a loop over any cycle function, and `Emulator::new` as `Load` |
| `Emulator` | emulator.dfy | the `Emulator` struct as a class over two arrays. Its methods (`read_*`, `write_*`, `read_next_*`, `push`, `pop`, each opcode arm, `run`) are proved to compute what `Semantics` says |
| `StepFacts` | step_facts.dfy | per-opcode step lemmas: what each instruction does to registers and memory, and each fault |
| `RoundTrip` | roundtrip.dfy | assembler output executed by the emulator: every encoder's bytes make one step do what the mnemonic names |
| `Scenarios` | scenarios.dfy | whole programs assembled, loaded and run to the halt |
| `Corrected` | corrected.dfy | the three counting and reference defects below, shown on the code as written, and a corrected pass 2 and pass 3 with their correctness proved |

Arithmetic follows a debug build. A `+`, `-` or `*` on `u64` that would
overflow is a fault (`Overflow`), and so is a stack pointer that would leave
`0..u64::MAX`. Every `unwrap()`, `expect` or `unreachable!()` that the source
can reach is modelled as an `Err` naming the cause, never as a
precondition.

## Model

| member | source | states |
|---|---|---|
| Assembler.RegisterIndex | src/bin/assembler.rs:157-180 | `a`..`n` map to 0..13, `pc` to 14 and `sp` to 15. Any other token gives None. Every index is below 16, so it fits a nibble |
| Assembler.TypeIndex | src/bin/assembler.rs:182-190 | `byte`/`dbyte`/`qbyte`/`obyte` map to 0..3. Anything else gives None |
| Encoding.TagWidth | src/emulator.rs:177-189 | a type tag has a width exactly when it is 0..3, and the width is 2^tag bytes |
| Assembler.ParseDecimal | src/bin/assembler.rs:216 | a decimal numeral parses to its value exactly when the value is below the operand's limit (`str::parse::<uN>`) |
| Assembler.DecimalValue | src/bin/assembler.rs:216 | the digits of `Decimal(n)` read back as `n` |
| Assembler.ParseBool | src/bin/assembler.rs:481-482 | `true` and `false` are the only accepted conditions, in both directions |
| Assembler.Condition | src/bin/assembler.rs:481-482 | a condition encodes as 1 for `true` and 0 for `false`. Anything else is a `BadCondition` error |
| Assembler.Register | src/bin/assembler.rs:196-198 | a register operand is accepted exactly when `RegisterIndex` knows it, and then gives that register's index. Otherwise it is an `UnknownRegister` error naming the token |
| Assembler.TypeTag | src/bin/assembler.rs:303 | a type operand is accepted exactly when `TypeIndex` knows it, and then gives that type's tag. Otherwise it is an `UnknownType` error |
| Assembler.Literal | src/bin/assembler.rs:236-240 | a numeric operand is accepted exactly when it parses below the width's limit, and then gives the parsed value, which is below that limit. Otherwise it is a `BadNumber` error |
| Assembler.ByteLiteral | src/bin/assembler.rs:214-234 | a `move byte` operand that parses as a `u8` encodes as that value. Any other token encodes as its first character's code truncated to 8 bits |
| Assembler.Pack | src/bin/assembler.rs:200-201 | two register indices share one byte: the first is the high nibble and the second the low nibble |
| Assembler.MoveInstruction | src/bin/assembler.rs:192-291 | a register to register move writes 2 bytes with opcode 1 and reports 3. Every other move writes opcode 2 and reports exactly the bytes it wrote. Opcode 1 is chosen exactly when the first operand is a register |
| RoundTrip.MoveByteEncoding | src/bin/assembler.rs:214-234 | `move byte r lit` is exactly `[2, 0, r, lit]` with count 4 |
| RoundTrip.MoveDbyteEncoding | src/bin/assembler.rs:236-250 | `move dbyte r lit` is exactly `[2, 1, r]` followed by lit in 2 big-endian bytes, with count 5 |
| RoundTrip.MoveQbyteEncoding | src/bin/assembler.rs:251-267 | `move qbyte r lit` is `[2, 2, r]` followed by 4 big-endian bytes, with count 7 |
| RoundTrip.MoveObyteEncoding | src/bin/assembler.rs:268-288 | `move obyte r lit` is `[2, 3, r]` followed by 8 big-endian bytes, with count 11 |
| RoundTrip.MoveWordEncoding | src/bin/assembler.rs:236-288 | the three wide moves share one shape: `[2, tag, r]` followed by the literal at the tag's width, with count 3 + width |
| Assembler.ReadInstruction | src/bin/assembler.rs:293-334 | a register address gives opcode 4 in 3 bytes. A numeric address gives opcode 3 in 11 bytes. The count equals the bytes written |
| Assembler.WriteInstruction | src/bin/assembler.rs:336-375 | the same, with opcodes 6 and 5 |
| RoundTrip.AbsoluteEncoding | src/bin/assembler.rs:312-333 | `read`/`write` with a numeric address is exactly `[op, tag, r]` followed by the 8-byte big-endian address, with count 11 |
| Assembler.PushInstruction | src/bin/assembler.rs:377-453 | `push <type> <reg>` is opcode 7 in 3 bytes. `push <type> <lit>` is opcode 8 in 2 + width bytes. The count equals the bytes written |
| RoundTrip.PushLiteralEncoding | src/bin/assembler.rs:392-450 | `push <type> <lit>` with a non-register operand is exactly `[8, tag]` followed by the literal big-endian at the tag's width |
| Assembler.PopInstruction | src/bin/assembler.rs:455-467 | `pop` succeeds exactly when it has a type and a register. It then writes exactly `[9, tag, r]`, with the tag and register indices of its operands, and reports 3 |
| Assembler.JumpInstruction | src/bin/assembler.rs:469-571 | a numeric target writes 9 bytes and advances 9, or writes 10 bytes but advances 19 with a condition. A register target writes as many bytes as it advances. A reference is recorded exactly when the token is neither a numeral nor a register name: the instruction then ends in a zero 8-byte placeholder, and the raw token is recorded with that placeholder's offset |
| RoundTrip.JumpAddressIfEncoding | src/bin/assembler.rs:477-512 | `jump <addr> <cond>` is exactly `[12, cond]` followed by the 8-byte address, and it advances 19 |
| Assembler.AluInstruction | src/bin/assembler.rs:574-652 | each of `add`..`xor` is the single byte 14..23 with count 1. Every other mnemonic gives None |
| Assembler.DataDirective | src/bin/assembler.rs:87-135 | a `byte`/`dbyte`/`qbyte`/`obyte` directive writes its value big-endian at width 1/2/4/8 and advances by exactly that width |
| Assembler.AssembleLine | src/bin/assembler.rs:34-141 | one line only appends to the output and moves the offset forward. The offset grows by the bytes written plus the line's miscount (1 for a register move, 9 for a numeric conditional jump). A `:name` line only sets `found[name]` to the current offset and emits nothing. A `jump` line inserts or replaces `mentioned[token]` with its placeholder offset when it has a label target, and no other line changes the pending references. Only a `:name` line changes the declared labels |
| Assembler.AssembleLineConsistent | src/bin/assembler.rs:34-141 | each line keeps pass 2 consistent: the output is no longer than the offset, every placeholder ends at or below the offset, the placeholders are pairwise disjoint, and every label lies at or below the offset |
| Assembler.AssembleLinesConsistent | src/bin/assembler.rs:34-143 | the whole of pass 2 keeps that invariant and only appends to the output |
| Assembler.AssembleLinesSlack | src/bin/assembler.rs:38-141 | after pass 2 the offset exceeds the output length by exactly the sum of the per-line miscounts |
| Assembler.OffsetMatchesOutput | src/bin/assembler.rs:34-141 | in a program with no register move and no numeric conditional jump, the final offset equals the output length |
| AssemblerDriver.AssembleLineInPlace | src/bin/assembler.rs:38-141 | the dispatch over the first token, updating output, offset and both tables in place, computes exactly one step of pass 2 |
| AssemblerDriver.AssembleLinesInPlace | src/bin/assembler.rs:28-143 | the `for line` loop computes the same state as the pass-2 fold, including the first error |
| AssemblerDriver.Overwrite | src/bin/assembler.rs:150-153 | `seek_write` puts the 8 bytes exactly at the offset, leaves every other byte alone and zero-fills any gap past the end |
| AssemblerDriver.Backpatch | src/bin/assembler.rs:145-154 | pass 3 fails exactly when some pending label was never declared, and the error names that label. Otherwise every placeholder holds its label's address big-endian and every other byte is as before, whatever order the map yields |
| AssemblerDriver.PatchStep | src/bin/assembler.rs:145-154 | patching one more pending label keeps every placeholder patched so far, because the placeholders are disjoint |
| AssemblerDriver.Assemble | src/bin/assembler.rs:28-154 | the whole assembler succeeds exactly when pass 2 succeeds and every pending label is declared. Its output is the backpatched pass-2 output. A failure after pass 2 names a label that pass 2 left pending and never declared |
| Encoding.BigEndianRoundTrip | src/emulator.rs:36-63 | decoding the w big-endian bytes of v gives v mod 256^w |
| Encoding.FromBigEndianRoundTrip | src/emulator.rs:104-131 | encoding a decoded byte string at its own length gives it back |
| Encoding.LittleEndianRoundTrip | src/emulator.rs:138-160 | decoding the w little-endian bytes of v gives v mod 256^w |
| Encoding.FromLittleEndianRoundTrip | src/emulator.rs:150-160 | encoding a decoded little-endian byte string gives it back |
| Encoding.FromLittleEndianZeroPadded | src/emulator.rs:150-158 | zero bytes above the popped width change nothing (the zero-extension of `pop`) |
| Encoding.LittleEndianReversesBigEndian | src/emulator.rs:138-148 | byte i of the little-endian form is byte w-1-i of the big-endian form |
| Semantics.Load | src/emulator.rs:16-30 | `new(bin)` copies the image to address 0 and zeroes the rest of RAM. SP is RAM_SIZE - 1 and every other register is 0. An image longer than RAM is a fault |
| Emulator.Emulator.New | src/emulator.rs:16-30 | the constructor builds fresh arrays holding exactly the state `Load` describes, or fails exactly when `Load` does |
| Semantics.Fetch | src/emulator.rs:65-98 | an operand read succeeds exactly when it fits in RAM from PC |
| Semantics.FetchReads | src/emulator.rs:65-98 | `read_next_*` returns the big-endian value at PC, advances PC by exactly the width, and changes nothing else |
| Emulator.Emulator.ReadNext | src/emulator.rs:65-98 | the in-place operand reader does what `Fetch` says, including its fault |
| Semantics.ReadMem | src/emulator.rs:32-63 | a memory read succeeds exactly when all w bytes lie in RAM |
| Semantics.ReadMemReads | src/emulator.rs:32-63 | `read_*` is the big-endian value of the w bytes at the address |
| Emulator.Emulator.Read | src/emulator.rs:32-63 | the array read computes `ReadMem` |
| Emulator.Emulator.Gather | src/emulator.rs:36-63 | indexing `ram[addr]`, `ram[addr + 1]`, … in order and combining them big-endian, as `from_be_bytes` does, decodes exactly the w bytes at the address, and faults at the first index past RAM |
| Semantics.WriteMem | src/emulator.rs:100-131 | a memory write succeeds exactly when all w bytes lie in RAM, and keeps the RAM size |
| Semantics.WriteMemWrites | src/emulator.rs:100-131 | `write_*` stores the value big-endian in exactly those w bytes and changes no other byte |
| Emulator.Emulator.Write | src/emulator.rs:100-131 | the array write computes `WriteMem` |
| Semantics.WriteThenRead | src/emulator.rs:32-131 | reading back what was written at the same width and address gives the value mod 256^w |
| Semantics.WriteThenReadElsewhere | src/emulator.rs:32-131 | a write leaves every read of a disjoint window unchanged |
| Semantics.PushStack | src/emulator.rs:138-148 | `push` faults exactly when SP is below the width (underflow) or SP is past RAM |
| Semantics.PushStackWrites | src/emulator.rs:138-148 | `push(v, w)` stores the low w bytes of v little-endian at `sp-w+1..sp`, lowers SP by w, and changes no other register or byte |
| Emulator.Emulator.Push | src/emulator.rs:138-148 | the in-place push computes `PushStack` |
| Emulator.Emulator.Store | src/emulator.rs:141-145 | the byte loop of `push` writes exactly the w bytes at the offset |
| Semantics.PopStack | src/emulator.rs:150-160 | `pop` faults exactly when the window above SP leaves RAM. Its fault is overflow when SP is `u64::MAX` |
| Semantics.PopStackReads | src/emulator.rs:150-160 | `pop(w)` returns the zero-extended little-endian value at `sp+1..sp+w` and raises SP by w |
| Emulator.Emulator.Pop | src/emulator.rs:150-160 | the in-place pop computes `PopStack` |
| Emulator.Emulator.ReadAbove | src/emulator.rs:151-157 | the byte loop of `pop` fills the low w bytes of an 8-byte buffer from above SP and leaves the rest zero |
| Semantics.PushThenPop | src/emulator.rs:138-160 | a pop right after a push at width w returns v mod 256^w and restores every register, and RAM outside the pushed window is unchanged |
| StepFacts.StepNop | src/emulator.rs:167 | opcode 0, and every code above 23 (the `_` arm at line 415), only advance PC by 1 |
| StepFacts.StepMoveRegister | src/emulator.rs:169-175 | opcode 1 copies the low-nibble register into the high-nibble register, with PC 2 bytes on, and changes nothing else |
| RoundTrip.MoveRegisterRoundTrip | src/bin/assembler.rs:195-207 | executing an assembled register move copies the source register into the destination. It also states the encoder's 2-bytes-but-counted-3 |
| StepFacts.StepMoveLiteral | src/emulator.rs:177-189 | opcode 2 loads the zero-extended literal and leaves PC just past the 3 + width byte instruction |
| RoundTrip.MoveLiteralRoundTrip | src/emulator.rs:177-189 | executing an assembled `move <type> r lit` sets r to that literal, and PC ends exactly past the bytes the encoder wrote |
| StepFacts.StepBadTypeTag | src/emulator.rs:177-203 | a type tag above 3 in opcode 2 or 3 is a fault |
| StepFacts.StepReadAbsolute | src/emulator.rs:191-203 | opcode 3 loads the big-endian value at the absolute address, with PC 11 bytes on |
| RoundTrip.ReadAbsoluteRoundTrip | src/bin/assembler.rs:312-333 | executing an assembled `read` with a numeric address loads exactly the bytes at that address |
| StepFacts.StepReadIndirect | src/emulator.rs:205-226 | opcode 4 loads from the address held in the low-nibble register |
| RoundTrip.ReadIndirectRoundTrip | src/bin/assembler.rs:299-311 | executing an assembled `read` through a register loads the bytes at that register's address |
| StepFacts.StepWriteAbsolute | src/emulator.rs:228-248 | opcode 5 stores the register big-endian in exactly the w bytes at the address. The registers are changed only by PC advancing |
| RoundTrip.WriteAbsoluteRoundTrip | src/bin/assembler.rs:355-374 | executing an assembled `write` with a numeric address stores the register there and nowhere else |
| StepFacts.StepWriteIndirect | src/emulator.rs:250-271 | opcode 6 stores the high-nibble register at the address held in the low-nibble register, and only there |
| RoundTrip.WriteIndirectRoundTrip | src/bin/assembler.rs:344-354 | executing an assembled `write` through a register stores at that register's address |
| StepFacts.StepIgnoredTag | src/emulator.rs:205-341 | opcodes 4 to 9 with a tag above 3 consume their operand bytes and change nothing else |
| StepFacts.StepPushRegister | src/emulator.rs:273-292 | opcode 7 pushes the register at the tag's width |
| RoundTrip.PushRegisterRoundTrip | src/bin/assembler.rs:377-391 | executing an assembled `push <type> <reg>` pushes that register |
| StepFacts.StepPushLiteral | src/emulator.rs:294-316 | opcode 8 pushes the literal that follows the tag |
| RoundTrip.PushLiteralRoundTrip | src/bin/assembler.rs:392-450 | executing an assembled `push <type> <lit>` pushes the literal, and the literal fits in `u64` |
| StepFacts.StepPop | src/emulator.rs:318-341 | opcode 9 pops at the tag's width into the register, or faults as `pop` does |
| RoundTrip.PopRoundTrip | src/bin/assembler.rs:455-467 | executing an assembled `pop` pops into the named register |
| StepFacts.StepJump | src/emulator.rs:343-347 | opcode 10 always sets PC to the address |
| RoundTrip.JumpAddressRoundTrip | src/bin/assembler.rs:498-512 | executing an assembled `jump <addr>` sets PC to the address |
| StepFacts.StepJumpRegister | src/emulator.rs:349-353 | opcode 11 always sets PC to the register's value |
| RoundTrip.JumpRegisterRoundTrip | src/bin/assembler.rs:525-532 | executing an assembled `jump <reg>` sets PC to that register |
| StepFacts.StepJumpIf | src/emulator.rs:355-363 | opcode 12 sets PC to the address when the condition byte equals register 2. Otherwise PC ends past the 10-byte instruction |
| RoundTrip.JumpAddressIfRoundTrip | src/bin/assembler.rs:477-497 | executing an assembled `jump <addr> <cond>` branches on register 2. The encoder writes 10 bytes but advances 19 |
| StepFacts.StepJumpRegisterIf | src/emulator.rs:365-373 | opcode 13 sets PC to the register when the condition byte equals register 2. Otherwise PC ends past the 3-byte instruction |
| RoundTrip.JumpRegisterIfRoundTrip | src/bin/assembler.rs:514-524 | executing an assembled `jump <reg> <cond>` branches on register 2 |
| RoundTrip.JumpLabelRoundTrip | src/bin/assembler.rs:554-570 | once its placeholder holds an address, an assembled `jump <label>` jumps there |
| RoundTrip.JumpLabelIfRoundTrip | src/bin/assembler.rs:534-553 | the same for `jump <label> <cond>`, which branches on register 2 |
| RoundTrip.AluRoundTrip | src/bin/assembler.rs:574-652 | executing an assembled ALU mnemonic runs the operation its name says |
| StepFacts.StepAluFrame | src/emulator.rs:374-414 | the ALU opcodes write only register 2 (and register 3 for `div`), with PC 1 on, and leave RAM unchanged |
| StepFacts.StepArithmetic | src/emulator.rs:375-385 | `add`/`sub`/`mul` leave the exact result in register 2, and fault exactly when it leaves `u64` |
| StepFacts.StepDivide | src/emulator.rs:386-390 | `div` faults exactly when register 1 is 0. Otherwise register 2 holds the quotient and register 3 the remainder, with the remainder below the divisor |
| StepFacts.StepCompare | src/emulator.rs:392-398 | `equal`/`less` put 1 in register 2 exactly when the comparison holds, and 0 otherwise |
| StepFacts.StepNot | src/emulator.rs:399-402 | `not` never faults and leaves `u64::MAX - r0`, the bitwise complement of register 0, in register 2 |
| Semantics.LoopSplit | src/emulator.rs:162-424 | a run given `fuel` cycles is the run given `n` of them followed, from the machine where those ran out, by a run given the remaining `fuel - n` |
| StepFacts.RunHalts | src/emulator.rs:420-422 | whenever `run` halts, PC is above 50 |
| StepFacts.HaltedMoreFuel | src/emulator.rs:162-424 | a run that halts within some number of cycles halts in the same state with any larger budget |
| StepFacts.FaultMoreFuel | src/emulator.rs:162-424 | a run that faults within some number of cycles faults with the same fault under any larger budget |
| StepFacts.ZeroSlide | src/emulator.rs:420-422 | from any PC at or below 50 over zero bytes, `run` slides to PC 51 and halts with nothing else changed |
| Emulator.Emulator.Execute | src/emulator.rs:166-416 | the in-place opcode dispatch computes `Semantics.Execute` |
| Emulator.Emulator.Step | src/emulator.rs:164-416 | one cycle of the loop computes `Semantics.Step` |
| Emulator.Emulator.Run | src/emulator.rs:162-424 | the loop computes `Semantics.Run` for the given fuel: the same stop reason, final state and fault |
| Scenarios.AddProgram | src/bin/assembler.rs:28-154 | the three-line add program assembles to exactly `[2,0,0,5, 2,0,1,3, 14]` |
| Scenarios.AddRuns | src/emulator.rs:162-424 | loaded and run, the add program halts with 5, 3 and 8 in registers a, b and c |
| Scenarios.JumpProgram | src/bin/assembler.rs:28-154 | a forward jump over a gap to a declared label assembles to exactly the expected 18 bytes, with the placeholder patched to 13 |
| Scenarios.JumpRuns | src/emulator.rs:162-424 | that program jumps over the gap and halts with b = 2 and c = 2 |
| Scenarios.ColonTargetUndeclared | src/bin/assembler.rs:136-140 | an example of the colon mismatch: in `jump :end` followed by `:end`, the declaration strips the colon and declares `end` while the jump records `:end` (line 567), so this program does not assemble |
| Scenarios.EmptyRuns | src/emulator.rs:16-30 | an empty image slides over zeros and halts at PC 51 |
| Corrected.MoveRegisterMiscount | src/bin/assembler.rs:195-207 | as written, a label after a register move is recorded one byte past the move's end |
| Corrected.JumpIfMiscount | src/bin/assembler.rs:477-512 | as written, a label after a numeric conditional jump is recorded at 19, not 10 |
| Corrected.CollapsedReference | src/bin/assembler.rs:533-571 | as written, two jumps to one label leave the first placeholder zero |
| Corrected.FixedLine | src/bin/assembler.rs:34-141 | the corrected line step only appends and advances the offset by exactly the bytes it wrote |
| Corrected.FixedLinesConsistent | src/bin/assembler.rs:34-143 | the corrected pass 2 keeps offset equal to the output length, with ordered, zeroed, in-bounds patch sites |
| Corrected.FixedPatch | src/bin/assembler.rs:145-154 | the corrected pass 3 fails exactly when some site's label is undeclared, and names that label |
| Corrected.FixedPatchCorrect | src/bin/assembler.rs:145-154 | the corrected pass 3 writes every site's address and leaves every other byte alone |
| Corrected.FixedAssembleCorrect | src/bin/assembler.rs:28-154 | in the corrected assembler every reference site holds its label's address and every label is an offset in the output |
| Corrected.MoveThenLabelFixed | src/bin/assembler.rs:195-207 | corrected, the label after a register move is at 2 |
| Corrected.JumpIfThenLabelFixed | src/bin/assembler.rs:477-512 | corrected, the label after a numeric conditional jump is at 10 |
| Corrected.TwoJumpsBothPatched | src/bin/assembler.rs:533-571 | corrected, both jumps to one label are patched |

## Left out

- Pass 1, comment stripping (src/bin/assembler.rs:12-26), and `split_whitespace`: the model's input is the list of lines, each already split into tokens.
- The assembler's `main` argument and file handling, `std::fs` I/O and `write_all`/`seek_write` plumbing: the output is a byte sequence. A write past the end zero-fills the gap, as a file write would.
- `src/main.rs` is not part of this model.
- The `println!` debug trace in the run loop (src/emulator.rs:418): it prints and changes no state.
- Panics are modelled as `Err`: `unwrap`, `expect`, `unreachable!()`, an index out of range, and a debug-build overflow. The model then stops with that error. Output the source would already have written before the panic is not modelled.
- `HashMap` iteration order in pass 3: `Backpatch` picks the pending labels in an arbitrary order (`:|`). Its contract holds for every order, because pass 2 keeps the placeholders disjoint.
- Release-build wrap-around: the model follows a debug build, so `u64` overflow in the ALU and in the stack pointer faults.
- `usize` is taken as 64 bits: `address as usize` is the identity and `usize::to_be_bytes` gives 8 bytes.
- `str::parse::<uN>` is modelled as "an optional leading `+` followed by a non-empty string of ASCII digits whose value is below 2^width", as `from_str_radix` accepts. Other radixes and overflow error kinds are not distinguished: every failure is one `None`.
- Emulator.Emulator.Run: the source loops until PC passes 50, with no bound. The model takes a fuel bound and reports `OutOfFuel` when it runs out. A run that halts or faults within the bound ends the same way with any larger bound (StepFacts.HaltedMoreFuel, StepFacts.FaultMoreFuel); a program that never passes PC 50 is only seen as `OutOfFuel`.
- Semantics.BitNot: `!x` on `u64` is defined as `u64::MAX - x`, which is the same word as flipping all 64 bits. `and`, `or` and `xor` are defined through Dafny's `bv64` operators.
- Semantics.Execute checks the ALU range 14..23 before the other opcodes. The arms are disjoint, so this is the same dispatch as the source's `match`.
- The assembler records a `jump` target as its raw token, colon included, while a declaration strips the colon (src/bin/assembler.rs:137-138, 551, 567). The model follows the code, so `jump :x` never resolves against `:x` (Scenarios.ColonTargetUndeclared). A reference resolves only when the jump's token equals a declaration's token with its leading colon removed, so `jump name` resolves against `:name`.

## Findings

| source | as written | input that shows it | evidently intended | confidence | as-written member | corrected member |
|---|---|---|---|---|---|---|
| src/bin/assembler.rs:195-207 | a register to register `move` writes 2 bytes but returns 3, and line 40 adds 3 to the offset | `move a b` then `:x`: `x` is recorded at 3 while the output is 2 bytes | return 2, the bytes written | not executed | Corrected.MoveRegisterMiscount | Corrected.MoveThenLabelFixed |
| src/bin/assembler.rs:477-512 | `jump <addr> <cond>` adds 10 and then 9 to the offset for 10 bytes written | `jump 0 true` then `:x`: `x` is recorded at 19 while the output is 10 bytes | advance 10 | not executed | Corrected.JumpIfMiscount | Corrected.JumpIfThenLabelFixed |
| src/bin/assembler.rs:533-571 | pending references are a `HashMap` keyed by label name, so a second `jump` to the same label replaces the first site | `jump x`, `jump x`, `:x`: bytes 1..9 stay zero and only bytes 10..18 hold 18 | every reference site patched | not executed | Corrected.CollapsedReference | Corrected.TwoJumpsBothPatched |
