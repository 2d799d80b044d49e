# Nyx toolchain and VM, modelled in Dafny

Nyx is an assembly language with a register-based virtual machine. Its Rust
toolchain takes source text through five stages:

- a character-level **lexer** with a case-insensitive keyword table;
- a precedence-climbing **parser** producing statements and expressions;
- a **preprocessor** that collects `#define`s, splices in `#include`d files,
  evaluates `#ifdef`/`#ifndef`/`#else`/`#endif` and substitutes definitions
  with constant folding;
- a two-section **assembler** (`Compiler`, `Bytecode`) that emits instruction
  encodings, records labels and patches label fixups, and lays out
  `entry ++ text ++ data`;
- the **VM**: a register file of 99 named views over 51 physical cells, a
  bounds-checked little-endian memory, a downward-growing stack, compare
  flags, and a fetch/decode/execute loop.

This project models each stage in the source's own form.

- Pure code becomes datatypes and functions: immediates, register tables,
  the ALU, decoding, the parser's grammar, substitution and the
  preprocessor passes.
- Code that updates state in place becomes a class: `Vm.VM`,
  `Bytecode.Bytecode`, `Compiler.Compiler`, `Lexing.Lexer`,
  `ParserState.Parser` and `Preprocessing.Preprocessor`. Each method is
  proved equal to the function that specifies it.
- Lemmas prove the properties the code and its tests promise. They include:
  - round trips: register and size codes, little-endian encoding, and
    instruction encoding against decoding;
  - push/pop restoring the stack;
  - sub-register write semantics;
  - label resolution and output layout;
  - precedence and associativity;
  - the conditional-compilation stack machine and its errors;
  - idempotent substitution;
  - lexer classification and string escapes.

Module map (file: module):

- `wrappers.dfy`: `Wrappers` (Option, Result).
- `span.dfy`: `Spans`.
- `bits.dfy`: `Bits`.
- `immediates.dfy`: `Immediates`.
- `registers.dfy`: `Registers`.
- `memory.dfy`: `Mem`.
- `opcodes.dfy`: `Opcodes`.
- `alu.dfy`: `Alu`.
- `vm_error.dfy`: `VmErrors`.
- `machine.dfy`: `Machine`, the VM as functions on a state.
- `encoding.dfy`: `Encoding`, instruction encodings against the decoder.
- `vm.dfy`: `Vm`, the `VM` class.
- `vm_properties.dfy`: `VmProperties`.
- `bytecode.dfy`: `Bytecode`.
- `lowering.dfy`: `Lowering`, the `compile_*` routines.
- `compiler.dfy`: `Compiler`.
- `keywords.dfy` and `token.dfy`: `Keywords` and `Tokens`.
- `lexer.dfy`: `Lexing`.
- `lexer_properties.dfy`: `LexerProperties`.
- `ast.dfy`: `Ast`.
- `parser.dfy`: `Parsing`, the grammar as functions over the token sequence.
- `parser_state.dfy`: `ParserState`, the `Parser` class.
- `parser_properties.dfy`: `ParserProperties`.
- `substitution.dfy`: `Substitution`.
- `conditionals.dfy`: `Conditionals`.
- `preprocessor.dfy`: `Preprocessing`.
- `preprocessor_properties.dfy`: `PreprocessorProperties`.

Three behaviours of the code shape the machine model:

- **Memory faults.** Every memory access outside the buffer, a fetch
  included, fails with `InstructionPointerOutOfBounds(addr)`. There is no
  reader of NUL-terminated strings and no fault of its own for one.
- **Syscalls.** `syscall` dispatches on the index held in `q15`, and an
  unknown index fails with `UnknownSyscall`.
- **Register writes.** Byte and word writes merge into the low bits of the
  64-bit cell and keep its other bits; a dword write zero-extends.

## Model

| member | source | states |
|---|---|---|
| Spans.NewSpan | src/span.rs:10-12 | the span has exactly the given start and end |
| Spans.FromPair | src/span.rs:15-19 | the pair's first component is the start and the second the end, as `Span::new` builds it |
| Spans.ToSourceSpan | src/span.rs:21-25 | the offset is the start and offset plus length is the end, for a span whose end is not before its start |
| Spans.SourceSpanRoundTrip | src/span.rs:15-25 | the span is recovered from its (offset, length) pair |
| Immediates.SizeInBytes | src/parser/immediate.rs:16-25 | every width is 1, 2, 4 or 8 bytes, and an integer width is the byte count of its Rust type's range |
| Immediates.Pow256Width | src/parser/immediate.rs:16-25 | 256 to the power of the byte count is the number of values of the width's unsigned type |
| Immediates.SizeCode | src/parser/immediate.rs:104-108 | the size's code byte is at most 5 |
| Immediates.SizeFromCode | src/parser/immediate.rs:88-102 | a byte decodes to a size exactly when it is at most 5, and then to the size with that code |
| Immediates.SizeCodeRoundTrip | src/parser/immediate.rs:88-108 | decoding a size's code gives the size back |
| Immediates.Lower | src/parser/immediate.rs:72-86 | lower-casing keeps the length and lower-cases each character |
| Immediates.SizeFromNameSpec | src/parser/immediate.rs:72-86 | a name is accepted as a size exactly when its lower-case form is that size's name |
| Immediates.SizeFromNameRejects | src/parser/immediate.rs:72-86 | a name is rejected exactly when its lower-case form names no size |
| Immediates.LowerIdempotent | src/parser/immediate.rs:72-86 | lower-casing twice is lower-casing once, so the lookup ignores letter case |
| Immediates.ImmSize | src/parser/immediate.rs:198-207 | the size is an integer width exactly for an integer immediate, and an integer immediate's value fits in that many bytes |
| Immediates.OfSize | src/parser/immediate.rs:110-118 | the immediate built at a width carries that width |
| Immediates.Pattern | src/parser/immediate.rs:110-118 | an immediate's stored bit pattern fits its width and rebuilds the same immediate |
| Immediates.AsUnsigned | src/parser/immediate.rs:121-196 | an integer cast succeeds exactly on an integer immediate and truncates its value to the target's bytes |
| Immediates.AsU8 | src/parser/immediate.rs:121-130 | an integer immediate casts to its value modulo 2^8 |
| Immediates.AsU16 | src/parser/immediate.rs:132-141 | an integer immediate casts to its value modulo 2^16 |
| Immediates.AsU32 | src/parser/immediate.rs:143-152 | an integer immediate casts to its value modulo 2^32 |
| Immediates.AsU64 | src/parser/immediate.rs:154-163 | an integer immediate casts to its value unchanged (zero extension) |
| Immediates.AsUsize | src/parser/immediate.rs:187-196 | `as_usize` agrees with `as_u64` on a 64-bit target |
| Immediates.AsF32Bits | src/parser/immediate.rs:165-174 | a Float immediate is returned bit for bit |
| Immediates.AsF64Bits | src/parser/immediate.rs:176-185 | a Double immediate is returned bit for bit |
| Immediates.TruncationComposes | src/parser/immediate.rs:121-163 | casting down through a narrower integer type in two steps equals casting down once |
| Immediates.OfSizeValue | src/parser/immediate.rs:110-163 | a value built at an integer width from a value that fits reads back unchanged through `as_u64` |
| Immediates.Compare | src/parser/immediate.rs:110 | the derived comparison: equal exactly when the immediates are equal, values of one width compare by value, different widths compare by variant order; two floats of one width are not modelled |
| Registers.RegisterCode | src/vm/register.rs:62-83 | a register's code byte is at most 0x62 (`Register as u8`, the declaration order) |
| Registers.RegisterFromCode | src/vm/register.rs:262-291 | a byte decodes to a register exactly when it is at most 0x62 |
| Registers.RegisterCodeRoundTrip | src/vm/register.rs:225-229 | decoding a register's code gives the register back |
| Registers.RegisterCodeOnto | src/vm/register.rs:262-291 | every accepted byte is the code of the register it decodes to |
| Registers.SizeOf | src/parser/immediate.rs:28-70 | a register's width is an integer width exactly when it is not an ff or dd register |
| Registers.ViewIsSize | src/vm/register.rs:87-205 | the view in the physical-info table is the register's data size, and float views live in the floating-point file |
| Registers.Aliasing | src/vm/register.rs:87-205 | two registers share a cell exactly when they are integer views of one number or the same register: bN, wN, dN, qN share gpr[N], ffN and ddN never alias, IP, SP, BP are separate |
| Registers.ParseIndex | src/vm/register.rs:231-260 | an accepted register number is spelt exactly as the decimal name of its value |
| Registers.RegisterFromName | src/vm/register.rs:231-260 | a name is accepted only as the exact lower-case name of the register it yields |
| Registers.RegisterNameRoundTrip | src/vm/register.rs:231-260 | every register is found under its own name |
| Registers.BankedNameRoundTrip | src/vm/register.rs:231-260 | a bank prefix followed by a number 0-15 names that numbered register |
| Registers.RegisterFromNameSpec | src/vm/register.rs:231-260 | a name yields a register exactly when it is that register's name |
| Registers.ZeroFile | src/vm/register.rs:302-308 | the fresh register file has 16 general, 32 floating-point and 3 special cells |
| Registers.Get | src/vm/register.rs:310-340 | a read carries the register's own width |
| Registers.MergeLow | src/vm/register.rs:347-354 | the merged cell has the new value in its low bits and the old cell's bits above them |
| Registers.Set | src/vm/register.rs:342-383 | a write keeps the file well formed, and it is modelled exactly for integer writes to integer views and same-width float writes to float views |
| Registers.SetFrame | src/vm/register.rs:342-383 | a write changes no cell other than its register's |
| Registers.SetCell | src/vm/register.rs:342-383 | view by view: a byte or word write replaces the low 8 or 16 bits and keeps the rest, a dword write stores the zero-extended 32-bit value, a qword write replaces the cell |
| Registers.GetAfterSet | src/vm/register.rs:310-383 | reading a register right after writing it returns the written value cast to the register's width |
| Registers.GetOtherAfterSet | src/vm/register.rs:310-383 | a write is invisible through every register that lives in another cell |
| Registers.ByteWriteThroughQWord | src/vm/register.rs:347-350 | after a byte write the qword view shows the byte in bits 0-7 and the old bits 8-63 |
| Registers.ZeroFileReadsZero | src/vm/register.rs:302-340 | every register of a fresh file reads as zero at its own width |
| Registers.RegisterFile.constructor | src/vm/register.rs:302-308 | the new cell arrays are fresh and all zero |
| Registers.RegisterFile.Read | src/vm/register.rs:310-340 | the result is the register read from the current cells |
| Registers.RegisterFile.Write | src/vm/register.rs:342-383 | the arrays now hold the file after the write, and nothing changes when the write is one the model leaves out |
| Registers.RegisterFile.Ip | src/vm/register.rs:385-387 | `ip()` is what the IP register reads as a qword |
| Registers.RegisterFile.Sp | src/vm/register.rs:393-395 | `sp()` is what the SP register reads as a qword |
| Registers.RegisterFile.Bp | src/vm/register.rs:401-403 | `bp()` is what the BP register reads as a qword |
| Registers.RegisterFile.SetIp | src/vm/register.rs:389-391 | only special[0] changes, `ip()` then returns the value, and the effect equals writing a qword through IP |
| Registers.RegisterFile.SetSp | src/vm/register.rs:397-399 | only special[1] changes, `sp()` then returns the value, and the effect equals writing a qword through SP |
| Registers.RegisterFile.SetBp | src/vm/register.rs:405-407 | only special[2] changes, `bp()` then returns the value, and the effect equals writing a qword through BP |
| Mem.Read | src/vm/memory.rs:24-73 | a read fails with InstructionPointerOutOfBounds exactly when addr + n exceeds the length; otherwise it carries the requested width and decodes bytes addr..addr+n little-endian |
| Mem.StoredPattern | src/vm/memory.rs:75-115 | the stored pattern fits the width; an integer value at an integer width is truncated to n bytes, and a value of the width's own variant is stored bit for bit |
| Mem.Written | src/vm/memory.rs:75-115 | an out-of-bounds write fails with InstructionPointerOutOfBounds before any change; a successful write keeps the length, puts the LE bytes of the value at addr..addr+n and leaves every other byte as it was |
| Mem.ReadAfterWrite | src/vm/memory.rs:24-115 | a read of the same width at the same address after a successful write returns the stored (truncated) value |
| Mem.IntegerRoundTrip | src/vm/memory.rs:24-99 | an in-bounds integer write succeeds and reading it back gives the value truncated to the width |
| Mem.ReadDisjointWrite | src/vm/memory.rs:24-115 | a write leaves every read of a disjoint range unchanged |
| Mem.Memory.constructor | src/vm/memory.rs:14-18 | the buffer has the requested length and every byte is 0 |
| Mem.Memory.Len | src/vm/memory.rs:20-22 | `len` is the buffer's length |
| Mem.Memory.Write | src/vm/memory.rs:75-115 | the buffer afterwards is the written storage on success and unchanged on failure, with the same error |
| Opcodes.OpcodeCode | src/vm/mod.rs:155-475 | every opcode `step` dispatches on has a code byte of at most 50 |
| Opcodes.OpcodeFromCode | src/vm/mod.rs:155 | a byte decodes to an opcode exactly when it is at most 50 |
| Opcodes.OpcodeRoundTrip | src/vm/mod.rs:155-475 | decoding an opcode's byte gives the opcode back |
| Opcodes.ArithRoundTrip | src/vm/mod.rs:271-278 | the arithmetic opcodes decode back from their bytes |
| Opcodes.BitwiseRoundTrip | src/vm/mod.rs:279-284 | the bitwise opcodes decode back from their bytes |
| Opcodes.ShiftRoundTrip | src/vm/mod.rs:285-288 | the shift opcodes decode back from their bytes |
| Opcodes.JumpRoundTrip | src/vm/mod.rs:313-412 | the jump opcodes decode back from their bytes |
| Opcodes.OpcodeCodeInjective | src/vm/mod.rs:155-475 | two opcodes with the same byte are the same opcode |
| Alu.BitOfBounded | src/vm/macros.rs:61-100 | AND, OR and XOR of two values below 2^k stay below 2^k, so a bitwise result fits the destination width |
| Alu.MaskIsMod | src/vm/macros.rs:110-119 | AND with 2^k - 1 keeps exactly the value modulo 2^k, which is what the shift-count masks 7, 15, 31 and 63 do |
| Alu.BitExamples | src/vm/macros.rs:61-100 | 15 & 10 = 10, 15 \| 10 = 15 and 15 ^ 10 = 5, the values the VM test suite checks |
| Alu.BitSelf | src/vm/macros.rs:61-100 | x ^ x = 0 and x & x = x \| x = x |
| Alu.Wrapping | src/vm/macros.rs:1-26 | `wrapping_*` stays below the type's range, and the only failure is division by zero, where the source panics |
| Alu.WrappingCases | src/vm/macros.rs:1-26 | add and sub wrap around at most once, and div never grows its dividend |
| Alu.SubUndoesAdd | src/vm/macros.rs:1-26 | wrapping subtraction undoes wrapping addition |
| Alu.ShiftCount | src/vm/macros.rs:110-119 | the shift amount actually used is below the width and equals the count modulo the width |
| Alu.ShiftBy | src/vm/macros.rs:102-153 | a shift result fits the width |
| Alu.WidthBits | src/vm/macros.rs:109-119 | an integer destination is 8, 16, 32 or 64 bits, matching its byte count |
| Alu.ShiftCountIsMod | src/vm/macros.rs:110-119 | the shift amount is the count modulo the width, that is the count AND 7 for a byte and AND 63 for a qword |
| Alu.Operands | src/vm/macros.rs:6-20 | both operands are cast to the destination's width, which succeeds exactly for integer operands |
| Alu.ArithResult | src/vm/macros.rs:1-59 | the result carries the destination's width; float destinations are left out |
| Alu.BitwiseResult | src/vm/macros.rs:61-100 | the result carries the destination's width, and a float destination fails with InvalidDataSize carrying its size code |
| Alu.ShiftResult | src/vm/macros.rs:102-153 | the result carries the destination's width, and a float destination fails with InvalidDataSize carrying its size code |
| Alu.ArithIsModular | src/vm/macros.rs:1-26 | add, sub and mul are the exact results modulo 2^width of the operands truncated to the destination's width |
| Alu.ByteAddWraps | src/vm/macros.rs:9-11 | 255 + 1 in a byte register is 0 |
| Alu.DivByZero | src/vm/macros.rs:1-26 | an integer division fails exactly when the divisor truncated to the destination width is zero |
| Bits.Truncate | src/compiler/mod.rs:357-369 | an `as uN` cast lands below 256^n |
| Bits.LittleEndian | src/compiler/mod.rs:357-369 | `to_le_bytes` of an n-byte value has exactly n bytes |
| Bits.FromLittleEndian | src/vm/mod.rs:497-551 | `from_le_bytes` of n bytes is below 256^n |
| Bits.DecodeEncode | src/vm/memory.rs:24-115 | reading back the little-endian bytes of a value gives the value truncated to n bytes |
| Bits.EncodeDecode | src/vm/memory.rs:24-115 | re-encoding a decoded byte string gives the byte string back |
| Bits.EncodeTruncated | src/compiler/mod.rs:357-369 | only the low n bytes of a value reach its encoding, so casting first changes nothing |
| Bits.I64Bits | src/compiler/mod.rs:357-369 | `i64 as u64` is the value modulo 2^64, its top bit set exactly when the value is negative |
| Bits.I64FromBits | src/compiler/mod.rs:357-369 | `u64 as i64` lands in the signed range and `as u64` undoes it |
| Bits.I64BitsInjective | src/compiler/mod.rs:357-369 | two signed 64-bit integers with the same bit pattern are equal |
| Machine.Load | src/vm/mod.rs:104-146 | fewer than 8 bytes is ProgramTooSmall; an entry point not inside the body is InvalidEntryPoint; a body longer than memory is ProgramTooLarge, in that order; on success ip is the entry point, sp the memory size, bp 0, the body sits at address 0 with zeros after it, flags clear, not halted, every general and float register 0 |
| Machine.FetchBytes | src/vm/mod.rs:486-551 | a read fails with InstructionPointerOutOfBounds, ip unmoved, exactly when fewer than n bytes remain; otherwise it returns the little-endian value of the next n bytes and advances ip by n |
| Machine.FetchByte | src/vm/mod.rs:486-495 | the read either fails in place or ends inside memory past where it started; a successful read advances ip by exactly one byte |
| Machine.FetchQWord | src/vm/mod.rs:531-551 | the read either fails in place or ends inside memory past where it started; a successful read advances ip by exactly 8 bytes |
| Machine.FetchRegister | src/vm/mod.rs:565-569 | the read either fails in place or ends inside memory past where it started; a successful read advances ip by exactly one byte |
| Machine.FetchSize | src/vm/mod.rs:571-574 | the read either fails in place or ends inside memory past where it started; a successful read advances ip by exactly one byte |
| Machine.FetchImmediate | src/vm/mod.rs:164-175 | the read stays inside memory, and an immediate read at a width has that width and advances ip by exactly its byte count |
| Machine.FetchAddress | src/vm/mod.rs:176-191 | the read either fails in place or ends inside memory past where it started; a successful read advances ip past the variant byte, the base and the offset (10 bytes for a register base, 17 for an absolute one) |
| Machine.FetchOperand | src/vm/mod.rs:271-312 | the read either fails in place or ends inside memory past where it started; a successful read advances ip by one byte for a register and by the immediate's width otherwise |
| Machine.FetchThree | src/vm/mod.rs:271-288 | the read either fails in place or ends inside memory past where it started; a successful read advances ip by the two register bytes and the last operand's bytes |
| Machine.DecodeOperands | src/vm/mod.rs:157-475 | the operand read of every arm either fails in place or ends inside memory past where it started |
| Machine.Decode | src/vm/mod.rs:154-155 | decoding either fails in place or ends inside memory past the opcode |
| Machine.OperandsReadAhead | src/vm/mod.rs:157-312 | whatever operands are decoded, ip ends past every byte the arm decodes after it has read its first register value (the base before the offset, the stored value before the address, the left register before the last operand) |
| Machine.DecodeReadAhead | src/vm/mod.rs:149-312 | after a successful decode ip is at least that many bytes past where the instruction started, so every early register read of the instruction has a place inside it |
| Machine.SetReg | src/vm/mod.rs:159-175 | a register write keeps the state well formed; when it cannot be done nothing changes |
| Machine.ReadBack | src/vm/mod.rs:176-312 | a register read while the instruction is still being decoded: any register but ip reads as it does after decoding, and ip reads as the address of the first byte not yet decoded |
| Machine.Push | src/vm/mod.rs:576-588 | StackOverflow, with nothing changed, when sp is below the value's width; otherwise sp drops by the width, ip stays, and a successful push leaves memory equal to the value written at the new sp |
| Machine.Pop | src/vm/mod.rs:590-599 | StackUnderflow, with nothing changed, when sp plus the width passes the end of memory; otherwise the result is the memory read at sp and sp rises by the width, memory and ip unchanged |
| Machine.AccessMemory | src/vm/mod.rs:176-270 | the ldr, str, push-from-memory and pop-into-memory arms keep the state well formed and leave the halted flag alone; a register base is read before the offset is decoded |
| Machine.Cast | src/vm/mod.rs:208-220 | a value cast for a push has exactly the requested width |
| Machine.Taken | src/vm/mod.rs:313-412 | the jump rule the condition names; it agrees with the rule as written for every condition except JGT after an equal compare |
| Machine.Bump | src/vm/mod.rs:427-454 | INC and DEC keep the register's width |
| Machine.WriteBack | src/vm/mod.rs:159-175 | a failure to compute or to store the value changes nothing and reports that failure |
| Machine.Execute | src/vm/mod.rs:157-475 | with ip past every byte decoded after the instruction's early register reads, every arm keeps the state well formed; the machine is halted afterwards exactly when it was before or the instruction is HLT, and HLT always succeeds |
| Machine.Step | src/vm/mod.rs:149-156 | a halted machine is left exactly as it is; a step that leaves the machine halted succeeded |
| Machine.Run | src/vm/mod.rs:478-483 | the run reports Halted exactly when the final state is halted |
| Machine.WithIpTwice | src/vm/register.rs:330-340 | setting ip twice is setting it once to the second value |
| VmProperties.After | src/vm/mod.rs:154-156 | the state an arm starts from is well formed, with ip just past the instruction's encoding and so past every byte decoded after an early register read |
| VmProperties.StepDecodes | src/vm/mod.rs:149-475 | at an encoded instruction `step` decodes exactly that instruction and leaves ip just past it |
| VmProperties.PushOutcome | src/vm/mod.rs:576-588 | a push succeeds exactly when the value's width fits below sp and sp is inside memory; with sp past the end it fails on the memory write |
| VmProperties.PushPopRoundTrip | src/vm/mod.rs:576-599 | popping at the width just pushed returns the pushed value and restores every register, sp included |
| VmProperties.JumpFollowsCompare | src/vm/mod.rs:289-412 | after CMP of two integers of one width, each jump is taken exactly when the relation it names holds of their values |
| VmProperties.JgtAsWrittenJumpsOnEqual | src/vm/mod.rs:369-383 | as written, JGT after comparing 1337 with 1337 jumps although 1337 > 1337 is false |
| VmProperties.ExecuteCompare | src/vm/mod.rs:289-312 | CMP of integers of one width succeeds, sets eq and lt from their values and changes nothing else; the left register is read before the second operand is decoded, so ip there reads as the address of that operand |
| VmProperties.ExecuteJump | src/vm/mod.rs:313-412 | a jump to an immediate target sets ip to it when taken and leaves the state as it is otherwise |
| VmProperties.ExecuteCall | src/vm/mod.rs:414-426 | CALL pushes the ip after the instruction as a qword, then sets ip to the target; a failed push is reported unchanged |
| VmProperties.ExecuteRet | src/vm/mod.rs:455-459 | RET pops a qword and sets ip to it; a failed pop is reported |
| VmProperties.StepCompare | src/vm/mod.rs:149-156 | at an encoded CMP, `step` executes it with ip past its bytes |
| VmProperties.StepCompareIp | src/vm/mod.rs:304-311 | `cmp ip, r` compares r with the address two bytes into the instruction, where r's byte sits, and not with the address after the instruction |
| VmProperties.StepJump | src/vm/mod.rs:313-317 | at an encoded jump to an address, `step` executes it with ip past its 9 bytes |
| VmProperties.StepCall | src/vm/mod.rs:414-419 | at an encoded CALL to an address, `step` executes it with ip past its 9 bytes |
| VmProperties.StepRet | src/vm/mod.rs:455-459 | at an encoded RET, `step` executes it with ip past its single byte |
| VmProperties.StepHlt | src/vm/mod.rs:470-473 | at an encoded HLT, `step` executes it with ip past its single byte |
| VmProperties.CompareThenJump | src/vm/mod.rs:289-412 | CMP then a jump anywhere: the CMP succeeds and the jump goes to the target exactly when its relation holds of the compared values, the left one read before the second operand is decoded |
| VmProperties.PopReturnAddress | src/vm/mod.rs:414-459 | the qword CALL pushed is 8 bytes below the old sp and is popped back, restoring every register but ip |
| VmProperties.PopIgnoresIp | src/vm/mod.rs:590-599 | where ip points changes neither what a pop returns nor the registers it leaves |
| VmProperties.RetAfterCall | src/vm/mod.rs:414-459 | CALL then RET, wherever the target led: ip is the target after the call with sp 8 lower, and after the return every register, ip and sp included, is as before the call |
| VmProperties.ExecuteHlt | src/vm/mod.rs:470-473 | HLT sets the halted flag and changes nothing else |
| VmProperties.HltHalts | src/vm/mod.rs:149-156 | a step at an encoded HLT leaves ip one past it and the machine halted |
| VmProperties.RunStopsAtHlt | src/vm/mod.rs:478-483 | `run` at an HLT stops after it, reporting Halted with ip just past it, whatever the step budget |
| VmProperties.RunUnfold | src/vm/mod.rs:478-483 | `run` on a running machine with budget left is one step, then the rest of the run from its state, stopping at the first error |
| VmProperties.SetSameWidth | src/vm/register.rs:342-380 | setting a register to a value of its own width succeeds and reads back that value |
| VmProperties.WriteBackWrites | src/vm/mod.rs:159-175 | storing a value of the destination's width succeeds: the destination reads it, every register in another location and everything else is unchanged; a failed computation changes nothing |
| VmProperties.MovImmWritesBack | src/vm/mod.rs:164-175 | MOV of an immediate of the destination's width stores it and changes nothing else |
| VmProperties.MovRegWritesBack | src/vm/mod.rs:159-163 | MOV between registers of one width copies the source into the destination and changes nothing else |
| VmProperties.ArithWritesBack | src/vm/macros.rs:1-59 | an arithmetic instruction writes its defined result to the destination only, or fails and changes nothing; the immediate form reads its left register before decoding the immediate |
| VmProperties.BitwiseWritesBack | src/vm/macros.rs:61-100 | AND, OR and XOR write their result to the destination only, or fail and change nothing; the immediate form reads its left register before decoding the immediate |
| VmProperties.ShiftWritesBack | src/vm/macros.rs:102-150 | SHL and SHR write their result to the destination only, or fail and change nothing; the immediate form reads its left register before decoding the immediate |
| VmProperties.BumpValue | src/vm/mod.rs:427-454 | INC and DEC on an integer give (x ± 1) wrapped into the width |
| VmProperties.WrapUp | src/vm/mod.rs:427-440 | `wrapping_add(1)` is x + 1, or 0 at the top of the width |
| VmProperties.WrapDown | src/vm/mod.rs:441-454 | `wrapping_sub(1)` is x - 1, or the top of the width at 0 |
| VmProperties.IncWraps | src/vm/mod.rs:427-440 | INC writes back x + 1 wrapped at the register's width (255 + 1 is 0 in a byte register) and touches nothing else |
| VmProperties.DecWraps | src/vm/mod.rs:441-454 | DEC writes back x - 1 wrapped at the register's width (0 - 1 is 255 in a byte register) and touches nothing else |
| Encoding.EncodeImmediate | src/compiler/mod.rs:357-390 | an immediate is laid out as exactly its width's number of bytes |
| Encoding.AtSplit | src/vm/mod.rs:154-155 | bytes laid out back to back at ip can be read as the first part at ip and the second right after it |
| Encoding.FetchBytesAt | src/vm/mod.rs:497-551 | the little-endian bytes of a value that fits are read back as that value, advancing ip by their count |
| Encoding.FetchByteAt | src/vm/mod.rs:486-495 | `read_byte` at a byte returns it and advances ip by 1 |
| Encoding.FetchQWordAt | src/vm/mod.rs:531-551 | `read_qword` at the 8 little-endian bytes of a qword returns it and advances ip by 8 |
| Encoding.FetchRegisterAt | src/vm/mod.rs:565-569 | `read_register` at a register's code byte returns that register |
| Encoding.FetchSizeAt | src/vm/mod.rs:571-574 | `read_data_size` at a size's code byte returns that size |
| Encoding.FetchImmediateAt | src/vm/mod.rs:164-175 | an immediate read at its own width returns it and advances past its bytes |
| Encoding.FetchAddressAt | src/vm/mod.rs:176-191 | an address operand (variant byte, base, offset) reads back as that address |
| Encoding.FetchOperandAt | src/vm/mod.rs:271-312 | a register or immediate last operand reads back as itself, an immediate at the expected width |
| Encoding.FetchThreeAt | src/vm/mod.rs:271-288 | the destination, left and right operands of an ALU instruction read back as themselves |
| Encoding.EncodedLengths | src/compiler/mod.rs:179-233 | nop, ret, syscall and hlt take one byte; a jump or call to an address takes nine |
| Encoding.DecodeEncoded | src/vm/mod.rs:149-475 | decoding the encoding of any well-formed instruction gives that instruction back and leaves ip just past it |
| Encoding.DecodeAluOperands | src/vm/mod.rs:271-312 | the operands of arithmetic, bitwise, shift and compare instructions decode back |
| Encoding.DecodeMemoryOperands | src/vm/mod.rs:176-270 | the operands of ldr, str and the address forms of push and pop decode back |
| Encoding.DecodeOtherOperands | src/vm/mod.rs:157-475 | the operands of every remaining instruction decode back |
| Encoding.DecodeMovReg | src/vm/mod.rs:159-163 | `mov r, r` operands decode back in 2 bytes |
| Encoding.DecodeMovImm | src/vm/mod.rs:164-175 | `mov r, imm` operands decode back, the immediate at the register's width |
| Encoding.DecodeRegAddr | src/vm/mod.rs:176-207 | `ldr` and `str` operands decode back |
| Encoding.DecodeSizeAddr | src/vm/mod.rs:233-270 | `push size [addr]` and `pop size [addr]` operands decode back |
| Encoding.DecodeSizeReg | src/vm/mod.rs:208-254 | `push size r` and `pop size r` operands decode back |
| Encoding.DecodePushImm | src/vm/mod.rs:221-232 | `push size imm` operands decode back, the immediate at its size |
| Encoding.DecodeArith | src/vm/mod.rs:271-278 | arithmetic operands decode back |
| Encoding.DecodeBitwise | src/vm/mod.rs:279-284 | bitwise operands decode back |
| Encoding.DecodeShift | src/vm/mod.rs:285-288 | shift operands decode back |
| Encoding.DecodeCmp | src/vm/mod.rs:289-312 | compare operands decode back, an immediate at the register's width |
| Encoding.DecodeJump | src/vm/mod.rs:313-412 | a jump's target operand decodes back |
| Encoding.DecodeCall | src/vm/mod.rs:414-426 | a call's target operand decodes back |
| Encoding.DecodeIncDec | src/vm/mod.rs:427-454 | the register of inc and dec decodes back |
| Vm.VM.Snapshot | src/vm/mod.rs:95-101 | the VM's registers, memory, flags and halted flag, read as a well-formed machine state |
| Vm.VM.constructor | src/vm/mod.rs:129-145 | fresh zeroed registers, clear flags, not halted, over a fresh zeroed memory of the requested size |
| Vm.VM.New | src/vm/mod.rs:104-146 | `VM::new` succeeds exactly when the loader does, with the same error otherwise, and its fresh VM is the loaded state (so every property of Machine.Load holds of it) |
| Vm.VM.Boot | src/vm/mod.rs:129-145 | sp is the memory size, bp 0, ip the entry point, the body sits at address 0 with zeros after it |
| Vm.VM.ReadBytes | src/vm/mod.rs:486-551 | the VM afterwards is the state before with ip moved as Machine.FetchBytes moves it, and the result is what it fetches |
| Vm.VM.ReadByte | src/vm/mod.rs:486-495 | the same, for Machine.FetchByte |
| Vm.VM.ReadQWord | src/vm/mod.rs:531-551 | the same, for Machine.FetchQWord |
| Vm.VM.ReadRegister | src/vm/mod.rs:565-569 | the same, for Machine.FetchRegister |
| Vm.VM.ReadDataSize | src/vm/mod.rs:571-574 | the same, for Machine.FetchSize |
| Vm.VM.ReadImmediate | src/vm/mod.rs:164-175 | the same, for Machine.FetchImmediate |
| Vm.VM.ReadAddress | src/vm/mod.rs:176-191 | the same, for Machine.FetchAddress |
| Vm.VM.ReadOperand | src/vm/mod.rs:271-312 | the same, for Machine.FetchOperand |
| Vm.VM.ReadThree | src/vm/mod.rs:271-288 | the same, for Machine.FetchThree |
| Vm.VM.ReadRegisterPair | src/vm/mod.rs:159-163 | reading the operands of `mov r, r` and `cmp r, r` moves ip and returns as Machine.DecodeOperands |
| Vm.VM.ReadRegisterImmediate | src/vm/mod.rs:164-175 | the same for `mov r, imm` and `cmp r, imm` |
| Vm.VM.ReadRegisterAddress | src/vm/mod.rs:176-207 | the same for `ldr` and `str` |
| Vm.VM.ReadStackOperands | src/vm/mod.rs:208-270 | the same for the push and pop forms |
| Vm.VM.ReadAluOperands | src/vm/mod.rs:271-288 | the same for the arithmetic, bitwise and shift instructions |
| Vm.VM.ReadIncDec | src/vm/mod.rs:427-454 | the same for `inc` and `dec` |
| Vm.VM.ReadTarget | src/vm/mod.rs:313-426 | the same for jumps and calls |
| Vm.VM.ReadOperands | src/vm/mod.rs:157-475 | the operand read of every arm of `step` moves ip and returns as Machine.DecodeOperands |
| Vm.VM.Decode | src/vm/mod.rs:154-155 | reading the opcode and its operands moves ip and returns as Machine.Decode, so it inverts the encoding (Encoding.DecodeEncoded) |
| Vm.VM.ReadOperandValue | src/vm/mod.rs:271-312 | the value of a register operand is the register's, of an immediate the immediate |
| Vm.VM.ReadBack | src/vm/mod.rs:176-312 | the value read is Machine.ReadBack of the current state: ip reads as where decoding stood, every other register as it is |
| Vm.VM.ComputeAddress | src/vm/mod.rs:176-270 | the address computed is Machine.EffectiveAddress of the current state, a register base read before the offset was decoded |
| Vm.VM.ComputeTarget | src/vm/mod.rs:313-426 | the target computed is Machine.TargetAddress of the current state |
| Vm.VM.WriteBack | src/vm/mod.rs:159-175 | the new VM and result are Machine.WriteBack of the old state |
| Vm.VM.Push | src/vm/mod.rs:576-588 | the new VM and result are Machine.Push of the old state |
| Vm.VM.Pop | src/vm/mod.rs:590-599 | the new VM and result are Machine.Pop of the old state |
| Vm.VM.ExecuteRegisterWrite | src/vm/mod.rs:159-288 | the mov, ALU, inc and dec arms leave the VM as Machine.Execute leaves the state |
| Vm.VM.ExecuteLoadStore | src/vm/mod.rs:176-207 | the ldr and str arms leave the VM as Machine.Execute leaves the state |
| Vm.VM.ExecutePush | src/vm/mod.rs:208-248 | the push arms leave the VM as Machine.Execute leaves the state |
| Vm.VM.ExecutePop | src/vm/mod.rs:249-270 | the pop arms leave the VM as Machine.Execute leaves the state |
| Vm.VM.ExecuteCompare | src/vm/mod.rs:289-312 | the cmp arms leave the VM as Machine.Execute leaves the state |
| Vm.VM.ExecuteJump | src/vm/mod.rs:313-412 | the jump arms leave the VM as Machine.Execute leaves the state |
| Vm.VM.ExecuteCallReturn | src/vm/mod.rs:414-459 | the call and ret arms leave the VM as Machine.Execute leaves the state |
| Vm.VM.ExecuteSystem | src/vm/mod.rs:460-473 | nop, syscall dispatch and hlt leave the VM as Machine.Execute leaves the state |
| Vm.VM.Execute | src/vm/mod.rs:157-475 | every arm leaves the VM as Machine.Execute leaves the state, so the VmProperties lemmas hold of it |
| Vm.VM.Step | src/vm/mod.rs:149-475 | one `step` leaves the VM and result as Machine.Step does |
| Vm.VM.Run | src/vm/mod.rs:478-483 | `run` leaves the VM and stop reason as Machine.Run does |
| Bytecode.Overwrite | src/compiler/bytecode.rs:44-74 | a patch keeps the section's length, puts the new bytes at the offset and leaves every other byte as it was |
| Bytecode.OverwriteReadsBack | src/compiler/bytecode.rs:44-74 | a value patched in reads back, little-endian, as the value truncated to the patch width |
| Bytecode.OverwriteMiddle | src/compiler/bytecode.rs:44-74 | patching the placeholder between a prefix and a suffix replaces just the placeholder |
| Bytecode.OverwriteOutside | src/compiler/bytecode.rs:44-74 | a patch leaves every range it does not touch unchanged |
| Bytecode.OverwriteTwice | src/compiler/bytecode.rs:44-74 | patching the same place twice keeps only the second value |
| Bytecode.Bytecode.constructor | src/compiler/bytecode.rs:13-19 | both sections start empty |
| Bytecode.Bytecode.Len | src/compiler/bytecode.rs:21-26 | `len` is the length of the chosen section |
| Bytecode.Bytecode.Push | src/compiler/bytecode.rs:28-34 | the byte is appended to the chosen section and the other section is unchanged |
| Bytecode.Bytecode.Extend | src/compiler/bytecode.rs:36-42 | the bytes are appended in order to the chosen section and the other section is unchanged |
| Bytecode.Bytecode.WriteAt | src/compiler/bytecode.rs:44-74 | the n little-endian bytes of the value replace those at the offset in the chosen section, the other section unchanged |
| Bytecode.Bytecode.Finalize | src/compiler/bytecode.rs:76-81 | the output is the text section followed by the data section, each recoverable from it |
| Lowering.IntImmediate | src/compiler/mod.rs:357-369 | an integer literal cast to an integer width has that width and the value of the literal modulo 256^n, negative literals included |
| Lowering.TruncatedBits | src/compiler/mod.rs:357-369 | truncating the two's-complement bits of an i64 to 1, 2, 4 or 8 bytes is reducing the i64 modulo 256^n |
| Lowering.LowerAddress | src/compiler/mod.rs:437-560 | an address lowers exactly when its offset is absent or an integer and its base is a register, an integer or a label, otherwise InvalidOperands; the offset is the literal's bits or 0; a label base yields its name and a zero absolute base |
| Lowering.LowerMov | src/compiler/mod.rs:347-436 | a non-register destination is InvalidOperands; what is emitted is a decodable mov to that destination whose label hole, if any, is a zero immediate at the register's width |
| Lowering.LowerLoadStore | src/compiler/mod.rs:437-560 | succeeds only for a register and an address, emitting a decodable ldr into (or str from) that register; every failure is InvalidOperands |
| Lowering.LowerSizedAddress | src/compiler/mod.rs:580-657 | a sized push or pop of an address is decodable with a qword base hole for a label |
| Lowering.LowerPush | src/compiler/mod.rs:561-804 | every push emitted is one of the three push forms, decodable, with a hole of the right shape for a label |
| Lowering.LowerPop | src/compiler/mod.rs:805-913 | every pop emitted is a register or address pop and decodable; an address without a size is InvalidOperands |
| Lowering.LowerArith | src/compiler/mod.rs:914-1016 | a non-register destination is InvalidOperands; what is emitted is a decodable instruction of the requested operation with no hole |
| Lowering.LowerBitwise | src/compiler/mod.rs:1017-1146 | any float register or float literal operand is InvalidOperands; what is emitted is a decodable instruction of the requested kind on the given registers, with no hole |
| Lowering.LowerCmp | src/compiler/mod.rs:1147-1208 | what is emitted is a decodable compare of the given register, with no hole |
| Lowering.LowerTarget | src/compiler/mod.rs:1209-1309 | a target lowers exactly when it is an integer, a register or a label, otherwise InvalidOperands |
| Lowering.LowerJump | src/compiler/mod.rs:1209-1274 | a jump lowers exactly when its target is an integer, a register or a label, to a decodable jump on the requested condition |
| Lowering.LowerCall | src/compiler/mod.rs:1275-1309 | a call lowers exactly when its target is an integer, a register or a label, to a decodable call |
| Lowering.LowerIncDec | src/compiler/mod.rs:1310-1338 | inc and dec lower exactly when the operand is a register, to that one instruction, otherwise InvalidOperands naming it |
| Lowering.Width | src/compiler/mod.rs:292-310 | a hole is as wide as its size |
| Lowering.PatternOfSize | src/compiler/mod.rs:292-310 | an immediate built at a width from a value that fits holds that value |
| Lowering.Layout | src/compiler/mod.rs:347-1309 | the encoding of every instruction that can carry a label is its head, the placeholder, and its tail |
| Lowering.LayoutMemory | src/compiler/mod.rs:437-560 | the same for ldr, str and the address forms of push and pop |
| Lowering.AbsoluteLayout | src/compiler/mod.rs:437-560 | an absolute address is laid out as variant 2, the base and the offset |
| Lowering.FillParts | src/compiler/mod.rs:285-310 | filling a hole keeps the bytes before and after it; the placeholder starts at the hole's offset, is all zero, and becomes the address truncated to the hole's width |
| Lowering.HoleInside | src/compiler/mod.rs:285-310 | every hole lies inside the bytes of its instruction |
| Lowering.FillWellFormed | src/compiler/mod.rs:285-310 | filling a hole keeps the instruction decodable |
| Lowering.Splice | src/compiler/bytecode.rs:44-74 | overwriting the middle of three parts replaces just it |
| Lowering.FillHole | src/compiler/mod.rs:285-310 | the placeholder is zero bytes inside the encoding, and overwriting it with the truncated label address gives the encoding of the instruction with that address, which is decodable |
| Lowering.MovImmediateBytes | src/compiler/mod.rs:357-369 | `mov reg, integer` emits the opcode, the register, and the integer's two's-complement bytes at the register's width |
| Lowering.MovImmediateLayout | src/compiler/mod.rs:357-369 | `mov reg, imm` is the opcode, the register, and the immediate's bytes |
| Lowering.MovIntegerLowers | src/compiler/mod.rs:357-369 | `mov reg, integer` with an integer register lowers to the literal truncated to the register's width |
| Lowering.IntegerBytes | src/compiler/mod.rs:357-369 | only the low bytes of the literal's two's-complement bits reach the encoding |
| Lowering.PushLabelAsWritten | src/compiler/mod.rs:697-706 | `push SIZE label` as written is 10 bytes with a hole of that size at byte 2, whatever the size |
| Lowering.PushByteLabelMisaligned | src/compiler/mod.rs:697-706 | for a byte-sized label push, the patched 10 bytes decode as a push that ends at byte 3, leaving seven placeholder bytes to run as instructions |
| Lowering.PushLabelDecodes | src/compiler/mod.rs:697-706 | the corrected label push has a hole of the size's width, and once patched decodes as a push of the address that ends exactly where the bytes end |
| Lowering.PushAddressAsWritten | src/compiler/mod.rs:580-657 | `push [address]` without a size, as written, is the opcode and the address with no size byte |
| Lowering.PushAddressAsWrittenMisdecoded | src/compiler/mod.rs:580-657 | `push [b0]` as written is 11 bytes, but the VM decodes 12, a byte-sized push, reading one byte past it |
| Lowering.Misread | src/compiler/mod.rs:580-657 | the 11 bytes of `push [b0]` and a zero are the encoding of `push byte [b0]` |
| Lowering.ZeroAppended | src/compiler/mod.rs:580-657 | one more zero after an opcode and ten zero bytes is the opcode and eleven zero bytes |
| Lowering.RegisterBaseLayout | src/compiler/mod.rs:455-470 | an address with a register base is variant 1, the register byte and the offset |
| Lowering.ZeroShift | src/compiler/mod.rs:580-657 | a run of zero bytes commutes with one more zero byte |
| Lowering.PushAddressDefaultsToQWord | src/compiler/mod.rs:580-657 | the corrected `push [address]` without a size is `push qword [address]`, with a size byte before the address |
| Compiler.Instruction | src/compiler/mod.rs:179-233 | only instruction statements compile through a `compile_*` routine; labels and the entry never do |
| Compiler.InstructionSound | src/compiler/mod.rs:179-233 | every instruction statement that compiles emits a decodable instruction whose label hole, if any, is well placed |
| Compiler.Utf8Char | src/compiler/mod.rs:148-174 | a character's UTF-8 form is one to four bytes, one exactly for ASCII |
| Compiler.Utf8CharRoundTrip | src/compiler/mod.rs:148-174 | the UTF-8 bytes of a character decode back to its code point, and the first byte tells their count |
| Compiler.DivDiv | src/compiler/mod.rs:148-174 | dividing twice is dividing by the product |
| Compiler.Utf8Concat | src/compiler/mod.rs:148-174 | the bytes of a concatenation are the concatenation of the bytes |
| Compiler.AsciiBytes | src/compiler/mod.rs:148-174 | an ASCII string's bytes are its character codes, one per character |
| Compiler.DbIntegerByte | src/compiler/mod.rs:236-238 | `integer as u8` in `db` emits the low byte of the integer's two's-complement bits |
| Compiler.DbPrefixError | src/compiler/mod.rs:234-252 | once a prefix of a `db` list fails, the whole list fails with the same error |
| Compiler.AppendKeepsPlaced | src/compiler/mod.rs:127-262 | appending bytes keeps every fixup inside its section and apart from the others |
| Compiler.EmitKeepsPlaced | src/compiler/mod.rs:179-233 | emitting an instruction with its hole keeps every fixup inside its section and apart from the others |
| Compiler.AppendHoleKeepsPlaced | src/compiler/mod.rs:179-233 | a fixup recorded inside freshly appended bytes keeps the fixups placed |
| Compiler.AddKeepsPlaced | src/compiler/mod.rs:179-233 | a fixup added past every earlier one of its section and inside the section keeps them apart |
| Compiler.StepKeepsPlaced | src/compiler/mod.rs:128-262 | every statement of the first pass keeps the fixups inside their sections and apart |
| Compiler.DirectiveKeepsPlaced | src/compiler/mod.rs:130-178 | every directive keeps the fixups inside their sections and apart |
| Compiler.AssembleKeepsPlaced | src/compiler/mod.rs:128-262 | the whole first pass keeps the fixups inside their sections and apart |
| Compiler.StepLabels | src/compiler/mod.rs:175-178 | after a statement a name is a label exactly when it was before or the statement defines it |
| Compiler.DirectiveLabels | src/compiler/mod.rs:175-178 | the same for a directive |
| Compiler.AssembleLabels | src/compiler/mod.rs:128-262 | after the first pass a name is a label exactly when it was before or some statement of the program is `name:` |
| Compiler.AssembleKeepsEntry | src/compiler/mod.rs:136-147 | without an `.entry` statement the first pass leaves the entry as it was |
| Compiler.DefaultEntry | src/compiler/mod.rs:114-125 | a program without `.entry` resolves its entry to address 0 |
| Compiler.PatchedNone | src/compiler/mod.rs:264-310 | before the fixup pass the sections are patched for no fixup |
| Compiler.PatchedAll | src/compiler/mod.rs:264-310 | once every fixup is patched, every fixup resolves |
| Compiler.PatchStep | src/compiler/mod.rs:264-310 | writing one more fixup's truncated address at its place keeps every earlier fixup's bytes and every byte outside the fixups |
| Compiler.CoveredGrows | src/compiler/mod.rs:264-310 | a byte inside a patched place stays inside one when more are patched |
| Compiler.PatchedUnique | src/compiler/mod.rs:264-310 | the sections patched for a set of fixups are determined by the set, whatever the order of the writes |
| Compiler.AppendTwice | src/compiler/bytecode.rs:36-42 | appending twice is appending the concatenation |
| Compiler.Compiler.constructor | src/compiler/mod.rs:114-125 | empty sections, no labels or fixups, text current, entry address 0 |
| Compiler.Compiler.EmitLowered | src/compiler/mod.rs:347-1338 | the compiler afterwards is the state with the instruction's bytes appended to the current section and its hole recorded as a fixup at the place it lands |
| Compiler.Compiler.CompileDb | src/compiler/mod.rs:234-252 | the `db` loop leaves the compiler and result as the `db` step: each value's bytes in turn, stopping at the first bad value with InvalidExpression |
| Compiler.Compiler.CompileEntry | src/compiler/mod.rs:136-147 | `.entry` records an integer's bits or a label, otherwise InvalidOperands |
| Compiler.Compiler.CompileString | src/compiler/mod.rs:148-174 | `.ascii` appends the string's UTF-8 bytes and `.asciz` a zero after them; another operand is InvalidOperands |
| Compiler.Compiler.CompileLabel | src/compiler/mod.rs:175-178 | a label points at the current offset of the current section, replacing an earlier definition |
| Compiler.Compiler.CompileResb | src/compiler/mod.rs:253-264 | `resb n` appends n zero bytes; a non-integer count is InvalidExpression |
| Compiler.Compiler.CompileDirective | src/compiler/mod.rs:130-178 | every directive leaves the compiler and result as the directive step does |
| Compiler.Compiler.CompileStatement | src/compiler/mod.rs:128-270 | one iteration of the loop leaves the compiler and result as the first-pass step does; any other statement is UnsupportedOperation |
| Compiler.Compiler.Patch | src/compiler/mod.rs:264-310 | a fixup whose label is undefined or whose width is a float's reports that error; otherwise its truncated address is written at its place, extending the patched set |
| Compiler.Compiler.ResolveFixups | src/compiler/mod.rs:264-310 | the fixups are emptied; the pass succeeds exactly when every fixup resolves, and then every place holds its label's truncated address and all else is unchanged; a failure is the error of some fixup |
| Compiler.Compiler.Drain | src/compiler/mod.rs:264-310 | the drain loop succeeds exactly when every fixup resolves, patching them all; otherwise it reports the error of one of them |
| Compiler.Compiler.Link | src/compiler/mod.rs:264-345 | the output succeeds exactly when every fixup and the entry resolve, and is then the entry address as 8 little-endian bytes, the patched text and the patched data; otherwise the error of a fixup or of the entry |
| Compiler.Compiler.Compile | src/compiler/mod.rs:127-345 | `compile` fails with the first pass's first error, or else produces exactly the linked output of the first pass's state |
| Keywords.DirectiveFound | src/lexer/token.rs:10-22 | every directive is in the table under its spelling, which starts with `#` or `.` |
| Keywords.DirectiveSpelt | src/lexer/token.rs:10-22 | a directive entry is found only under its own spelling |
| Keywords.MnemonicFound | src/lexer/token.rs:24-55 | every mnemonic, `db` and `resb` included, is in the table under its spelling |
| Keywords.MnemonicSpelt | src/lexer/token.rs:24-55 | a mnemonic entry is found only under its own spelling |
| Keywords.ThreeLetterSpelt | src/lexer/token.rs:24-55 | a three-letter mnemonic entry is found only under its own three letters |
| Keywords.MnemonicShape | src/lexer/token.rs:24-55 | every mnemonic starts and ends with a lower-case letter, so no register name and no directive is one |
| Tokens.Lookup | src/lexer/token.rs:8-101 | the table never yields an identifier, end-of-file, illegal or string kind |
| Tokens.LookupIdent | src/lexer/token.rs:228-232 | a word is never looked up as end-of-file, illegal or a string |
| Tokens.LookupIgnoresCase | src/lexer/token.rs:228-232 | lower-casing a word first changes nothing |
| Tokens.LookupDirective | src/lexer/token.rs:10-22 | a word is a given directive exactly when its lower-case form is that directive's spelling |
| Tokens.LookupMnemonic | src/lexer/token.rs:24-55 | a word is a given mnemonic exactly when its lower-case form is its spelling |
| Tokens.RegisterNotWord | src/lexer/token.rs:8-101 | no register name is a directive, a mnemonic, a section name or a data size |
| Tokens.LookupRegister | src/lexer/token.rs:59-92 | a word is a register token exactly when its lower-case form names a register |
| Tokens.LookupSectionName | src/lexer/token.rs:57-58 | a word is a section name exactly when its lower-case form is `text` or `data` |
| Tokens.LookupDataSize | src/lexer/token.rs:93-99 | a word is a data size token exactly when it names a size |
| Tokens.SourceSpan | src/lexer/token.rs:212-215 | the source span starts at the token's start and reaches its end |
| Tokens.Display | src/lexer/token.rs:218-226 | end-of-file shows as "EOF", a string literal between double quotes, anything else as its text |
| Lexing.NulInNoClass | src/lexer/mod.rs:87-258 | NUL is in no character class a loop runs over, so every loop stops at the end of the input |
| Lexing.SkipSpace | src/lexer/mod.rs:242-246 | whitespace skipping stops at the first non-whitespace character from the start on, every character skipped is whitespace, and it never passes the end |
| Lexing.ScanWhile | src/lexer/mod.rs:87-188 | a class loop stops at the first character outside the class, every character passed is in it, and it never passes the end |
| Lexing.ScanWord | src/lexer/mod.rs:164-188 | a word ends where the word characters end, inside the input |
| Lexing.PrefixedNumber | src/lexer/mod.rs:91-130 | a `0x`, `0b` or `0o` literal ends after its prefix and inside the input |
| Lexing.ScanNumber | src/lexer/mod.rs:87-162 | a number consumes at least its first digit and ends inside the input |
| Lexing.StringBody | src/lexer/mod.rs:196-224 | the string loop stops at the closing quote or at the end of the input, never past it |
| Lexing.ScanString | src/lexer/mod.rs:189-232 | a string token consumes at least its opening quote and ends inside the input |
| Lexing.Scan | src/lexer/mod.rs:31-74 | every token starts at or after the cursor and the cursor moves past its start; only end-of-file may end past the input |
| Lexing.Tokenize | src/lexer/mod.rs:259-269 | tokenizing always yields at least the final end-of-file |
| Lexing.Lexer.constructor | src/lexer/mod.rs:20-29 | the cursor is put on the first character of the input |
| Lexing.Lexer.ReadChar | src/lexer/mod.rs:76-85 | the cursor moves one character on, seeing NUL past the end |
| Lexing.Lexer.ReadWhile | src/lexer/mod.rs:87-188 | a lexer loop moves the cursor as ScanWhile describes |
| Lexing.Lexer.SkipWhitespace | src/lexer/mod.rs:242-246 | the cursor moves as SkipSpace describes |
| Lexing.Lexer.ReadNumber | src/lexer/mod.rs:87-162 | the token and new cursor are those of ScanNumber |
| Lexing.Lexer.ReadPrefixed | src/lexer/mod.rs:91-130 | the token and new cursor are those of PrefixedNumber |
| Lexing.Lexer.ReadIdentifier | src/lexer/mod.rs:164-174 | the token and new cursor are those of ScanWord from the cursor |
| Lexing.Lexer.ReadDirective | src/lexer/mod.rs:176-187 | the token and new cursor are those of ScanWord after the prefix character |
| Lexing.Lexer.ReadString | src/lexer/mod.rs:189-232 | the token and new cursor are those of ScanString |
| Lexing.Lexer.NextToken | src/lexer/mod.rs:31-74 | the token and new cursor are those of Scan |
| Lexing.Lexer.SkipComment | src/lexer/mod.rs:248-257 | a comment is skipped to the end of its line, then the next token is scanned |
| Lexing.Lexer.Next | src/lexer/mod.rs:259-269 | the iterator yields the scanned token, or nothing at end-of-file |
| LexerProperties.ScanWhileStops | src/lexer/mod.rs:87-188 | a class loop stops exactly at the first character outside the class |
| LexerProperties.SkipSpaceStops | src/lexer/mod.rs:242-246 | whitespace skipping stops exactly at the first character that is not whitespace |
| LexerProperties.EndIsEof | src/lexer/mod.rs:31-37 | input that is whitespace to its end yields end-of-file, one character wide, just past the end |
| LexerProperties.CommentToLineEnd | src/lexer/mod.rs:248-257 | a comment runs to the end of its line: what follows is scanned as if the comment were not there |
| LexerProperties.IllegalIsOneChar | src/lexer/mod.rs:55-71 | an illegal token is one character wide and holds that character, one no token may start with |
| LexerProperties.EscapeChar | src/lexer/mod.rs:196-224 | a character is written as one or two characters of source text |
| LexerProperties.Escape | src/lexer/mod.rs:196-224 | an escaped text is at least as long as the text |
| LexerProperties.EscapeCharRead | src/lexer/mod.rs:196-224 | the escape of a character, followed by more text, is read back as that character |
| LexerProperties.NoNulTail | src/lexer/mod.rs:196-224 | dropping the first character of a NUL-free text leaves a NUL-free text |
| LexerProperties.SplitAt | src/lexer/mod.rs:196-224 | text known to be a concatenation at a position holds each part in turn |
| LexerProperties.EscapeRoundTrip | src/lexer/mod.rs:196-224 | the string loop reads an escaped text back as the original text and stops at the quote after it |
| LexerProperties.StringLiteralRoundTrip | src/lexer/mod.rs:189-232 | a quoted, escaped string is one string token holding the original text, spanning both quotes |
| LexerProperties.UnterminatedStringBody | src/lexer/mod.rs:196-224 | a string with no closing quote runs to the end of the input |
| LexerProperties.UnterminatedString | src/lexer/mod.rs:189-232 | an unterminated string is a string token up to one past the end, and no error: end-of-file follows |
| LexerProperties.NumberClassified | src/lexer/mod.rs:87-162 | a number's token spans its text, and its kind is the one its prefix or decimal point calls for |
| LexerProperties.DigitsSlice | src/lexer/mod.rs:131-162 | a stretch of digits is a decimal numeral |
| LexerProperties.DecimalIsMaximal | src/lexer/mod.rs:131-162 | an integer token is all the digits there are, with no fraction after; a float token is digits, a point and digits, with no more digits after |
| LexerProperties.PunctuatorNotSpace | src/lexer/mod.rs:36-50 | no punctuator is whitespace or NUL |
| LexerProperties.ScanPunctuator | src/lexer/mod.rs:36-50 | a punctuator is read where the cursor stands as a one-character token of its kind, and the cursor moves one past it |
| LexerProperties.PunctuatorTokens | src/lexer/mod.rs:36-50 | one punctuator token per character |
| LexerProperties.PunctuatorsTokenize | src/lexer/mod.rs:259-269 | a text of punctuators tokenizes to one token per character, then end-of-file one past the end |
| LexerProperties.TokenizeEndsWithEof | src/lexer/mod.rs:259-269 | the token stream ends with its only end-of-file |
| LexerProperties.TokenizeStartsIncrease | src/lexer/mod.rs:31-74 | tokens start at strictly increasing positions from where the cursor began |
| Ast.Statement.Span | src/parser/ast.rs:57-102 | `Statement::span` returns, for every variant, the span the statement was built with |
| Parsing.At | src/parser/mod.rs:787-791 | past the last token the parser keeps seeing end-of-file |
| Parsing.NotLast | src/parser/mod.rs:787-791 | a token other than end-of-file always has a token after it |
| Parsing.DigitValue | src/parser/mod.rs:653-693 | a digit's value is below its radix |
| Parsing.FromStrRadix | src/parser/mod.rs:639-693 | a literal's value, when it parses, lies within i64 |
| Parsing.IntegerValue | src/parser/mod.rs:639-693 | an integer token of any radix parses only to a value within i64 |
| Parsing.ExprAt | src/parser/mod.rs:579-616 | an expression consumes at least one token and stops before the end-of-file is passed |
| Parsing.BinaryTail | src/parser/mod.rs:586-613 | the operator loop never moves back and never passes end-of-file |
| Parsing.PrimaryAt | src/parser/mod.rs:618-775 | a primary consumes at least one token and never passes end-of-file |
| Parsing.AddressAt | src/parser/mod.rs:728-752 | an address consumes at least its brackets' first token and never passes end-of-file |
| Parsing.PeekAt | src/parser/mod.rs:787-791 | `peek_token` is the token after the current one; once the final end-of-file is current it is a fresh end-of-file, empty, one character further on, as the lexer makes it on every call past the end |
| Parsing.ExpectAtAsWritten | src/parser/mod.rs:801-812 | `expect_cur` as written succeeds exactly on the expected kind, and otherwise reports `peek_token` (Parsing.PeekAt), the token after the current one |
| Parsing.ExpectAt | src/parser/mod.rs:801-812 | `expect_cur` succeeds exactly on the expected kind, moving one token on; otherwise it reports the current token |
| Parsing.OperandsAt | src/parser/mod.rs:215-535 | n operands parse to exactly n expressions, consuming tokens whenever n > 0 |
| Parsing.DbListAt | src/parser/mod.rs:543-558 | a `db` list has at least one value and consumes tokens |
| Parsing.Instruction | src/parser/mod.rs:211-541 | the statement built for an instruction carries the span it is given |
| Parsing.DirectiveStatement | src/parser/mod.rs:75-193 | the statement built for a directive carries the span it is given |
| Parsing.SectionAt | src/parser/mod.rs:135-166 | `.section` consumes exactly two tokens and spans both |
| Parsing.DirectiveAt | src/parser/mod.rs:75-193 | a directive consumes tokens and spans from its keyword to the last token consumed |
| Parsing.DirectiveOk | src/parser/mod.rs:75-193 | a directive whose operands parse is built from them, spanning from its keyword to the last operand token |
| Parsing.StackSizeAt | src/parser/mod.rs:257-261 | the optional size of push and pop never moves back nor passes end-of-file |
| Parsing.StackOpAt | src/parser/mod.rs:254-287 | push and pop consume tokens and span from the keyword to the last token consumed |
| Parsing.StackOpOk | src/parser/mod.rs:254-287 | push and pop with a parsed size and operand are built from them, spanning from the keyword to the operand's last token |
| Parsing.DbAt | src/parser/mod.rs:543-558 | `db` consumes tokens and spans from its keyword to the last token consumed |
| Parsing.OperandInstructionAt | src/parser/mod.rs:215-535 | an instruction with fixed operands consumes tokens and starts at its mnemonic |
| Parsing.OperandInstructionOk | src/parser/mod.rs:215-535 | an instruction whose operands parse is built from them, spanning from its mnemonic to the last operand token |
| Parsing.InstructionAt | src/parser/mod.rs:211-567 | an instruction consumes tokens and starts at its mnemonic |
| Parsing.StatementAt | src/parser/mod.rs:72-577 | every statement consumes at least one token, starts at its first token and never passes end-of-file |
| Parsing.Prefixed | src/parser/mod.rs:64-70 | items collected before the rest of a parse come first in its result, and its errors pass through |
| Parsing.PrefixedEmpty | src/parser/mod.rs:64-70 | nothing collected changes nothing |
| Parsing.PrefixedAssoc | src/parser/mod.rs:64-70 | collecting in two steps is collecting the concatenation |
| Parsing.PrefixedProgram | src/parser/mod.rs:64-70 | statements collected before the rest of a program come first in its result, and its errors pass through |
| Parsing.PrefixedProgramEmpty | src/parser/mod.rs:64-70 | nothing collected changes nothing |
| Parsing.PrefixedProgramAssoc | src/parser/mod.rs:64-70 | collecting in two steps is collecting the concatenation |
| ParserState.Parser.constructor | src/parser/mod.rs:52-62 | the parser stands on the first token, with the token window read from the lexer's tokens |
| ParserState.Parser.NextToken | src/parser/mod.rs:787-791 | the window moves exactly one token on |
| ParserState.Parser.ExpectCur | src/parser/mod.rs:801-812 | succeeds and moves one token on exactly when the current token has the expected kind, otherwise reports the current token (the corrected ExpectAt) |
| ParserState.Parser.ParseExpression | src/parser/mod.rs:579-581 | the result and the new position are those of ExprAt at precedence 0 |
| ParserState.Parser.ParseBinaryExpression | src/parser/mod.rs:583-616 | the result and the new position are those of ExprAt |
| ParserState.Parser.ParsePrimary | src/parser/mod.rs:618-775 | the result and the new position are those of PrimaryAt |
| ParserState.Parser.ParseLeaf | src/parser/mod.rs:620-727 | the one-token arms give the result and position of PrimaryAt |
| ParserState.Parser.ParseAddress | src/parser/mod.rs:728-752 | the result and the new position are those of AddressAt |
| ParserState.Parser.ParseOperands | src/parser/mod.rs:215-535 | the result and the new position are those of OperandsAt |
| ParserState.Parser.ParseDbList | src/parser/mod.rs:543-558 | the result and the new position are those of DbListAt |
| ParserState.Parser.ParseSection | src/parser/mod.rs:135-166 | the result and the new position are those of SectionAt |
| ParserState.Parser.ParseDirective | src/parser/mod.rs:75-193 | the result and the new position are those of DirectiveAt |
| ParserState.Parser.ParseStackOp | src/parser/mod.rs:254-287 | the result and the new position are those of StackOpAt |
| ParserState.Parser.ParseStackSize | src/parser/mod.rs:257-261 | the result and the new position are those of StackSizeAt |
| ParserState.Parser.ParseInstruction | src/parser/mod.rs:211-567 | the result and the new position are those of InstructionAt |
| ParserState.Parser.ParseDb | src/parser/mod.rs:543-558 | the result and the new position are those of DbAt |
| ParserState.Parser.ParseOperandInstruction | src/parser/mod.rs:215-535 | the result and the new position are those of OperandInstructionAt |
| ParserState.Parser.ParseStatement | src/parser/mod.rs:72-577 | the result and the new position are those of StatementAt |
| ParserState.Parser.Parse | src/parser/mod.rs:64-70 | the statements, or the first error, are those of ProgramAt |
| ParserProperties.TighterOperatorGroupsRight | src/parser/mod.rs:583-616 | in `a op1 b op2 c` with op2 binding tighter, the parse is `a op1 (b op2 c)`, consumes all five tokens, and each node's span runs from its left operand's start to its right operand's end |
| ParserProperties.LooserOrEqualOperatorGroupsLeft | src/parser/mod.rs:583-616 | in `a op1 b op2 c` with op2 binding no tighter than op1, the parse is `(a op1 b) op2 c`, so operators of equal precedence associate to the left |
| ParserProperties.AddressWithoutOffset | src/parser/mod.rs:728-752 | `[ x ]` parses to an address with base x and no offset, consuming three tokens |
| ParserProperties.AddressWithOffset | src/parser/mod.rs:728-752 | `[ x , y ]` parses to an address with base x and offset y, consuming five tokens |
| ParserProperties.AddressUnclosed | src/parser/mod.rs:728-752 | `[ x` followed by end of input is rejected with "expected `]`" naming the end-of-input token |
| ParserProperties.LabelIff | src/parser/mod.rs:194-210 | a statement starting with an identifier parses exactly when a colon follows; it is then a label carrying the identifier's text and spanning both tokens, and otherwise the identifier is reported as unexpected |
| ParserProperties.SectionIff | src/parser/mod.rs:135-166 | `section` parses exactly when followed by a section-name token spelled `text` or `data`; a token of any other kind is rejected with "expected section name" |
| ParserProperties.UppercaseSectionNameRejected | src/parser/mod.rs:135-166 | `TEXT` is lexed as a section name but rejected by the parser, which reports that token as unexpected |
| ParserProperties.RegisterOperandIff | src/parser/mod.rs:625-638 | a register token parses to register r exactly when its text is r's name; any failure reports that token as unexpected |
| ParserProperties.UppercaseRegisterRejected | src/parser/mod.rs:625-638 | `Q0` is lexed as a register token but the parser rejects it as unexpected, since register names are lower case |
| ParserProperties.NoRegisterQ0 | src/vm/register.rs:231-260 | no register is named `Q0` |
| ParserProperties.PushWithSize | src/parser/mod.rs:254-270 | `push SIZE x` parses to a push with that size and operand x, spanning from the mnemonic to the operand |
| ParserProperties.PushWithoutSize | src/parser/mod.rs:254-270 | `push x` parses to a push without size and operand x |
| ParserProperties.DbIdentifierList | src/parser/mod.rs:543-558 | a comma-separated list of n identifiers parses to exactly those n operands in order and stops on the token after the last one |
| ParserProperties.IdsCons | src/parser/mod.rs:543-558 | the operand list of n identifiers is the first identifier followed by the list of the remaining n - 1 |
| ParserProperties.DbListShift | src/parser/mod.rs:543-558 | the shape conditions of a list of n identifiers hold for the list of n - 1 starting two tokens later |
| ParserProperties.DigitChar | src/parser/mod.rs:639-693 | a digit character is never a sign character |
| ParserProperties.DigitCharValue | src/parser/mod.rs:639-693 | the digit character for d reads back as d in any radix above d |
| ParserProperties.ToDigits | src/parser/mod.rs:639-693 | the numeral of a number is non-empty and does not start with a sign |
| ParserProperties.DigitsRoundTrip | src/parser/mod.rs:639-693 | reading the numeral of n in radix r gives back n |
| ParserProperties.BadDigitRejected | src/parser/mod.rs:639-693 | a digit string containing any character that is not a digit of the radix has no value |
| ParserProperties.FromStrRadixNumeral | src/parser/mod.rs:639-693 | the 64-bit radix parse accepts a numeral, with an optional `+` or `-`, exactly when its value fits in a signed 64-bit integer, and returns that value with the sign applied |
| ParserProperties.IntegerToken | src/parser/mod.rs:639-693 | a decimal, hexadecimal, binary or octal token whose digits spell n parses to the integer n when n fits in a signed 64-bit integer and is rejected as unexpected otherwise |
| ParserProperties.BadDigitToken | src/parser/mod.rs:653-693 | a hexadecimal, binary or octal token with a character outside its radix after the prefix is rejected as unexpected |
| ParserProperties.StartsIncreaseFar | src/lexer/mod.rs:31-74 | when token starts increase from each token to the next, every earlier token starts before every later one |
| ParserProperties.ProgramInSourceOrder | src/parser/mod.rs:64-70 | over tokens in source order, a parsed program's statements start no earlier than the first token and in strictly increasing order of their start offsets |
| ParserProperties.LexedProgramInSourceOrder | src/parser/mod.rs:64-70 | the lexer's output is a well-formed token stream, and any program parsed from it lists its statements in strictly increasing source order |
| ParserProperties.ExpectBlamesFollowingToken | src/parser/mod.rs:801-812 | over tokens in source order, as written a failed expectation reports `peek_token` (the next token, or the fresh end-of-file past the final one), never the current token; the corrected ExpectAt reports the current token |
| ParserProperties.MissingCommaAtEnd | src/parser/mod.rs:801-812 | `mov q0` with the comma missing: as written the error names an end-of-file at 7..8, one past the current end-of-file at 6..7, which the corrected ExpectAt names |
| Substitution.Checked | src/preprocessor/mod.rs:575-577 | an exact integer result is kept exactly when it lies in the signed 64-bit range, where the Rust `i64` operators would otherwise panic on overflow |
| Substitution.TruncDivRemainder | src/preprocessor/mod.rs:578 | the quotient of `i64` division leaves a remainder smaller than the divisor in magnitude and carrying the dividend's sign (division rounds toward zero) |
| Substitution.TruncDivExample | src/preprocessor/mod.rs:578 | `-7 / 2` folds to -3, unlike Euclidean division's -4 |
| Substitution.Bitwise | src/preprocessor/mod.rs:579-581 | the folded `|`, `&` and `^` of two `i64` values has as two's-complement bits the bitwise operation of their bits |
| Substitution.AndMinusOne | src/preprocessor/mod.rs:580 | `x & -1` folds to x |
| Substitution.FoldIntArithmetic | src/preprocessor/mod.rs:575-577 | `+`, `-` and `*` of two integer literals fold to the exact result exactly when it fits in an `i64` |
| Substitution.FoldIntDivision | src/preprocessor/mod.rs:578 | `/` of two integer literals folds exactly when the divisor is non-zero and the quotient is not the one overflowing case `i64::MIN / -1`, to the quotient rounded toward zero |
| Substitution.QuotientBound | src/preprocessor/mod.rs:578 | a quotient by 1 is the dividend and by anything larger is at most half of it |
| Substitution.Fold | src/preprocessor/mod.rs:570-601 | two integer or two float literals fold to a literal or fail with a panic or the float-operator error; any other pair of operands stays the same binary operation with the same span |
| Substitution.Substitute | src/preprocessor/mod.rs:546-604 | a successful substitution leaves no defined identifier in the expression |
| Substitution.SubstituteExpr | src/preprocessor/mod.rs:546-604 | a successful substitution from the top leaves no defined identifier in the expression |
| Substitution.SubstituteExpanded | src/preprocessor/mod.rs:546-604 | an expression without defined identifiers and without foldable operations is returned unchanged |
| Substitution.SubstituteIdempotent | src/preprocessor/mod.rs:546-604 | substituting a successful result again gives the same result |
| Substitution.UndefinedIdentifierKept | src/preprocessor/mod.rs:548-554 | an identifier with no definition is kept as it is |
| Substitution.SelfReferenceRejected | src/preprocessor/mod.rs:548-554 | a name defined as itself is rejected as a recursive definition instead of recursing forever |
| Substitution.NestedDefinition | src/preprocessor/tests.rs:98-121 | with VALUE defined as 42 and DOUBLE_VALUE as VALUE, DOUBLE_VALUE expands through VALUE to 42 |
| Substitution.AddressSubstituted | src/preprocessor/mod.rs:555-563 | substitution reaches both the base and the offset of an address |
| Substitution.IntegerOperandsFold | src/preprocessor/mod.rs:570-583 | a binary operation on two integer literals becomes the `i64` result, or fails where the Rust operator panics |
| Substitution.FloatBitwiseRejected | src/preprocessor/mod.rs:584-598 | a bitwise operator on two float literals fails with the float-operator error at the operation's span |
| Substitution.MixedOperandsKept | src/preprocessor/mod.rs:600 | operands that are not both integer or both float literals stay a binary operation |
| Substitution.SubstituteAll | src/preprocessor/mod.rs:346-355 | every expression of a list substituted in order: on success each element is the substitution of the matching input, on failure the error is that of one of the inputs |
| Substitution.WithOperandsRoundTrip | src/preprocessor/mod.rs:205-363 | rebuilding a statement with new operands keeps its kind and span, and reading the operands back gives the new ones; rebuilding with its own operands gives the statement back |
| Substitution.RoundTripThree | src/preprocessor/mod.rs:276-329 | the operand round trip for the three-operand ALU statements |
| Substitution.RoundTripTwo | src/preprocessor/mod.rs:226-257 | the operand round trip for `#define`, `mov`, `ldr`, `str` and `cmp` |
| Substitution.RoundTripOneDirective | src/preprocessor/mod.rs:208-241 | the operand round trip for `#error`, `#include`, the conditionals, `entry`, `ascii` and `asciz` |
| Substitution.RoundTripJump | src/preprocessor/mod.rs:333-339 | the operand round trip for the jumps |
| Substitution.RoundTripOneInstruction | src/preprocessor/mod.rs:340-356 | the operand round trip for `call`, `inc`, `dec` and `resb` |
| Substitution.RoundTripSized | src/preprocessor/mod.rs:258-275 | the operand round trip for `push` and `pop` with their optional size |
| Substitution.RoundTripNone | src/preprocessor/mod.rs:207-345 | statements without operands round-trip unchanged |
| Conditionals.Frame | src/preprocessor/mod.rs:372-412 | the frame `#ifdef NAME` opens holds exactly when NAME is defined and that of `#ifndef NAME` exactly when it is not; a new frame has seen no `#else` and carries the directive's span |
| Conditionals.SubsequenceMembers | src/preprocessor/mod.rs:442-448 | every statement of a subsequence of the input is a statement of the input |
| Conditionals.ActivePush | src/preprocessor/mod.rs:470-483 | a statement is included under one more frame exactly when it was included before and that frame is in its active branch |
| Conditionals.RunAppend | src/preprocessor/mod.rs:370-449 | the pass over two lists one after the other is the pass over the second from where the first left off, stopping at the first error |
| Conditionals.RunPlain | src/preprocessor/mod.rs:442-448 | statements that are not conditionals are all kept when every open frame is active and all dropped otherwise, leaving the frames alone |
| Conditionals.ConditionalsIdentity | src/preprocessor/mod.rs:365-468 | a program without conditionals comes out of the pass unchanged |
| Conditionals.RunKeptPrefix | src/preprocessor/mod.rs:370-449 | the statements kept before the pass starts stay in front of those it keeps, and do not change whether or how it fails |
| Conditionals.ConditionalsAfter | src/preprocessor/mod.rs:451-467 | finishing the pass with statements already kept puts them in front of the pass's result, or passes its error through |
| Conditionals.StepThen | src/preprocessor/mod.rs:370-449 | the pass over a statement followed by the rest is one loop iteration followed by the pass over the rest |
| Conditionals.PlainThen | src/preprocessor/mod.rs:442-448 | a run of non-conditional statements at the front is kept or dropped as a whole, then the pass goes on with the rest |
| Conditionals.StepOpen | src/preprocessor/mod.rs:372-412 | `#ifdef` or `#ifndef` with a name pushes its frame and keeps nothing |
| Conditionals.StepElse | src/preprocessor/mod.rs:413-431 | `#else` on a frame that has not seen one marks that frame only |
| Conditionals.StepEndIf | src/preprocessor/mod.rs:432-441 | `#endif` pops the innermost frame |
| Conditionals.OpenBranch | src/preprocessor/mod.rs:372-448 | after `#ifdef`/`#ifndef` the statements of its first branch are kept exactly when the enclosing frames and its condition all hold |
| Conditionals.ElseBranch | src/preprocessor/mod.rs:413-448 | after `#else` the statements up to `#endif` are kept exactly when the enclosing frames hold and the condition failed, and the frame is closed |
| Conditionals.BlockRun | src/preprocessor/mod.rs:370-449 | a whole `#ifdef`/`#else`/`#endif` block keeps its first branch when the condition holds and its second when it fails (under active enclosing frames), and leaves the frames as they were |
| Conditionals.OutermostChoice | src/preprocessor/mod.rs:470-483 | with no enclosing frames, a block keeps exactly the branch its condition selects |
| Conditionals.IfDefElseSelects | src/preprocessor/tests.rs:466-598 | `#ifdef NAME a #else b #endif` keeps a when NAME is defined and b otherwise, followed by the rest's result |
| Conditionals.IfNDefElseSelects | src/preprocessor/tests.rs:466-598 | `#ifndef NAME a #else b #endif` keeps a when NAME is not defined and b otherwise |
| Conditionals.IfDefSelects | src/preprocessor/tests.rs:466-598 | `#ifdef NAME a #endif` keeps a when NAME is defined and nothing otherwise |
| Conditionals.ElseWithoutFrame | src/preprocessor/mod.rs:413-431 | `#else` with no open frame fails with the unmatched-`#else` error at its span |
| Conditionals.EndifWithoutFrame | src/preprocessor/mod.rs:432-441 | `#endif` with no open frame fails with the unmatched-`#endif` error at its span |
| Conditionals.ElseAfterElse | src/preprocessor/mod.rs:413-422 | a second `#else` on the same frame fails with the unmatched-`#else` error at the second one's span |
| Conditionals.SecondElse | src/preprocessor/mod.rs:413-422 | a block with two `#else` directives is rejected at the second |
| Conditionals.UnclosedInnermost | src/preprocessor/mod.rs:451-466 | a frame left open at the end fails with the unmatched-`#ifdef` or unmatched-`#ifndef` error of the innermost open directive, at its span |
| Conditionals.NonIdentifierCondition | src/preprocessor/mod.rs:372-412 | `#ifdef`/`#ifndef` on anything but a name fails with the invalid-condition error at its span |
| Conditionals.RunKeepsOrder | src/preprocessor/mod.rs:370-449 | the pass only appends: what was kept stays in front, and what it adds is a subsequence of its input, in input order, with no conditional directive |
| Conditionals.ConditionalsKeepOrder | src/preprocessor/mod.rs:365-468 | the pass's result is a subsequence of its input, in input order, holding no conditional directive and no statement that was not in the input |
| Conditionals.RunDepth | src/preprocessor/mod.rs:370-449 | after a successful pass the number of open frames is the starting number plus the opened minus the closed directives, and never went below zero along the way |
| Conditionals.AcceptedIsBalanced | src/preprocessor/mod.rs:451-467 | in an accepted program every `#ifdef`/`#ifndef` is closed by an `#endif`, and no prefix closes more than it opened |
| Preprocessing.CollectedAppend | src/preprocessor/mod.rs:174-198 | appending statements free of directives to a list free of `#define` and `#include` keeps it free of both |
| Preprocessing.Collect | src/preprocessor/mod.rs:174-198 | the first pass only adds to the set of included files, and its output holds no `#define` and no `#include` |
| Preprocessing.IncludeFile | src/preprocessor/mod.rs:485-533 | a successful include records the path as included and returns the included file's statements fully processed, with no directive left |
| Preprocessing.Preprocess | src/preprocessor/mod.rs:171-363 | `process` only adds to the set of included files, and its output holds no `#define`, `#include`, `#error` or conditional directive |
| Preprocessing.AfterCollect | src/preprocessor/mod.rs:201-362 | after the first pass, the conditional pass and the final pass leave no directive in the output |
| Preprocessing.RewriteStatement | src/preprocessor/mod.rs:206-357 | `#include` and the conditionals are dropped and nothing else is; `#error` fails with its string (or the fixed message when it has none) at its span; any other statement keeps its kind and span with each operand substituted, or fails with the error of one of its operands |
| Preprocessing.RewriteAll | src/preprocessor/mod.rs:205-362 | the final pass emits at most one statement per input statement and leaves no directive in a first-pass output |
| Preprocessing.RewriteFirst | src/preprocessor/mod.rs:205-362 | the final pass stops at the first statement that fails, with that statement's error; otherwise its output is that statement's result followed by the output for the rest |
| Preprocessing.RewriteDb | src/preprocessor/mod.rs:346-355 | `db` substitutes each value in order and fails with the first failure |
| Preprocessing.Preprocessor.constructor | src/preprocessor/mod.rs:156-165 | the preprocessor starts with the given program, definitions and included files: the host's default definitions and no included file for `new`, a copy of the parent's state for an include |
| Preprocessing.Preprocessor.Process | src/preprocessor/mod.rs:171-363 | consumes the program, and the result and the new definitions and included files are those of Preprocess |
| Preprocessing.Preprocessor.ProcessInclude | src/preprocessor/mod.rs:485-533 | the result and the new definitions and included files are those of IncludeFile; the own program is untouched |
| Preprocessing.Preprocessor.ProcessConditionals | src/preprocessor/mod.rs:365-468 | the loop with its stack of frames returns exactly the result of the conditional pass Conditionals |
| Preprocessing.Preprocessor.ShouldInclude | src/preprocessor/mod.rs:470-483 | the innermost-first scan of the frames answers true exactly when every open frame is in its active branch |
| Preprocessing.Preprocessor.Rewrite | src/preprocessor/mod.rs:205-362 | the final loop returns exactly RewriteAll of the statements |
| Preprocessing.Preprocessor.SubstituteEach | src/preprocessor/mod.rs:346-355 | the `db` loop returns exactly SubstituteAll of the values |
| PreprocessorProperties.CollectPrefix | src/preprocessor/mod.rs:174-198 | a leading run of plain statements and `#define NAME value` is handled by recording each definition in order, later ones overriding, and keeping the other statements |
| PreprocessorProperties.DefinesFirst | src/preprocessor/mod.rs:171-363 | for a program without includes, every `#define` is recorded before the conditional pass runs, and the rest of `process` works with all of them |
| PreprocessorProperties.AssignDefines | src/preprocessor/mod.rs:175-177 | a name is defined after the first pass exactly when it was defined before or some `#define` of the program names it |
| PreprocessorProperties.DefineKeyRejected | src/preprocessor/mod.rs:179-185 | a `#define` whose key is not a name fails with the invalid-key error at its span |
| PreprocessorProperties.IncludePathRejected | src/preprocessor/mod.rs:190-196 | an `#include` whose argument is not a string fails with the invalid-path error at its span |
| PreprocessorProperties.RewriteSingle | src/preprocessor/mod.rs:205-362 | the final pass over one statement is that statement's result |
| PreprocessorProperties.KeptNop | src/preprocessor/mod.rs:201-362 | a lone `nop` kept by the conditional pass comes out of the final pass unchanged |
| PreprocessorProperties.SplitDefinitions | src/preprocessor/mod.rs:174-198 | the first pass over two lists one after the other records the first list's definitions, then the second's |
| PreprocessorProperties.NoDefinitions | src/preprocessor/mod.rs:174-198 | a list without `#define` is kept whole and records nothing |
| PreprocessorProperties.OneDefinition | src/preprocessor/mod.rs:175-177 | `#define NAME value` emits nothing and binds NAME to value, replacing any earlier binding |
| PreprocessorProperties.DefineAfterIfdef | src/preprocessor/mod.rs:171-363 | `#ifdef X nop #endif #define X …` keeps the `nop`: a definition counts for a conditional even when it comes later in the file |
| PreprocessorProperties.DefinedLaterSelected | src/preprocessor/mod.rs:372-392 | `#ifdef X nop #endif` keeps the `nop` when X is defined |
| PreprocessorProperties.SkipDefinition | src/preprocessor/mod.rs:174-198 | a statement followed by a `#define` keeps the statement and records the definition |
| PreprocessorProperties.Unfold | src/preprocessor/mod.rs:174-198 | one step of the first pass: a `#define` is recorded and dropped, anything else is kept |
| PreprocessorProperties.DroppedBranchBody | src/preprocessor/mod.rs:174-198 | the first pass records a `#define` that sits inside an `#ifdef` branch, since it runs before the conditional pass |
| PreprocessorProperties.DroppedBranchSelected | src/preprocessor/mod.rs:365-468 | with the first name undefined and the second defined, the conditional pass keeps only the second block's `nop` |
| PreprocessorProperties.DefineInDroppedBranch | src/preprocessor/mod.rs:171-363 | a `#define B` inside a branch that is dropped still defines B for a later `#ifdef B` |
| PreprocessorProperties.ErrorDirectiveFails | src/preprocessor/mod.rs:208-216 | `#error "m"` fails with message m at its span |
| PreprocessorProperties.ErrorWithoutString | src/preprocessor/mod.rs:217-224 | `#error` with anything but a string fails with the fixed "Expected string literal" message |
| PreprocessorProperties.DroppedErrorSilent | src/preprocessor/tests.rs:600-613 | an `#error` in a dropped branch does not fire |
| PreprocessorProperties.RewriteStopsAtError | src/preprocessor/mod.rs:205-225 | an `#error` reached by the final pass fails with its message, whatever follows it |
| PreprocessorProperties.RewriteSettled | src/preprocessor/mod.rs:205-362 | a statement with no directive, no defined name and nothing foldable in its operands is emitted unchanged |
| PreprocessorProperties.RewriteGivesSettled | src/preprocessor/mod.rs:205-362 | every statement the final pass emits has no defined name and nothing foldable left |
| PreprocessorProperties.RewriteAllSettled | src/preprocessor/mod.rs:205-362 | the final pass leaves a list of such statements unchanged |
| PreprocessorProperties.RewriteAllGivesSettled | src/preprocessor/mod.rs:205-362 | every statement of the final pass's output has no defined name and nothing foldable left |
| PreprocessorProperties.RewriteKeepsBoth | src/preprocessor/mod.rs:205-362 | if the first statement and the rest each come out unchanged, so does the whole list |
| PreprocessorProperties.SettledTail | src/preprocessor/mod.rs:205-362 | a settled list's head and tail are settled |
| PreprocessorProperties.SettledAppend | src/preprocessor/mod.rs:205-362 | two settled lists make a settled list |
| PreprocessorProperties.RewriteIdempotent | src/preprocessor/mod.rs:205-362 | running the final pass on its own output gives that output again |
| PreprocessorProperties.OutputSettled | src/preprocessor/mod.rs:171-363 | no statement of a processed program holds a name the preprocessor ends up defining, nor a foldable operation |
| PreprocessorProperties.IncludeMissing | src/preprocessor/mod.rs:495-499 | including a path that is not there fails with the file-not-found error naming the path |
| PreprocessorProperties.IncludeSelf | src/preprocessor/mod.rs:501-508 | a file that includes itself fails with the circular-include error at its own `#include` |
| PreprocessorProperties.IncludeCycle | src/preprocessor/tests.rs:379-421 | when a includes b and b includes a, processing a fails with the circular-include error at b's `#include` |
| PreprocessorProperties.IncludeTwice | src/preprocessor/mod.rs:501-516 | including the same file twice fails at the second `#include`, since the included paths are never forgotten |
| PreprocessorProperties.IncludeOneDefinition | src/preprocessor/mod.rs:520-533 | a definition made in an included file emits nothing and becomes a definition of the includer |
| PreprocessorProperties.MovSubstituted | src/preprocessor/tests.rs:20-43 | `mov r, NAME` with NAME defined as an integer becomes `mov r, value` |
| PreprocessorProperties.IncludedDefinitionVisible | src/preprocessor/tests.rs:208-261 | a name defined in an included file is substituted in the includer's statements after the `#include` |
| PreprocessorProperties.RegisterKept | src/preprocessor/mod.rs:564 | a register operand is never substituted |

## Left out

- **Floating point.**
  - Float and double immediates keep their raw IEEE bit patterns, so moves, memory reads and writes, and push/pop of float values are exact.
  - Anything that needs float arithmetic or a float/integer conversion ends in a `FloatNotModelled` outcome, in both the VM (`VmErrors`) and the compiler (`Lowering`).
  - The parser reads float literals through a `FloatReader` parameter.
  - The preprocessor folds float operations through a `FloatArith` parameter.
- **Syscalls.** The host calls in src/vm/syscall.rs are foreign code. `Machine.Execute` keeps the dispatch rule: the index in `q15` selects one of the four syscalls, and any other index fails with `UnknownSyscall`. A known syscall stops `Machine.Run` with `AtSyscall(index)` and does not perform it.
- **raylib.** The raylib example under _examples is a wrapper over a C library that is not part of this model.
- **Include files.**
  - Include-directory search, file reading and parsing the included text are I/O. Included files are a map from path to their parsed statements (`Preprocessing.Files`).
  - The paths recorded as included are the paths as written, not the resolved ones.
  - `IncludeReadError` and parse errors inside an included file are not modelled.
  - `with_include_paths` only sets the search directories and is not modelled.
- **Not part of this model.** src/preprocessor/utils.rs depends on host architecture and OS constants. src/main.rs is command-line plumbing.
- **Diagnostics.** miette diagnostics (`NamedSource`, labels, source snippets) are left out. Errors are plain datatype values that keep the fields the code computes, such as the offending token or span, with one exception: the error for a token of the wrong kind where `expect_cur` runs names that token, not the one after it (see Findings and the parser lines below).
- **Capacity hints.** `Bytecode::new`'s capacity only sizes the initial allocation, so the model has no parameter for it.
- **Panics as error values.** Where the Rust code panics or never returns, the model returns an explicit error value instead of demanding a precondition, so every input still has a defined outcome:
  - `Machine.Execute`: a `wrapping_div` by zero gives `DivisionByZero`.
  - `Substitution.Fold`: an `i64` overflow or a division by zero while folding gives `FoldPanic`. This is the debug-build behaviour; a release build would wrap.
  - `Substitution.Substitute`: a self-referential `#define` gives `RecursiveDefine`, where the Rust recursion never ends.
  - `Compiler.ResbStep`: `resb` with a negative count gives `CapacityOverflow`.
- **Address arithmetic.** `base + offset` in the VM is computed on unbounded integers, so an address past the memory's end fails its bounds check, where Rust overflows the `u64` sum.
- **Running to the end.**
  - `Machine.Run` and `Vm.VM.Run` take a fuel bound and stop with `OutOfFuel` when it runs out.
  - The source's `while !halted` loop has no bound, so a program that never halts is not modelled beyond its fuel.
- **Fixup order.** The fixup pass drains a hash map in an unspecified order. The model proves the output independent of that order. When several fixups fail, it states only that the error is that of one of them.
- **`Bytecode.Bytecode.WriteAt`** requires the patched range to lie inside the section. The source's slice indexing panics otherwise, and the compiler only patches inside its own placeholders.
- **Lexer character set.**
  - The input is a sequence of characters. The difference between `chars().nth` and byte slicing on non-ASCII text is not modelled.
  - `char::is_alphabetic` and `is_alphanumeric` are modelled on the ASCII letters and digits only.
- **Opcode numbering.** The opcode enum is declared in a file that is not part of this model. Opcodes are a datatype with an injective byte encoding (`Opcodes`).
- **Fetch contracts.**
  - `Machine.FetchByte`: states only where the read leaves ip. The byte read follows from `Machine.FetchBytes` and the `Encoding` lemmas.
  - `Machine.FetchQWord`: states only where the read leaves ip. The value is stated by `Machine.FetchBytes` and `Encoding.FetchQWordAt`.
  - `Machine.FetchRegister`: states only where the read leaves ip. The decoded register is stated by `Encoding.FetchRegisterAt`.
  - `Machine.FetchSize`: states only where the read leaves ip. The decoded size is stated by `Encoding.FetchSizeAt`.
  - `Machine.FetchAddress`: states only where the read leaves ip. The decoded address is stated by `Encoding.FetchAddressAt`.
  - `Machine.FetchOperand`: states only where the read leaves ip. The decoded operand is stated by the `Encoding` lemmas.
  - `Machine.FetchThree`: states only where the read leaves ip. The decoded operands are stated by the `Encoding` lemmas.
- **Decoding before executing.** The model decodes a whole instruction and then executes it, where `step` interleaves the two. A register value `step` reads before the end of the instruction is read through `Machine.ReadBack`, so ip shows where decoding stood and every result matches. Only the failure paths differ:
  - `Machine.AccessMemory`: when a register base fails `as_u64`, the source fails before reading the offset. The model first decodes the offset. If the offset bytes run past memory, the model reports that instead, and a base failure is reported with ip past the whole instruction. Both cases need a float in a base register, which is where the model's float gap already lies.
  - `Machine.Execute`: the same failure order as `Machine.AccessMemory`, for the ldr, str, push and pop arms.
  - `Machine.Step`: the same, for the state a failed step leaves.
  - `Machine.Run`: the same, for the state a faulted run leaves.
- **The corrected rules the pipeline runs.** Each row of Findings has a member for the code as written and a corrected member, and the rest of the model is built on the corrected one. So these members promise the corrected behaviour where the source differs. The as-written behaviour is stated by the members named in Findings.
  - `Machine.Execute`: JGT uses `Machine.Taken`, which does not jump after an equal compare. As written it jumps (`Machine.TakenAsWritten`). Every other condition agrees, which `Machine.Taken`'s contract states.
  - `Machine.Step`: runs JGT as `Machine.Execute` does.
  - `Machine.Run`: runs JGT as `Machine.Execute` does.
  - `Vm.VM.ExecuteJump`: runs JGT as `Machine.Execute` does.
  - `Vm.VM.Execute`: runs JGT as `Machine.Execute` does.
  - `Vm.VM.Step`: runs JGT as `Machine.Execute` does.
  - `Vm.VM.Run`: runs JGT as `Machine.Execute` does.
  - `VmProperties.ExecuteJump`: states the corrected JGT rule.
  - `VmProperties.JumpFollowsCompare`: states the corrected rule, so JGT after CMP jumps exactly when lhs > rhs. As written it jumps when lhs >= rhs (`VmProperties.JgtAsWrittenJumpsOnEqual`).
  - `VmProperties.CompareThenJump`: built on `VmProperties.JumpFollowsCompare`, with the same correction.
  - `Lowering.LowerPush`: `push SIZE label` emits a placeholder of SIZE's own width, where the source always emits 8 bytes (`Lowering.PushLabelAsWritten`). A `push [address]` without a size emits a QWord size byte, where the source emits none (`Lowering.PushAddressAsWritten`).
  - `Compiler.Instruction`: lowers push through `Lowering.LowerPush`, with the same two corrections.
  - `Compiler.InstructionSound`: proved of the corrected push lowering. As written, the two push forms above do not decode back (`Lowering.PushByteLabelMisaligned`, `Lowering.PushAddressAsWrittenMisdecoded`).
  - `Compiler.Compiler.CompileStatement`: emits the corrected push forms.
  - `Compiler.Compiler.Compile`: emits the corrected push forms.
  - `Parsing.OperandsAt`: a missing comma between operands is reported on the offending token (`Parsing.ExpectAt`). As written `expect_cur` reports the token after it (`Parsing.ExpectAtAsWritten`). Successful parses are unaffected.
  - `Parsing.OperandInstructionAt`: reports a missing comma as `Parsing.OperandsAt` does.
  - `Parsing.InstructionAt`: reports a missing comma as `Parsing.OperandsAt` does.
  - `Parsing.StatementAt`: reports a missing comma as `Parsing.OperandsAt` does.
  - `Parsing.ProgramAt`: reports a missing comma as `Parsing.OperandsAt` does.
  - `ParserState.Parser.ExpectCur`: reports the current token, as `Parsing.ExpectAt` does.
  - `ParserState.Parser.ParseOperands`: reports a missing comma as `Parsing.OperandsAt` does.
  - `ParserState.Parser.ParseOperandInstruction`: the same.
  - `ParserState.Parser.ParseInstruction`: the same.
  - `ParserState.Parser.ParseStatement`: the same.
  - `ParserState.Parser.Parse`: the same.
- **Conditional pass ordering.** Definitions are collected before the conditional pass runs, exactly as in `process`. A `#define` inside a dropped branch therefore still defines its name; see `PreprocessorProperties.DefineInDroppedBranch`.
- **Including a file twice.** Including the same file twice, even without a cycle, fails with `CircularInclude`, because the set of included paths never shrinks; see `PreprocessorProperties.IncludeTwice`.

## Findings

| source | as written | input that shows it | evidently intended | confidence | as-written member | corrected member |
|---|---|---|---|---|---|---|
| src/vm/mod.rs:369-383 | `JGT` jumps when `!lt`, so it also jumps after an equal compare | `cmp` of 1337 with 1337, then `jgt`: the jump is taken | jump only when greater: `!lt && !eq` | not executed | Machine.TakenAsWritten, VmProperties.JgtAsWrittenJumpsOnEqual | Machine.Taken |
| src/compiler/mod.rs:697-706 | `push SIZE label` emits 8 placeholder bytes and a fixup of width SIZE, whatever SIZE is | `push byte lbl`: the VM decodes a 3-byte push and then runs the 7 leftover zero bytes as instructions | a placeholder of the size's own width | not executed | Lowering.PushLabelAsWritten, Lowering.PushByteLabelMisaligned | Lowering.LowerPush, Lowering.PushLabelDecodes |
| src/compiler/mod.rs:580-657 | `push [address]` without a size emits the opcode and the address but no size byte, while the VM's `PushAddr` reads one | `push [b0]`: the first addressing byte is read as the size, and the decode runs one byte past the 11 emitted | a default size, as for `push label` (QWord) | not executed | Lowering.PushAddressAsWritten, Lowering.PushAddressAsWrittenMisdecoded | Lowering.PushAddressDefaultsToQWord |
| src/parser/mod.rs:801-812 | `expect_cur` reports the peek token when the current token has the wrong kind | `mov q0 1`, the comma missing: the error names the end of input after `1` instead of `1` | report the current token | not executed | Parsing.ExpectAtAsWritten, ParserProperties.ExpectBlamesFollowingToken, ParserProperties.MissingCommaAtEnd | Parsing.ExpectAt |
