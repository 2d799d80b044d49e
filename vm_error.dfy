/** The VM's error taxonomy (`vm::Error`, src/vm/mod.rs). */
module VmErrors {
  datatype VmError =
    | InvalidOpcode(code: nat)
    | InvalidRegister(code: nat)
    | InvalidDataSize(code: nat)
    | UnknownAddressingVariant(code: nat)
    | InstructionPointerOutOfBounds(addr: nat)
    | StackOverflow
    | StackUnderflow
    | UnknownSyscall(index: nat)
    | ProgramTooSmall(length: nat)
    | InvalidEntryPoint(entryPoint: nat, programSize: nat)
    | ProgramTooLarge(programSize: nat, memorySize: nat)
      /** A step whose result needs floating-point arithmetic or a float/integer conversion; not modelled. */
    | FloatNotModelled
      /** An integer division by zero, where the source panics. */
    | DivisionByZero
}
