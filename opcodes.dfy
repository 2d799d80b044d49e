/**
 * The instruction opcodes the VM dispatches on. The opcode enum itself
 * (src/compiler/opcode.rs) is not part of this model: its variants are the
 * ones `VM::step` matches, grouped by family, and the byte values below are
 * this model's own injective numbering in the order `step` lists them.
 */
module Opcodes {
  import opened Wrappers
  import opened Bits

  datatype ArithOp = Add | Sub | Mul | Div
  datatype BitOp = And | Or | Xor
  datatype ShiftOp = Shl | Shr

  /** The condition of a jump: JMP, JEQ, JNE, JLT, JGT, JLE, JGE. */
  datatype Cond = Always | IfEq | IfNe | IfLt | IfGt | IfLe | IfGe

  /** How the last operand is given: a register (`...RegRegReg`, `...Reg`) or an immediate. */
  datatype Form = RegForm | ImmForm

  datatype Opcode =
    | Nop
    | MovRegReg | MovRegImm
    | Ldr | Str
    | PushReg | PushImm | PushAddr
    | PopReg | PopAddr
    | Arith(aop: ArithOp, aform: Form)
    | Bitwise(bop: BitOp, bform: Form)
    | Shift(sop: ShiftOp, sform: Form)
    | CmpRegImm | CmpRegReg
    | Jump(cond: Cond, jform: Form)
    | CallImm | CallReg
    | Inc | Dec | Ret | Syscall | Hlt

  function FormBit(f: Form): nat { if f == RegForm then 0 else 1 }
  function FormAt(b: nat): Form requires b < 2 { if b == 0 then RegForm else ImmForm }

  function ArithIndex(op: ArithOp): nat
  {
    match op case Add => 0 case Sub => 1 case Mul => 2 case Div => 3
  }

  function BitIndex(op: BitOp): nat
  {
    match op case And => 0 case Or => 1 case Xor => 2
  }

  function ShiftIndex(op: ShiftOp): nat
  {
    match op case Shl => 0 case Shr => 1
  }

  function CondIndex(c: Cond): nat
  {
    match c
    case Always => 0 case IfEq => 1 case IfNe => 2 case IfLt => 3
    case IfGt => 4 case IfLe => 5 case IfGe => 6
  }

  /** `Opcode as u8`. */
  function OpcodeCode(op: Opcode): (b: byte)
    ensures b <= 50
  {
    match op
    case Nop => 0
    case MovRegReg => 1
    case MovRegImm => 2
    case Ldr => 3
    case Str => 4
    case PushReg => 5
    case PushImm => 6
    case PushAddr => 7
    case PopReg => 8
    case PopAddr => 9
    case Arith(a, f) => 10 + 2 * ArithIndex(a) + FormBit(f)
    case Bitwise(a, f) => 18 + 2 * BitIndex(a) + FormBit(f)
    case Shift(a, f) => 24 + 2 * ShiftIndex(a) + FormBit(f)
    case CmpRegImm => 28
    case CmpRegReg => 29
    case Jump(c, f) => 30 + 2 * CondIndex(c) + FormBit(f)
    case CallImm => 44
    case CallReg => 45
    case Inc => 46
    case Dec => 47
    case Ret => 48
    case Syscall => 49
    case Hlt => 50
  }

  /** `Opcode::try_from(u8)`. */
  function OpcodeFromCode(b: byte): (r: Option<Opcode>)
    ensures r.Some? <==> b <= 50
  {
    if b == 0 then Some(Nop)
    else if b == 1 then Some(MovRegReg)
    else if b == 2 then Some(MovRegImm)
    else if b == 3 then Some(Ldr)
    else if b == 4 then Some(Str)
    else if b == 5 then Some(PushReg)
    else if b == 6 then Some(PushImm)
    else if b == 7 then Some(PushAddr)
    else if b == 8 then Some(PopReg)
    else if b == 9 then Some(PopAddr)
    else if b < 18 then
      var k := b - 10;
      Some(Arith([Add, Sub, Mul, Div][k / 2], FormAt(k % 2)))
    else if b < 24 then
      var k := b - 18;
      Some(Bitwise([And, Or, Xor][k / 2], FormAt(k % 2)))
    else if b < 28 then
      var k := b - 24;
      Some(Shift([Shl, Shr][k / 2], FormAt(k % 2)))
    else if b == 28 then Some(CmpRegImm)
    else if b == 29 then Some(CmpRegReg)
    else if b < 44 then
      var k := b - 30;
      Some(Jump([Always, IfEq, IfNe, IfLt, IfGt, IfLe, IfGe][k / 2], FormAt(k % 2)))
    else if b == 44 then Some(CallImm)
    else if b == 45 then Some(CallReg)
    else if b == 46 then Some(Inc)
    else if b == 47 then Some(Dec)
    else if b == 48 then Some(Ret)
    else if b == 49 then Some(Syscall)
    else if b == 50 then Some(Hlt)
    else None
  }

  /** Decoding inverts the encoding, so the numbering is injective. */
  lemma OpcodeRoundTrip(op: Opcode)
    ensures OpcodeFromCode(OpcodeCode(op)) == Some(op)
  {
    match op
    case Arith(a, f) => ArithRoundTrip(a, f);
    case Bitwise(a, f) => BitwiseRoundTrip(a, f);
    case Shift(a, f) => ShiftRoundTrip(a, f);
    case Jump(c, f) => JumpRoundTrip(c, f);
    case _ =>
  }

  lemma ArithRoundTrip(a: ArithOp, f: Form)
    ensures OpcodeFromCode(OpcodeCode(Arith(a, f))) == Some(Arith(a, f))
  {
    var b := OpcodeCode(Arith(a, f));
    assert 10 <= b < 18;
    DivModUnique(b - 10, 2, ArithIndex(a), FormBit(f));
    assert [Add, Sub, Mul, Div][ArithIndex(a)] == a && FormAt(FormBit(f)) == f;
  }

  lemma BitwiseRoundTrip(a: BitOp, f: Form)
    ensures OpcodeFromCode(OpcodeCode(Bitwise(a, f))) == Some(Bitwise(a, f))
  {
    var b := OpcodeCode(Bitwise(a, f));
    assert 18 <= b < 24;
    DivModUnique(b - 18, 2, BitIndex(a), FormBit(f));
    assert [And, Or, Xor][BitIndex(a)] == a && FormAt(FormBit(f)) == f;
  }

  lemma ShiftRoundTrip(a: ShiftOp, f: Form)
    ensures OpcodeFromCode(OpcodeCode(Shift(a, f))) == Some(Shift(a, f))
  {
    var b := OpcodeCode(Shift(a, f));
    assert 24 <= b < 28;
    DivModUnique(b - 24, 2, ShiftIndex(a), FormBit(f));
    assert [Shl, Shr][ShiftIndex(a)] == a && FormAt(FormBit(f)) == f;
  }

  lemma JumpRoundTrip(c: Cond, f: Form)
    ensures OpcodeFromCode(OpcodeCode(Jump(c, f))) == Some(Jump(c, f))
  {
    var b := OpcodeCode(Jump(c, f));
    assert 30 <= b < 44;
    DivModUnique(b - 30, 2, CondIndex(c), FormBit(f));
    assert [Always, IfEq, IfNe, IfLt, IfGt, IfLe, IfGe][CondIndex(c)] == c && FormAt(FormBit(f)) == f;
  }

  lemma OpcodeCodeInjective(op1: Opcode, op2: Opcode)
    requires OpcodeCode(op1) == OpcodeCode(op2)
    ensures op1 == op2
  {
    OpcodeRoundTrip(op1);
    OpcodeRoundTrip(op2);
  }
}
