/**
 * The byte layout of instructions: a reference encoder for the decoded
 * instructions of module Machine, and the proof that `Decode` reads back
 * exactly what it writes. The compiler (src/compiler/mod.rs) emits this
 * layout; module Compiler is proved to emit `Encode` of what it compiles.
 */
module Encoding {
  import opened Wrappers
  import opened Bits
  import opened Immediates
  import opened Registers
  import opened Opcodes
  import opened Machine

  function EncodeRegister(r: Register): seq<byte> { [RegisterCode(r)] }

  /** An immediate as its width's little-endian bytes. */
  function EncodeImmediate(imm: Immediate): (bs: seq<byte>)
    ensures |bs| == SizeInBytes(ImmSize(imm))
  {
    LittleEndian(Pattern(imm), SizeInBytes(ImmSize(imm)))
  }

  /** The variant byte, the base (a register byte or a qword) and the qword offset. */
  function EncodeAddress(a: Address): seq<byte>
  {
    match a
    case RegisterBase(r, offset) => [ADDRESSING_VARIANT_1] + EncodeRegister(r) + LittleEndian(offset, 8)
    case AbsoluteBase(base, offset) => [ADDRESSING_VARIANT_2] + LittleEndian(base, 8) + LittleEndian(offset, 8)
  }

  function EncodeOperand(o: Operand): seq<byte>
  {
    match o
    case RegOperand(r) => EncodeRegister(r)
    case ImmOperand(imm) => EncodeImmediate(imm)
  }

  function FormOf(o: Operand): Form
  {
    if o.RegOperand? then RegForm else ImmForm
  }

  /** The opcode that introduces an instruction. */
  function OpcodeOf(i: Instr): Opcode
  {
    match i
    case INop => Nop
    case IMovReg(_, _) => MovRegReg
    case IMovImm(_, _) => MovRegImm
    case ILdr(_, _) => Ldr
    case IStr(_, _) => Str
    case IPushReg(_, _) => PushReg
    case IPushImm(_) => PushImm
    case IPushAddr(_, _) => PushAddr
    case IPopReg(_, _) => PopReg
    case IPopAddr(_, _) => PopAddr
    case IArith(op, _, _, rhs) => Arith(op, FormOf(rhs))
    case IBitwise(op, _, _, rhs) => Bitwise(op, FormOf(rhs))
    case IShift(op, _, _, rhs) => Shift(op, FormOf(rhs))
    case ICmp(_, rhs) => if rhs.RegOperand? then CmpRegReg else CmpRegImm
    case IJump(c, t) => Jump(c, FormOf(t))
    case ICall(t) => if t.RegOperand? then CallReg else CallImm
    case IInc(_) => Inc
    case IDec(_) => Dec
    case IRet => Ret
    case ISyscall => Syscall
    case IHlt => Hlt
  }

  /** The operand bytes that follow the opcode. */
  function EncodeOperands(i: Instr): seq<byte>
  {
    match i
    case IMovReg(dest, src) => EncodeRegister(dest) + EncodeRegister(src)
    case IMovImm(dest, imm) => EncodeRegister(dest) + EncodeImmediate(imm)
    case ILdr(dest, a) => EncodeRegister(dest) + EncodeAddress(a)
    case IStr(src, a) => EncodeRegister(src) + EncodeAddress(a)
    case IPushReg(size, src) => [SizeCode(size)] + EncodeRegister(src)
    case IPushImm(imm) => [SizeCode(ImmSize(imm))] + EncodeImmediate(imm)
    case IPushAddr(size, a) => [SizeCode(size)] + EncodeAddress(a)
    case IPopReg(size, dest) => [SizeCode(size)] + EncodeRegister(dest)
    case IPopAddr(size, a) => [SizeCode(size)] + EncodeAddress(a)
    case IArith(_, dest, lhs, rhs) => EncodeRegister(dest) + EncodeRegister(lhs) + EncodeOperand(rhs)
    case IBitwise(_, dest, lhs, rhs) => EncodeRegister(dest) + EncodeRegister(lhs) + EncodeOperand(rhs)
    case IShift(_, dest, lhs, rhs) => EncodeRegister(dest) + EncodeRegister(lhs) + EncodeOperand(rhs)
    case ICmp(lhs, rhs) => EncodeRegister(lhs) + EncodeOperand(rhs)
    case IJump(_, t) => EncodeOperand(t)
    case ICall(t) => EncodeOperand(t)
    case IInc(r) => EncodeRegister(r)
    case IDec(r) => EncodeRegister(r)
    case _ => []
  }

  function Encode(i: Instr): seq<byte>
  {
    [OpcodeCode(OpcodeOf(i))] + EncodeOperands(i)
  }

  /**
   * Instructions the layout can carry: an immediate operand has the width
   * the decoder will read for it (the destination's, or a qword for jump
   * and call targets), and bitwise and shift immediates need an integer
   * destination.
   */
  predicate WellFormed(i: Instr)
  {
    match i
    case IMovImm(dest, imm) => ImmSize(imm) == SizeOf(dest)
    case IArith(_, dest, _, rhs) => rhs.ImmOperand? ==> ImmSize(rhs.imm) == SizeOf(dest)
    case IBitwise(_, dest, _, rhs) => rhs.ImmOperand? ==> ImmSize(rhs.imm) == SizeOf(dest) && SizeOf(dest).IsInteger()
    case IShift(_, dest, _, rhs) => rhs.ImmOperand? ==> ImmSize(rhs.imm) == SizeOf(dest) && SizeOf(dest).IsInteger()
    case ICmp(lhs, rhs) => rhs.ImmOperand? ==> ImmSize(rhs.imm) == SizeOf(lhs)
    case IJump(_, t) => t.ImmOperand? ==> t.imm.QWordImm?
    case ICall(t) => t.ImmOperand? ==> t.imm.QWordImm?
    case _ => true
  }

  /** `bs` occurs in `mem` at `ip`. */
  predicate At(mem: seq<byte>, ip: nat, bs: seq<byte>)
  {
    ip + |bs| <= |mem| && mem[ip..ip + |bs|] == bs
  }

  lemma AtSplit(mem: seq<byte>, ip: nat, a: seq<byte>, b: seq<byte>)
    requires At(mem, ip, a + b)
    ensures At(mem, ip, a) && At(mem, ip + |a|, b)
  {
    assert mem[ip..ip + |a|] == (a + b)[..|a|];
    assert mem[ip + |a|..ip + |a| + |b|] == (a + b)[|a|..];
  }

  lemma FetchBytesAt(mem: seq<byte>, ip: nat, v: nat, n: nat)
    requires n > 0 && v < Pow256(n) && At(mem, ip, LittleEndian(v, n))
    ensures FetchBytes(mem, ip, n) == Fetched(ip + n, Ok(v))
  {
    DecodeEncode(v, n);
    DivModUnique(v, Pow256(n), 0, v);
    assert mem[ip..ip + n] == LittleEndian(v, n);
    assert FromLittleEndian(mem[ip..ip + n]) == v;
  }

  lemma FetchByteAt(mem: seq<byte>, ip: nat, b: byte)
    requires At(mem, ip, [b])
    ensures FetchByte(mem, ip) == Fetched(ip + 1, Ok(b))
  {
    Pow256Values();
    assert LittleEndian(b, 1) == [b];
    FetchBytesAt(mem, ip, b, 1);
  }

  lemma FetchQWordAt(mem: seq<byte>, ip: nat, v: u64)
    requires At(mem, ip, LittleEndian(v, 8))
    ensures FetchQWord(mem, ip) == Fetched(ip + 8, Ok(v))
  {
    Pow256Values();
    FetchBytesAt(mem, ip, v, 8);
  }

  lemma FetchRegisterAt(mem: seq<byte>, ip: nat, r: Register)
    requires At(mem, ip, EncodeRegister(r))
    ensures FetchRegister(mem, ip) == Fetched(ip + 1, Ok(r))
  {
    FetchByteAt(mem, ip, RegisterCode(r));
    RegisterCodeRoundTrip(r);
  }

  lemma FetchSizeAt(mem: seq<byte>, ip: nat, s: DataSize)
    requires At(mem, ip, [SizeCode(s)])
    ensures FetchSize(mem, ip) == Fetched(ip + 1, Ok(s))
  {
    FetchByteAt(mem, ip, SizeCode(s));
    SizeCodeRoundTrip(s);
  }

  lemma FetchImmediateAt(mem: seq<byte>, ip: nat, imm: Immediate)
    requires At(mem, ip, EncodeImmediate(imm))
    ensures FetchImmediate(mem, ip, ImmSize(imm)) == Fetched(ip + |EncodeImmediate(imm)|, Ok(imm))
  {
    FetchBytesAt(mem, ip, Pattern(imm), SizeInBytes(ImmSize(imm)));
  }

  lemma FetchAddressAt(mem: seq<byte>, ip: nat, a: Address)
    requires At(mem, ip, EncodeAddress(a))
    ensures FetchAddress(mem, ip) == Fetched(ip + |EncodeAddress(a)|, Ok(a))
  {
    match a
    case RegisterBase(r, offset) =>
      AtSplit(mem, ip, [ADDRESSING_VARIANT_1] + EncodeRegister(r), LittleEndian(offset, 8));
      AtSplit(mem, ip, [ADDRESSING_VARIANT_1], EncodeRegister(r));
      FetchByteAt(mem, ip, ADDRESSING_VARIANT_1);
      FetchRegisterAt(mem, ip + 1, r);
      FetchQWordAt(mem, ip + 2, offset);
    case AbsoluteBase(base, offset) =>
      AtSplit(mem, ip, [ADDRESSING_VARIANT_2] + LittleEndian(base, 8), LittleEndian(offset, 8));
      AtSplit(mem, ip, [ADDRESSING_VARIANT_2], LittleEndian(base, 8));
      FetchByteAt(mem, ip, ADDRESSING_VARIANT_2);
      FetchQWordAt(mem, ip + 1, base);
      FetchQWordAt(mem, ip + 9, offset);
  }

  lemma FetchOperandAt(mem: seq<byte>, ip: nat, o: Operand, width: DataSize)
    requires At(mem, ip, EncodeOperand(o))
    requires o.ImmOperand? ==> ImmSize(o.imm) == width
    ensures FetchOperand(mem, ip, FormOf(o), width) == Fetched(ip + |EncodeOperand(o)|, Ok(o))
  {
    match o
    case RegOperand(r) => FetchRegisterAt(mem, ip, r);
    case ImmOperand(imm) => FetchImmediateAt(mem, ip, imm);
  }

  lemma FetchThreeAt(mem: seq<byte>, ip: nat, dest: Register, lhs: Register, rhs: Operand, integerOnly: bool)
    requires At(mem, ip, EncodeRegister(dest) + EncodeRegister(lhs) + EncodeOperand(rhs))
    requires rhs.ImmOperand? ==> ImmSize(rhs.imm) == SizeOf(dest) && (integerOnly ==> SizeOf(dest).IsInteger())
    ensures FetchThree(mem, ip, FormOf(rhs), integerOnly) == Fetched(ip + 2 + |EncodeOperand(rhs)|, Ok((dest, lhs, rhs)))
  {
    AtSplit(mem, ip, EncodeRegister(dest) + EncodeRegister(lhs), EncodeOperand(rhs));
    AtSplit(mem, ip, EncodeRegister(dest), EncodeRegister(lhs));
    FetchRegisterAt(mem, ip, dest);
    FetchRegisterAt(mem, ip + 1, lhs);
    FetchOperandAt(mem, ip + 2, rhs, SizeOf(dest));
  }

  /** Instructions without operands take one byte; a jump or call to an address takes nine. */
  lemma EncodedLengths(c: Cond, target: u64)
    ensures |Encode(INop)| == |Encode(IRet)| == |Encode(ISyscall)| == |Encode(IHlt)| == 1
    ensures |Encode(IJump(c, ImmOperand(QWordImm(target))))| == 9
    ensures |Encode(ICall(ImmOperand(QWordImm(target))))| == 9
  {
    Pow256Values();
  }

  /** Decoding the encoding of a well-formed instruction gives it back and moves past it. */
  lemma DecodeEncoded(mem: seq<byte>, ip: nat, i: Instr)
    requires WellFormed(i) && At(mem, ip, Encode(i))
    ensures Decode(mem, ip) == Fetched(ip + |Encode(i)|, Ok(i))
  {
    AtSplit(mem, ip, [OpcodeCode(OpcodeOf(i))], EncodeOperands(i));
    FetchByteAt(mem, ip, OpcodeCode(OpcodeOf(i)));
    OpcodeRoundTrip(OpcodeOf(i));
    if i.IArith? || i.IBitwise? || i.IShift? || i.ICmp? {
      DecodeAluOperands(mem, ip + 1, i);
    } else if i.ILdr? || i.IStr? || i.IPushAddr? || i.IPopAddr? {
      DecodeMemoryOperands(mem, ip + 1, i);
    } else {
      DecodeOtherOperands(mem, ip + 1, i);
    }
  }

  lemma DecodeAluOperands(mem: seq<byte>, p: nat, i: Instr)
    requires i.IArith? || i.IBitwise? || i.IShift? || i.ICmp?
    requires WellFormed(i) && At(mem, p, EncodeOperands(i))
    ensures DecodeOperands(mem, p, OpcodeOf(i)) == Fetched(p + |EncodeOperands(i)|, Ok(i))
  {
    match i
    case IArith(op, dest, lhs, rhs) =>
      FetchThreeAt(mem, p, dest, lhs, rhs, false);
      DecodeArith(mem, p, op, dest, lhs, rhs, p + 2 + |EncodeOperand(rhs)|);
    case IBitwise(op, dest, lhs, rhs) =>
      FetchThreeAt(mem, p, dest, lhs, rhs, true);
      DecodeBitwise(mem, p, op, dest, lhs, rhs, p + 2 + |EncodeOperand(rhs)|);
    case IShift(op, dest, lhs, rhs) =>
      FetchThreeAt(mem, p, dest, lhs, rhs, true);
      DecodeShift(mem, p, op, dest, lhs, rhs, p + 2 + |EncodeOperand(rhs)|);
    case ICmp(lhs, rhs) => DecodeCmp(mem, p, lhs, rhs);
  }

  lemma DecodeMemoryOperands(mem: seq<byte>, p: nat, i: Instr)
    requires i.ILdr? || i.IStr? || i.IPushAddr? || i.IPopAddr?
    requires At(mem, p, EncodeOperands(i))
    ensures DecodeOperands(mem, p, OpcodeOf(i)) == Fetched(p + |EncodeOperands(i)|, Ok(i))
  {
    match i
    case ILdr(dest, a) => DecodeRegAddr(mem, p, dest, a, true);
    case IStr(src, a) => DecodeRegAddr(mem, p, src, a, false);
    case IPushAddr(size, a) => DecodeSizeAddr(mem, p, size, a, true);
    case IPopAddr(size, a) => DecodeSizeAddr(mem, p, size, a, false);
  }

  lemma DecodeOtherOperands(mem: seq<byte>, p: nat, i: Instr)
    requires !(i.IArith? || i.IBitwise? || i.IShift? || i.ICmp?)
    requires !(i.ILdr? || i.IStr? || i.IPushAddr? || i.IPopAddr?)
    requires WellFormed(i) && At(mem, p, EncodeOperands(i))
    ensures DecodeOperands(mem, p, OpcodeOf(i)) == Fetched(p + |EncodeOperands(i)|, Ok(i))
  {
    match i
    case INop =>
    case IRet =>
    case ISyscall =>
    case IHlt =>
    case IMovReg(dest, src) => DecodeMovReg(mem, p, dest, src);
    case IMovImm(dest, imm) => DecodeMovImm(mem, p, dest, imm);
    case IPushReg(size, src) => DecodeSizeReg(mem, p, size, src, true);
    case IPushImm(imm) => DecodePushImm(mem, p, imm);
    case IPopReg(size, dest) => DecodeSizeReg(mem, p, size, dest, false);
    case IJump(c, t) => DecodeJump(mem, p, c, t);
    case ICall(t) => DecodeCall(mem, p, t);
    case IInc(r) => DecodeIncDec(mem, p, r, true);
    case IDec(r) => DecodeIncDec(mem, p, r, false);
  }

  lemma DecodeMovReg(mem: seq<byte>, p: nat, dest: Register, src: Register)
    requires At(mem, p, EncodeRegister(dest) + EncodeRegister(src))
    ensures DecodeOperands(mem, p, MovRegReg) == Fetched(p + 2, Ok(IMovReg(dest, src)))
  {
    AtSplit(mem, p, EncodeRegister(dest), EncodeRegister(src));
    FetchRegisterAt(mem, p, dest);
    FetchRegisterAt(mem, p + 1, src);
  }

  lemma DecodeMovImm(mem: seq<byte>, p: nat, dest: Register, imm: Immediate)
    requires ImmSize(imm) == SizeOf(dest)
    requires At(mem, p, EncodeRegister(dest) + EncodeImmediate(imm))
    ensures DecodeOperands(mem, p, MovRegImm) == Fetched(p + 1 + |EncodeImmediate(imm)|, Ok(IMovImm(dest, imm)))
  {
    AtSplit(mem, p, EncodeRegister(dest), EncodeImmediate(imm));
    FetchRegisterAt(mem, p, dest);
    FetchImmediateAt(mem, p + 1, imm);
  }

  lemma DecodeRegAddr(mem: seq<byte>, p: nat, r: Register, a: Address, load: bool)
    requires At(mem, p, EncodeRegister(r) + EncodeAddress(a))
    ensures DecodeOperands(mem, p, if load then Ldr else Str) ==
      Fetched(p + 1 + |EncodeAddress(a)|, Ok(if load then ILdr(r, a) else IStr(r, a)))
  {
    AtSplit(mem, p, EncodeRegister(r), EncodeAddress(a));
    FetchRegisterAt(mem, p, r);
    FetchAddressAt(mem, p + 1, a);
  }

  lemma DecodeSizeAddr(mem: seq<byte>, p: nat, size: DataSize, a: Address, push: bool)
    requires At(mem, p, [SizeCode(size)] + EncodeAddress(a))
    ensures DecodeOperands(mem, p, if push then PushAddr else PopAddr) ==
      Fetched(p + 1 + |EncodeAddress(a)|, Ok(if push then IPushAddr(size, a) else IPopAddr(size, a)))
  {
    AtSplit(mem, p, [SizeCode(size)], EncodeAddress(a));
    FetchSizeAt(mem, p, size);
    FetchAddressAt(mem, p + 1, a);
  }

  lemma DecodeSizeReg(mem: seq<byte>, p: nat, size: DataSize, r: Register, push: bool)
    requires At(mem, p, [SizeCode(size)] + EncodeRegister(r))
    ensures DecodeOperands(mem, p, if push then PushReg else PopReg) ==
      Fetched(p + 2, Ok(if push then IPushReg(size, r) else IPopReg(size, r)))
  {
    AtSplit(mem, p, [SizeCode(size)], EncodeRegister(r));
    FetchSizeAt(mem, p, size);
    FetchRegisterAt(mem, p + 1, r);
  }

  lemma DecodePushImm(mem: seq<byte>, p: nat, imm: Immediate)
    requires At(mem, p, [SizeCode(ImmSize(imm))] + EncodeImmediate(imm))
    ensures DecodeOperands(mem, p, PushImm) == Fetched(p + 1 + |EncodeImmediate(imm)|, Ok(IPushImm(imm)))
  {
    AtSplit(mem, p, [SizeCode(ImmSize(imm))], EncodeImmediate(imm));
    FetchSizeAt(mem, p, ImmSize(imm));
    FetchImmediateAt(mem, p + 1, imm);
  }

  /** The three ALU families read their operands with `FetchThree` and nothing else. */
  lemma DecodeArith(mem: seq<byte>, p: nat, op: ArithOp, dest: Register, lhs: Register, rhs: Operand, q: nat)
    requires FetchThree(mem, p, FormOf(rhs), false) == Fetched(q, Ok((dest, lhs, rhs)))
    ensures DecodeOperands(mem, p, Arith(op, FormOf(rhs))) == Fetched(q, Ok(IArith(op, dest, lhs, rhs)))
  {
    var f := FormOf(rhs);
    var t := FetchThree(mem, p, f, false);
    assert DecodeOperands(mem, p, Arith(op, f)) == Fetched(t.ip, Ok(IArith(op, t.result.value.0, t.result.value.1, t.result.value.2)));
  }

  lemma DecodeBitwise(mem: seq<byte>, p: nat, op: BitOp, dest: Register, lhs: Register, rhs: Operand, q: nat)
    requires FetchThree(mem, p, FormOf(rhs), true) == Fetched(q, Ok((dest, lhs, rhs)))
    ensures DecodeOperands(mem, p, Bitwise(op, FormOf(rhs))) == Fetched(q, Ok(IBitwise(op, dest, lhs, rhs)))
  {
    var f := FormOf(rhs);
    var t := FetchThree(mem, p, f, true);
    assert DecodeOperands(mem, p, Bitwise(op, f)) == Fetched(t.ip, Ok(IBitwise(op, t.result.value.0, t.result.value.1, t.result.value.2)));
  }

  lemma DecodeShift(mem: seq<byte>, p: nat, op: ShiftOp, dest: Register, lhs: Register, rhs: Operand, q: nat)
    requires FetchThree(mem, p, FormOf(rhs), true) == Fetched(q, Ok((dest, lhs, rhs)))
    ensures DecodeOperands(mem, p, Shift(op, FormOf(rhs))) == Fetched(q, Ok(IShift(op, dest, lhs, rhs)))
  {
    var f := FormOf(rhs);
    var t := FetchThree(mem, p, f, true);
    assert DecodeOperands(mem, p, Shift(op, f)) == Fetched(t.ip, Ok(IShift(op, t.result.value.0, t.result.value.1, t.result.value.2)));
  }

  lemma DecodeCmp(mem: seq<byte>, p: nat, lhs: Register, rhs: Operand)
    requires rhs.ImmOperand? ==> ImmSize(rhs.imm) == SizeOf(lhs)
    requires At(mem, p, EncodeRegister(lhs) + EncodeOperand(rhs))
    ensures DecodeOperands(mem, p, if rhs.RegOperand? then CmpRegReg else CmpRegImm) ==
      Fetched(p + 1 + |EncodeOperand(rhs)|, Ok(ICmp(lhs, rhs)))
  {
    AtSplit(mem, p, EncodeRegister(lhs), EncodeOperand(rhs));
    FetchRegisterAt(mem, p, lhs);
    FetchOperandAt(mem, p + 1, rhs, SizeOf(lhs));
  }

  lemma DecodeJump(mem: seq<byte>, p: nat, c: Cond, t: Operand)
    requires t.ImmOperand? ==> t.imm.QWordImm?
    requires At(mem, p, EncodeOperand(t))
    ensures DecodeOperands(mem, p, Jump(c, FormOf(t))) == Fetched(p + |EncodeOperand(t)|, Ok(IJump(c, t)))
  {
    FetchOperandAt(mem, p, t, QWord);
    var f := FormOf(t);
    var o := FetchOperand(mem, p, f, QWord);
    assert DecodeOperands(mem, p, Jump(c, f)) == Fetched(o.ip, Ok(IJump(c, o.result.value)));
  }

  lemma DecodeCall(mem: seq<byte>, p: nat, t: Operand)
    requires t.ImmOperand? ==> t.imm.QWordImm?
    requires At(mem, p, EncodeOperand(t))
    ensures DecodeOperands(mem, p, if t.RegOperand? then CallReg else CallImm) == Fetched(p + |EncodeOperand(t)|, Ok(ICall(t)))
  {
    FetchOperandAt(mem, p, t, QWord);
  }

  lemma DecodeIncDec(mem: seq<byte>, p: nat, r: Register, up: bool)
    requires At(mem, p, EncodeRegister(r))
    ensures DecodeOperands(mem, p, if up then Inc else Dec) == Fetched(p + 1, Ok(if up then IInc(r) else IDec(r)))
  {
    FetchRegisterAt(mem, p, r);
  }
}
