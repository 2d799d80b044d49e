/**
 * What each `compile_*` routine of src/compiler/mod.rs emits for one
 * instruction statement. Every byte a routine pushes is the `Encode` of a
 * decoded instruction of module Machine, so an instruction is given here
 * by that instruction; an identifier operand becomes a zero placeholder
 * (a "hole") that the compiler later overwrites with the label's address.
 */
module Lowering {
  import opened Wrappers
  import opened Bits
  import opened Immediates
  import opened Registers
  import Opcodes
  import opened Machine
  import opened Encoding
  import opened Ast
  import Bytecode

  /** The errors of the compiler (`InvalidRegister` and `FixupFailure` are declared but never raised). */
  datatype CompileError =
    | InvalidDataSize(inst: string)
    | InvalidOperands(inst: string)
    | UndefinedLabel(name: string)
    | UnsupportedOperation(stmt: Statement)
    | InvalidExpression(inst: string)
    /** An operand that needs a float conversion (`as f32`), which this model leaves out. */
    | FloatNotModelled
    /** `resb` of a negative count: `vec![0; n as usize]` asks for more than any capacity and panics. */
    | CapacityOverflow

  /** A placeholder of `size` at byte `at` of the instruction, to be filled with `label`'s address. */
  datatype Hole = Hole(at: nat, size: DataSize, target: string)

  /** An instruction to emit, and the hole a label operand leaves in it. */
  datatype Lowered = Lowered(instr: Instr, hole: Option<Hole>)

  /**
   * The holes the compiler leaves, one shape per operand kind: the
   * immediate of MOV and PUSH, the qword base of a label address, and the
   * qword target of a jump or call; each placeholder holds zero.
   */
  predicate HoleShape(l: Lowered)
  {
    l.hole.None? ||
    var h := l.hole.value;
    match l.instr
    case IMovImm(_, imm) => h.at == 2 && h.size == ImmSize(imm) && Pattern(imm) == 0
    case IPushImm(imm) => h.at == 2 && h.size == ImmSize(imm) && Pattern(imm) == 0
    case ILdr(_, a) => h.at == 3 && h.size == QWord && a == AbsoluteBase(0, a.offset)
    case IStr(_, a) => h.at == 3 && h.size == QWord && a == AbsoluteBase(0, a.offset)
    case IPushAddr(_, a) => h.at == 3 && h.size == QWord && a == AbsoluteBase(0, a.offset)
    case IPopAddr(_, a) => h.at == 3 && h.size == QWord && a == AbsoluteBase(0, a.offset)
    case IJump(_, t) => h.at == 1 && h.size == QWord && t == ImmOperand(QWordImm(0))
    case ICall(t) => h.at == 1 && h.size == QWord && t == ImmOperand(QWordImm(0))
    case _ => false
  }

  /** What the compiler emits is decodable, and its hole, if any, has a known shape. */
  predicate Sound(l: Lowered)
  {
    WellFormed(l.instr) && HoleShape(l)
  }

  /**
   * `v as u8`, `as u16`, `as u32` or `as u64` for an i64 literal, at an
   * integer width: the two's-complement bits truncated to the width.
   */
  function IntImmediate(size: DataSize, v: i64): (imm: Immediate)
    requires size.IsInteger()
    ensures ImmSize(imm) == size && imm.IsInteger()
    ensures imm.Value() == v % Pow256(SizeInBytes(size))
  {
    TruncatedBits(v, SizeInBytes(size));
    OfSize(size, Truncate(I64Bits(v), SizeInBytes(size)))
  }

  /** Truncating the two's-complement bits of an i64 to n <= 8 bytes is reducing it modulo 256^n. */
  lemma TruncatedBits(v: i64, n: nat)
    requires n in {1, 2, 4, 8}
    ensures Truncate(I64Bits(v), n) == v % Pow256(n)
  {
    Pow256Values();
    if v < 0 {
      var m := Pow256(n);
      var k := U64_LIMIT / m;
      assert k * m == U64_LIMIT;
      DivModUnique(v + U64_LIMIT, m, v / m + k, v % m);
    }
  }

  /** The instruction with its hole filled by `v`, truncated to the hole's width. */
  function Fill(i: Instr, v: nat): Instr
  {
    match i
    case IMovImm(d, imm) => IMovImm(d, OfSize(ImmSize(imm), Truncate(v, SizeInBytes(ImmSize(imm)))))
    case IPushImm(imm) => IPushImm(OfSize(ImmSize(imm), Truncate(v, SizeInBytes(ImmSize(imm)))))
    case ILdr(r, a) => ILdr(r, AbsoluteBase(Truncate(v, 8), a.offset))
    case IStr(r, a) => IStr(r, AbsoluteBase(Truncate(v, 8), a.offset))
    case IPushAddr(s, a) => IPushAddr(s, AbsoluteBase(Truncate(v, 8), a.offset))
    case IPopAddr(s, a) => IPopAddr(s, AbsoluteBase(Truncate(v, 8), a.offset))
    case IJump(c, _) => IJump(c, ImmOperand(QWordImm(Truncate(v, 8))))
    case ICall(_) => ICall(ImmOperand(QWordImm(Truncate(v, 8))))
    case _ => i
  }

  // ---- the addressing operands shared by LDR, STR, PUSH and POP

  /**
   * `[base]` or `[base, offset]`: a register base is variant 1, an
   * integer base variant 2, and a label base variant 2 with a zero base
   * the label fills later (its name is returned). The offset must be an
   * integer literal and is 0 when omitted.
   */
  function LowerAddress(base: Expression, offset: Option<Expression>, inst: string): (r: Result<(Address, Option<string>), CompileError>)
    ensures r.Ok? <==> (offset.None? || offset.value.IntegerLiteral?) && (base.RegisterExpr? || base.IntegerLiteral? || base.Identifier?)
    ensures r.Err? ==> r.error == InvalidOperands(inst)
    ensures r.Ok? ==> r.value.0.offset == (if offset.Some? then I64Bits(offset.value.value) else 0)
    ensures r.Ok? ==> (r.value.1.Some? <==> base.Identifier?)
    ensures r.Ok? && r.value.1.Some? ==> r.value.0 == AbsoluteBase(0, r.value.0.offset) && r.value.1.value == base.name
  {
    if offset.Some? && !offset.value.IntegerLiteral? then Err(InvalidOperands(inst))
    else
      var off := if offset.Some? then I64Bits(offset.value.value) else 0;
      match base
      case RegisterExpr(b) => Ok((RegisterBase(b, off), None))
      case IntegerLiteral(b) => Ok((AbsoluteBase(I64Bits(b), off), None))
      case Identifier(l) => Ok((AbsoluteBase(0, off), Some(l)))
      case _ => Err(InvalidOperands(inst))
  }

  /** The qword hole at byte 3 that a label base leaves in a memory instruction. */
  function BaseHole(target: Option<string>): Option<Hole>
  {
    if target.Some? then Some(Hole(3, QWord, target.value)) else None
  }

  // ---- one function per compile_* routine

  /** `compile_mov`. */
  function LowerMov(dest: Expression, src: Expression): (r: Result<Lowered, CompileError>)
    ensures r.Ok? ==> Sound(r.value)
    ensures r.Ok? ==> dest.RegisterExpr? && (r.value.instr.IMovReg? || r.value.instr.IMovImm?) && r.value.instr.dest == dest.reg
    ensures !dest.RegisterExpr? ==> r == Err(InvalidOperands("MOV"))
  {
    match (dest, src)
    case (RegisterExpr(d), RegisterExpr(s)) => Ok(Lowered(IMovReg(d, s), None))
    case (RegisterExpr(d), IntegerLiteral(v)) =>
      if SizeOf(d).IsInteger() then Ok(Lowered(IMovImm(d, IntImmediate(SizeOf(d), v)), None))
      else Err(InvalidDataSize("MOV"))
    case (RegisterExpr(d), FloatLiteral(bits)) =>
      if SizeOf(d) == Double then Ok(Lowered(IMovImm(d, DoubleImm(bits)), None))
      else if SizeOf(d) == Float then Err(FloatNotModelled)
      else Err(InvalidDataSize("MOV"))
    case (RegisterExpr(d), Identifier(l)) =>
      if SizeOf(d).IsInteger() then Ok(Lowered(IMovImm(d, OfSize(SizeOf(d), 0)), Some(Hole(2, SizeOf(d), l))))
      else Err(InvalidDataSize("MOV"))
    case _ => Err(InvalidOperands("MOV"))
  }

  /** `compile_ldr_or_str`: a register, then an address. */
  function LowerLoadStore(reg: Expression, addr: Expression, load: bool): (r: Result<Lowered, CompileError>)
    ensures r.Ok? ==> Sound(r.value)
    ensures r.Ok? ==> reg.RegisterExpr? && addr.AddressExpr?
    ensures r.Ok? ==> if load then r.value.instr.ILdr? && r.value.instr.dest == reg.reg
                      else r.value.instr.IStr? && r.value.instr.src == reg.reg
    ensures r.Err? ==> r.error == InvalidOperands(if load then "LDR" else "STR")
  {
    var inst := if load then "LDR" else "STR";
    match (reg, addr)
    case (RegisterExpr(x), AddressExpr(base, offset)) =>
      var a :- LowerAddress(base, offset, inst);
      Ok(Lowered(if load then ILdr(x, a.0) else IStr(x, a.0), BaseHole(a.1)))
    case _ => Err(InvalidOperands(inst))
  }

  /** The PUSH or POP of an address with an explicit size: opcode, size, address. */
  function LowerSizedAddress(size: DataSize, base: Expression, offset: Option<Expression>, push: bool): (r: Result<Lowered, CompileError>)
    ensures r.Ok? ==> Sound(r.value)
  {
    var a :- LowerAddress(base, offset, if push then "PUSH" else "POP");
    Ok(Lowered(if push then IPushAddr(size, a.0) else IPopAddr(size, a.0), BaseHole(a.1)))
  }

  /**
   * `compile_push`, with the two arms that disagree with the VM's decoder
   * corrected (see `PushLabelAsWritten` and `PushAddressAsWritten`): a
   * sized label leaves a placeholder of the size's width, and an address
   * without a size is pushed as a qword.
   */
  function LowerPush(size: Option<Expression>, operand: Expression): (r: Result<Lowered, CompileError>)
    ensures r.Ok? ==> Sound(r.value)
    ensures r.Ok? ==> r.value.instr.IPushReg? || r.value.instr.IPushImm? || r.value.instr.IPushAddr?
  {
    match (size, operand)
    case (None, RegisterExpr(s)) => Ok(Lowered(IPushReg(SizeOf(s), s), None))
    case (Some(DataSizeExpr(ds)), RegisterExpr(s)) => Ok(Lowered(IPushReg(ds, s), None))
    case (None, AddressExpr(base, offset)) => LowerSizedAddress(QWord, base, offset, true)
    case (Some(DataSizeExpr(ds)), IntegerLiteral(v)) =>
      if ds.IsInteger() then Ok(Lowered(IPushImm(IntImmediate(ds, v)), None)) else Err(FloatNotModelled)
    case (Some(DataSizeExpr(ds)), FloatLiteral(bits)) =>
      if ds == Double then Ok(Lowered(IPushImm(DoubleImm(bits)), None))
      else if ds == Float then Err(FloatNotModelled)
      else Err(InvalidDataSize("PUSH"))
    case (Some(DataSizeExpr(ds)), Identifier(l)) => Ok(Lowered(IPushImm(OfSize(ds, 0)), Some(Hole(2, ds, l))))
    case (None, Identifier(l)) => Ok(Lowered(IPushImm(QWordImm(0)), Some(Hole(2, QWord, l))))
    case (Some(DataSizeExpr(ds)), AddressExpr(base, offset)) => LowerSizedAddress(ds, base, offset, true)
    case _ => Err(InvalidOperands("PUSH"))
  }

  /** `compile_pop`: a register (sized by itself or explicitly) or an explicitly sized address. */
  function LowerPop(size: Option<Expression>, operand: Expression): (r: Result<Lowered, CompileError>)
    ensures r.Ok? ==> Sound(r.value)
    ensures r.Ok? ==> r.value.instr.IPopReg? || r.value.instr.IPopAddr?
    ensures size.None? && operand.AddressExpr? ==> r == Err(InvalidOperands("POP"))
  {
    match (size, operand)
    case (None, RegisterExpr(d)) => Ok(Lowered(IPopReg(SizeOf(d), d), None))
    case (Some(DataSizeExpr(ds)), RegisterExpr(d)) => Ok(Lowered(IPopReg(ds, d), None))
    case (Some(DataSizeExpr(ds)), AddressExpr(base, offset)) => LowerSizedAddress(ds, base, offset, false)
    case _ => Err(InvalidOperands("POP"))
  }

  function ArithName(op: Opcodes.ArithOp): string
  {
    match op
    case Add => "ADD"
    case Sub => "SUB"
    case Mul => "MUL"
    case Div => "DIV"
  }

  /**
   * `compile_arithmetic`: a register destination, a register lhs, and a
   * register or an immediate at the destination's width.
   */
  function LowerArith(op: Opcodes.ArithOp, dest: Expression, lhs: Expression, rhs: Expression): (r: Result<Lowered, CompileError>)
    ensures r.Ok? ==> Sound(r.value) && r.value.hole.None?
    ensures r.Ok? ==> r.value.instr.IArith? && r.value.instr.aop == op
    ensures !dest.RegisterExpr? ==> r == Err(InvalidOperands(ArithName(op)))
  {
    if !dest.RegisterExpr? then Err(InvalidOperands(ArithName(op)))
    else
      var d := dest.reg;
      match (lhs, rhs)
      case (RegisterExpr(l), RegisterExpr(x)) => Ok(Lowered(IArith(op, d, l, RegOperand(x)), None))
      case (RegisterExpr(l), IntegerLiteral(v)) =>
        if SizeOf(d).IsInteger() then Ok(Lowered(IArith(op, d, l, ImmOperand(IntImmediate(SizeOf(d), v))), None))
        else Err(FloatNotModelled)
      case (RegisterExpr(l), FloatLiteral(bits)) =>
        if SizeOf(d) == Double then Ok(Lowered(IArith(op, d, l, ImmOperand(DoubleImm(bits))), None))
        else if SizeOf(d) == Float then Err(FloatNotModelled)
        else Err(InvalidDataSize(ArithName(op)))
      case _ => Err(InvalidOperands(ArithName(op)))
  }

  /** AND, OR and XOR, or SHL and SHR, which `compile_bitwise` handles alike. */
  datatype BitwiseKind = Logic(bop: Opcodes.BitOp) | ShiftBy(sop: Opcodes.ShiftOp)

  function BitwiseName(k: BitwiseKind): string
  {
    match k
    case Logic(And) => "AND"
    case Logic(Or) => "OR"
    case Logic(Xor) => "XOR"
    case ShiftBy(Shl) => "SHL"
    case ShiftBy(Shr) => "SHR"
  }

  function BitwiseInstr(k: BitwiseKind, d: Register, l: Register, rhs: Operand): Instr
  {
    match k
    case Logic(op) => IBitwise(op, d, l, rhs)
    case ShiftBy(op) => IShift(op, d, l, rhs)
  }

  /** A register that views a floating-point cell. */
  predicate IsFloatRegister(e: Expression)
  {
    e.RegisterExpr? && !SizeOf(e.reg).IsInteger()
  }

  /**
   * `compile_bitwise`: like arithmetic, but every register must be an
   * integer one and a float literal operand is refused.
   */
  function LowerBitwise(k: BitwiseKind, dest: Expression, lhs: Expression, rhs: Expression): (r: Result<Lowered, CompileError>)
    ensures r.Ok? ==> Sound(r.value) && r.value.hole.None?
    ensures r.Ok? ==>
      && dest.RegisterExpr? && lhs.RegisterExpr? && (r.value.instr.IBitwise? || r.value.instr.IShift?)
      && r.value.instr == BitwiseInstr(k, dest.reg, lhs.reg, r.value.instr.rhs)
    ensures IsFloatRegister(dest) || IsFloatRegister(lhs) || IsFloatRegister(rhs) || rhs.FloatLiteral?
      ==> r == Err(InvalidOperands(BitwiseName(k)))
  {
    if !dest.RegisterExpr? || !SizeOf(dest.reg).IsInteger() then Err(InvalidOperands(BitwiseName(k)))
    else
      var d := dest.reg;
      match (lhs, rhs)
      case (RegisterExpr(l), RegisterExpr(x)) =>
        if !SizeOf(l).IsInteger() || !SizeOf(x).IsInteger() then Err(InvalidOperands(BitwiseName(k)))
        else Ok(Lowered(BitwiseInstr(k, d, l, RegOperand(x)), None))
      case (RegisterExpr(l), IntegerLiteral(v)) =>
        if !SizeOf(l).IsInteger() then Err(InvalidOperands(BitwiseName(k)))
        else Ok(Lowered(BitwiseInstr(k, d, l, ImmOperand(IntImmediate(SizeOf(d), v))), None))
      case _ => Err(InvalidOperands(BitwiseName(k)))
  }

  /** `compile_cmp`: a register, then a register or an immediate at the register's width. */
  function LowerCmp(lhs: Expression, rhs: Expression): (r: Result<Lowered, CompileError>)
    ensures r.Ok? ==> Sound(r.value) && r.value.hole.None?
    ensures r.Ok? ==> r.value.instr.ICmp? && lhs.RegisterExpr? && r.value.instr.lhs == lhs.reg
  {
    match (lhs, rhs)
    case (RegisterExpr(l), IntegerLiteral(v)) =>
      if SizeOf(l).IsInteger() then Ok(Lowered(ICmp(l, ImmOperand(IntImmediate(SizeOf(l), v))), None))
      else Err(FloatNotModelled)
    case (RegisterExpr(l), FloatLiteral(bits)) =>
      if SizeOf(l) == Double then Ok(Lowered(ICmp(l, ImmOperand(DoubleImm(bits))), None))
      else if SizeOf(l) == Float then Err(FloatNotModelled)
      else Err(InvalidDataSize("CMP"))
    case (RegisterExpr(l), RegisterExpr(x)) => Ok(Lowered(ICmp(l, RegOperand(x)), None))
    case _ => Err(InvalidOperands("CMP"))
  }

  /** The target of a jump or call: an integer as a qword, a register, or a label filled later. */
  function LowerTarget(e: Expression, inst: string): (r: Result<(Operand, Option<Hole>), CompileError>)
    ensures r.Ok? <==> e.IntegerLiteral? || e.RegisterExpr? || e.Identifier?
    ensures r.Err? ==> r.error == InvalidOperands(inst)
  {
    match e
    case IntegerLiteral(v) => Ok((ImmOperand(QWordImm(I64Bits(v))), None))
    case RegisterExpr(x) => Ok((RegOperand(x), None))
    case Identifier(l) => Ok((ImmOperand(QWordImm(0)), Some(Hole(1, QWord, l))))
    case _ => Err(InvalidOperands(inst))
  }

  /** `compile_jump`. */
  function LowerJump(c: Opcodes.Cond, inst: string, e: Expression): (r: Result<Lowered, CompileError>)
    ensures r.Ok? ==> Sound(r.value) && r.value.instr.IJump? && r.value.instr.cond == c
    ensures r.Ok? <==> e.IntegerLiteral? || e.RegisterExpr? || e.Identifier?
  {
    var t :- LowerTarget(e, inst);
    Ok(Lowered(IJump(c, t.0), t.1))
  }

  /** `compile_call`. */
  function LowerCall(e: Expression): (r: Result<Lowered, CompileError>)
    ensures r.Ok? ==> Sound(r.value) && r.value.instr.ICall?
    ensures r.Ok? <==> e.IntegerLiteral? || e.RegisterExpr? || e.Identifier?
  {
    var t :- LowerTarget(e, "CALL");
    Ok(Lowered(ICall(t.0), t.1))
  }

  /** `compile_inc_or_dec`: only a register. */
  function LowerIncDec(e: Expression, up: bool): (r: Result<Lowered, CompileError>)
    ensures r.Ok? <==> e.RegisterExpr?
    ensures r.Ok? ==> r.value == Lowered(if up then IInc(e.reg) else IDec(e.reg), None)
    ensures r.Err? ==> r.error == InvalidOperands(if up then "INC" else "DEC")
  {
    match e
    case RegisterExpr(x) => Ok(Lowered(if up then IInc(x) else IDec(x), None))
    case _ => Err(InvalidOperands(if up then "INC" else "DEC"))
  }

  // ---- filling a hole

  /** The byte width of a hole. */
  function Width(h: Hole): nat { SizeInBytes(h.size) }

  /** The bit pattern of an immediate built at a width is the value it was built from. */
  lemma PatternOfSize(s: DataSize, v: nat)
    requires v < Pow256(SizeInBytes(s))
    ensures Pattern(OfSize(s, v)) == v
  {
  }

  /** The instructions whose encoding has a place a label's address can fill. */
  predicate Fillable(i: Instr)
  {
    match i
    case IMovImm(_, _) => true
    case IPushImm(_) => true
    case ILdr(_, a) => a.AbsoluteBase?
    case IStr(_, a) => a.AbsoluteBase?
    case IPushAddr(_, a) => a.AbsoluteBase?
    case IPopAddr(_, a) => a.AbsoluteBase?
    case IJump(_, t) => t.ImmOperand?
    case ICall(t) => t.ImmOperand?
    case _ => false
  }

  /** The bytes of an encoding before the place a label fills. */
  function HoleHead(i: Instr): seq<byte>
  {
    [Opcodes.OpcodeCode(OpcodeOf(i))] +
    match i
    case IMovImm(d, _) => [RegisterCode(d)]
    case IPushImm(imm) => [SizeCode(ImmSize(imm))]
    case ILdr(r, _) => [RegisterCode(r), ADDRESSING_VARIANT_2]
    case IStr(r, _) => [RegisterCode(r), ADDRESSING_VARIANT_2]
    case IPushAddr(s, _) => [SizeCode(s), ADDRESSING_VARIANT_2]
    case IPopAddr(s, _) => [SizeCode(s), ADDRESSING_VARIANT_2]
    case _ => []
  }

  /** The bytes of that place. */
  function HoleBytes(i: Instr): seq<byte>
    requires Fillable(i)
  {
    match i
    case IMovImm(_, imm) => EncodeImmediate(imm)
    case IPushImm(imm) => EncodeImmediate(imm)
    case IJump(_, t) => EncodeImmediate(t.imm)
    case ICall(t) => EncodeImmediate(t.imm)
    case ILdr(_, a) => LittleEndian(a.base, 8)
    case IStr(_, a) => LittleEndian(a.base, 8)
    case IPushAddr(_, a) => LittleEndian(a.base, 8)
    case IPopAddr(_, a) => LittleEndian(a.base, 8)
  }

  /** The bytes after it: an address's offset, or nothing. */
  function HoleTail(i: Instr): seq<byte>
  {
    match i
    case ILdr(_, a) => LittleEndian(a.offset, 8)
    case IStr(_, a) => LittleEndian(a.offset, 8)
    case IPushAddr(_, a) => LittleEndian(a.offset, 8)
    case IPopAddr(_, a) => LittleEndian(a.offset, 8)
    case _ => []
  }

  /** An encoding is its head, its fillable place and its tail. */
  lemma Layout(i: Instr)
    requires Fillable(i)
    ensures Encode(i) == HoleHead(i) + HoleBytes(i) + HoleTail(i)
  {
    match i
    case IMovImm(_, _) => assert HoleTail(i) == [];
    case IPushImm(_) => assert HoleTail(i) == [];
    case IJump(_, _) => assert HoleTail(i) == [];
    case ICall(_) => assert HoleTail(i) == [];
    case _ => LayoutMemory(i);
  }

  lemma LayoutMemory(i: Instr)
    requires Fillable(i) && (i.ILdr? || i.IStr? || i.IPushAddr? || i.IPopAddr?)
    ensures Encode(i) == HoleHead(i) + HoleBytes(i) + HoleTail(i)
  {
    var second := if i.ILdr? then RegisterCode(i.dest) else if i.IStr? then RegisterCode(i.src) else SizeCode(i.size);
    assert Encode(i) == [Opcodes.OpcodeCode(OpcodeOf(i))] + ([second] + EncodeAddress(i.addr));
    assert HoleHead(i) == [Opcodes.OpcodeCode(OpcodeOf(i))] + [second, ADDRESSING_VARIANT_2];
    AbsoluteLayout(Opcodes.OpcodeCode(OpcodeOf(i)), second, i.addr.base, i.addr.offset);
  }

  /** An opcode, one byte, and an absolute address, regrouped around the base. */
  lemma AbsoluteLayout(op: byte, second: byte, base: u64, offset: u64)
    ensures [op] + ([second] + EncodeAddress(AbsoluteBase(base, offset)))
            == [op] + [second, ADDRESSING_VARIANT_2] + LittleEndian(base, 8) + LittleEndian(offset, 8)
  {
  }

  /** Filling keeps the head and the tail, and the place goes from zero bytes to the truncated address. */
  lemma FillParts(l: Lowered, v: nat)
    requires Sound(l) && l.hole.Some?
    ensures Fillable(l.instr) && Fillable(Fill(l.instr, v))
    ensures HoleHead(Fill(l.instr, v)) == HoleHead(l.instr) && HoleTail(Fill(l.instr, v)) == HoleTail(l.instr)
    ensures |HoleHead(l.instr)| == l.hole.value.at
    ensures HoleBytes(l.instr) == LittleEndian(0, Width(l.hole.value))
    ensures HoleBytes(Fill(l.instr, v)) == LittleEndian(Truncate(v, Width(l.hole.value)), Width(l.hole.value))
  {
    var w := Width(l.hole.value);
    match l.instr
    case IMovImm(_, imm) => PatternOfSize(ImmSize(imm), Truncate(v, w));
    case IPushImm(imm) => PatternOfSize(ImmSize(imm), Truncate(v, w));
    case _ =>
  }

  /** A hole lies inside the bytes of its instruction. */
  lemma HoleInside(l: Lowered)
    requires Sound(l) && l.hole.Some?
    ensures l.hole.value.at + Width(l.hole.value) <= |Encode(l.instr)|
  {
    FillParts(l, 0);
    Layout(l.instr);
  }

  /** Filling a hole keeps an instruction decodable. */
  lemma FillWellFormed(l: Lowered, v: nat)
    requires Sound(l) && l.hole.Some?
    ensures WellFormed(Fill(l.instr, v))
  {
  }

  /** Overwriting the middle of a concatenation, and what was there before. */
  lemma Splice(head: seq<byte>, mid: seq<byte>, put: seq<byte>, tail: seq<byte>)
    requires |put| == |mid|
    ensures (head + mid + tail)[|head|..|head| + |mid|] == mid
    ensures Bytecode.Overwrite(head + mid + tail, |head|, put) == head + put + tail
  {
    Bytecode.OverwriteMiddle(head, mid, tail, put);
  }

  /**
   * A label operand leaves an all-zero placeholder inside the
   * instruction's encoding; overwriting it with the label's address,
   * truncated to the hole's width as the fixup pass does, gives the
   * encoding of the same instruction with that address as its operand,
   * which the VM decodes (see `Encoding.DecodeEncoded`).
   */
  lemma FillHole(l: Lowered, v: nat)
    requires Sound(l) && l.hole.Some?
    ensures l.hole.value.at + Width(l.hole.value) <= |Encode(l.instr)|
    ensures Encode(l.instr)[l.hole.value.at..l.hole.value.at + Width(l.hole.value)] == LittleEndian(0, Width(l.hole.value))
    ensures Bytecode.Overwrite(Encode(l.instr), l.hole.value.at, LittleEndian(Truncate(v, Width(l.hole.value)), Width(l.hole.value)))
            == Encode(Fill(l.instr, v))
    ensures WellFormed(Fill(l.instr, v))
  {
    var w := Width(l.hole.value);
    FillParts(l, v);
    Layout(l.instr);
    Layout(Fill(l.instr, v));
    Splice(HoleHead(l.instr), LittleEndian(0, w), LittleEndian(Truncate(v, w), w), HoleTail(l.instr));
    FillWellFormed(l, v);
  }

  /**
   * `mov reg, integer` emits the opcode, the register, and the integer's
   * two's-complement bytes at the register's width, least significant
   * first.
   */
  lemma MovImmediateBytes(d: Register, v: i64)
    requires SizeOf(d).IsInteger()
    ensures LowerMov(RegisterExpr(d), IntegerLiteral(v)).Ok?
    ensures Encode(LowerMov(RegisterExpr(d), IntegerLiteral(v)).value.instr)
            == [Opcodes.OpcodeCode(Opcodes.MovRegImm), RegisterCode(d)] + LittleEndian(I64Bits(v), SizeInBytes(SizeOf(d)))
  {
    var imm := OfSize(SizeOf(d), Truncate(I64Bits(v), SizeInBytes(SizeOf(d))));
    MovIntegerLowers(d, v);
    IntegerBytes(d, v);
    MovImmediateLayout(d, imm);
  }

  lemma MovImmediateLayout(d: Register, imm: Immediate)
    ensures Encode(IMovImm(d, imm)) == [Opcodes.OpcodeCode(Opcodes.MovRegImm), RegisterCode(d)] + EncodeImmediate(imm)
  {
  }

  lemma MovIntegerLowers(d: Register, v: i64)
    requires SizeOf(d).IsInteger()
    ensures LowerMov(RegisterExpr(d), IntegerLiteral(v))
            == Ok(Lowered(IMovImm(d, OfSize(SizeOf(d), Truncate(I64Bits(v), SizeInBytes(SizeOf(d))))), None))
  {
  }

  /** Only the low bytes of the two's-complement bits reach the encoding. */
  lemma IntegerBytes(d: Register, v: i64)
    requires SizeOf(d).IsInteger()
    ensures EncodeImmediate(OfSize(SizeOf(d), Truncate(I64Bits(v), SizeInBytes(SizeOf(d)))))
            == LittleEndian(I64Bits(v), SizeInBytes(SizeOf(d)))
  {
    var n := SizeInBytes(SizeOf(d));
    PatternOfSize(SizeOf(d), Truncate(I64Bits(v), n));
    EncodeTruncated(I64Bits(v), n);
  }

  // ---- the PUSH arms that disagree with the decoder

  /**
   * `push SIZE label` as written (src/compiler/mod.rs:697-706): the
   * opcode, the size, and eight zero bytes whatever the size, with a fixup
   * of that size at the first of them.
   */
  function PushLabelAsWritten(size: DataSize, target: string): (r: (seq<byte>, Hole))
    ensures |r.0| == 10 && r.1.at == 2 && r.1.size == size
  {
    ([Opcodes.OpcodeCode(Opcodes.PushImm), SizeCode(size)] + LittleEndian(0, 8), Hole(2, size, target))
  }

  /**
   * For `push byte label` the fixed-up bytes decode as a one-byte push
   * that ends three bytes in, while seven more placeholder bytes follow:
   * the VM runs those zero bytes as the next instructions.
   */
  lemma PushByteLabelMisaligned(target: string, v: nat)
    ensures var (bytes, h) := PushLabelAsWritten(Byte, target);
      var patched := Bytecode.Overwrite(bytes, h.at, LittleEndian(Truncate(v, 1), 1));
      && |patched| == 10
      && Decode(patched, 0) == Fetched(3, Ok(IPushImm(ByteImm(Truncate(v, 1)))))
  {
    var (bytes, h) := PushLabelAsWritten(Byte, target);
    var patched := Bytecode.Overwrite(bytes, h.at, LittleEndian(Truncate(v, 1), 1));
    var i := IPushImm(ByteImm(Truncate(v, 1)));
    Pow256Values();
    assert Encode(i) == [Opcodes.OpcodeCode(Opcodes.PushImm), SizeCode(Byte)] + LittleEndian(Truncate(v, 1), 1);
    assert patched[..3] == Encode(i);
    DecodeEncoded(patched, 0, i);
  }

  /**
   * The corrected `push SIZE label` leaves a placeholder of the size's
   * width, so the fixed-up bytes decode as a push of the label's address
   * that ends exactly where the emitted bytes end.
   */
  lemma PushLabelDecodes(size: DataSize, target: string, v: nat)
    ensures var r := LowerPush(Some(DataSizeExpr(size)), Identifier(target));
      && r.Ok? && r.value.hole == Some(Hole(2, size, target))
      && var patched := Bytecode.Overwrite(Encode(r.value.instr), 2, LittleEndian(Truncate(v, SizeInBytes(size)), SizeInBytes(size)));
         Decode(patched, 0) == Fetched(|patched|, Ok(IPushImm(OfSize(size, Truncate(v, SizeInBytes(size))))))
  {
    var l := LowerPush(Some(DataSizeExpr(size)), Identifier(target)).value;
    FillHole(l, v);
    var i := Fill(l.instr, v);
    var patched := Encode(i);
    assert patched[0..|patched|] == patched;
    DecodeEncoded(patched, 0, i);
  }

  /**
   * `push [address]` without a size as written (src/compiler/mod.rs:580-657):
   * the opcode and then the address, with no size byte.
   */
  function PushAddressAsWritten(a: Address): (bytes: seq<byte>)
    ensures |bytes| == 1 + |EncodeAddress(a)|
  {
    [Opcodes.OpcodeCode(Opcodes.PushAddr)] + EncodeAddress(a)
  }

  /**
   * `push [b0]` as written is eleven bytes, but the VM reads the variant
   * byte as the size and goes on one byte past the end: followed by a zero
   * byte it decodes as a byte-sized push, twelve bytes long.
   */
  lemma PushAddressAsWrittenMisdecoded()
    ensures var b0 := Banked(BBank, 0);
      var bytes := PushAddressAsWritten(RegisterBase(b0, 0));
      && |bytes| == 11
      && Decode(bytes + [0], 0) == Fetched(12, Ok(IPushAddr(Byte, RegisterBase(b0, 0))))
  {
    var b0 := Banked(BBank, 0);
    var bytes := PushAddressAsWritten(RegisterBase(b0, 0));
    var i := IPushAddr(Byte, RegisterBase(b0, 0));
    Misread(b0);
    assert (bytes + [0])[0..12] == Encode(i);
    DecodeEncoded(bytes + [0], 0, i);
  }

  /** The eleven bytes and a zero are the encoding of a byte-sized push of `[b0]`. */
  lemma Misread(r: Register)
    requires RegisterCode(r) == 0
    ensures PushAddressAsWritten(RegisterBase(r, 0)) + [0] == Encode(IPushAddr(Byte, RegisterBase(r, 0)))
  {
    var op := Opcodes.OpcodeCode(Opcodes.PushAddr);
    var zero := LittleEndian(0, 8);
    RegisterBaseLayout(op, SizeCode(Byte), r, 0);
    assert SizeCode(Byte) == 0 && ADDRESSING_VARIANT_1 == 0;
    assert PushAddressAsWritten(RegisterBase(r, 0)) == [op, 0, 0] + zero;
    ZeroAppended(op);
  }

  /** One more zero byte after an opcode, two zero bytes and eight zero bytes. */
  lemma ZeroAppended(op: byte)
    ensures [op, 0, 0] + LittleEndian(0, 8) + [0] == [op, 0, 0, 0] + LittleEndian(0, 8)
  {
    var zero := LittleEndian(0, 8);
    ZeroShift(8);
    calc {
      [op, 0, 0] + zero + [0];
      [op, 0, 0] + (zero + [0]);
      [op, 0, 0] + ([0] + zero);
      [op, 0, 0, 0] + zero;
    }
  }

  /** An opcode, one byte, and an address with a register base, as a flat sequence. */
  lemma RegisterBaseLayout(op: byte, second: byte, r: Register, offset: u64)
    ensures [op] + EncodeAddress(RegisterBase(r, offset)) == [op, ADDRESSING_VARIANT_1, RegisterCode(r)] + LittleEndian(offset, 8)
    ensures [op] + ([second] + EncodeAddress(RegisterBase(r, offset)))
            == [op, second, ADDRESSING_VARIANT_1, RegisterCode(r)] + LittleEndian(offset, 8)
  {
  }

  /** Zero bytes commute with one more zero byte. */
  lemma {:induction false} ZeroShift(n: nat)
    ensures LittleEndian(0, n) + [0] == [0] + LittleEndian(0, n)
  {
    if n > 0 {
      ZeroShift(n - 1);
      assert LittleEndian(0, n) + [0] == [0] + (LittleEndian(0, n - 1) + [0]);
    }
  }

  /** The corrected `push [address]` without a size is `push qword [address]`. */
  lemma PushAddressDefaultsToQWord(base: Expression, offset: Option<Expression>)
    ensures LowerPush(None, AddressExpr(base, offset)) == LowerPush(Some(DataSizeExpr(QWord)), AddressExpr(base, offset))
    ensures LowerPush(None, AddressExpr(base, offset)).Ok? ==>
      var i := LowerPush(None, AddressExpr(base, offset)).value.instr;
      i.IPushAddr? && i.size == QWord && |Encode(i)| == 2 + |EncodeAddress(i.addr)|
  {
  }
}
