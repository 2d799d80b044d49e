/**
 * The behaviour of the VM (src/vm/mod.rs) as functions on a machine state:
 * program loading, instruction fetch and decode, execution of each
 * instruction, `step` and `run`. The `VM` class in module Vm implements
 * these in place and is proved equal to them.
 */
module Machine {
  import opened Wrappers
  import opened Bits
  import opened Immediates
  import opened VmErrors
  import opened Registers
  import opened Mem
  import opened Opcodes
  import opened Alu

  /** Addressing variant bytes of LDR/STR/PUSH/POP (src/compiler/mod.rs). */
  const ADDRESSING_VARIANT_1: byte := 0
  const ADDRESSING_VARIANT_2: byte := 1

  /** Registers, memory, the two compare flags and the halted bit. */
  datatype State = State(regs: RegFile, mem: seq<byte>, eq: bool, lt: bool, halted: bool) {
    ghost predicate Valid() { regs.Valid() && |mem| < U64_LIMIT }

    function Ip(): u64 requires regs.Valid() { regs.special[0] }
    function Sp(): u64 requires regs.Valid() { regs.special[1] }
    function Bp(): u64 requires regs.Valid() { regs.special[2] }

    function WithIp(v: u64): (s: State)
      requires Valid()
      ensures s.Valid() && s.Ip() == v
    {
      this.(regs := regs.(special := regs.special[0 := v]))
    }

    function WithSp(v: u64): (s: State)
      requires Valid()
      ensures s.Valid() && s.Sp() == v && s.Ip() == Ip()
    {
      this.(regs := regs.(special := regs.special[1 := v]))
    }
  }

  /** The state after an operation together with its result; fails like a Result. */
  datatype Exec<T> = Exec(state: State, result: Result<T, VmError>) {
    predicate IsFailure() { result.Err? }

    function PropagateFailure<U>(): Exec<U>
      requires IsFailure()
    {
      Exec(state, Err(result.error))
    }

    function Extract(): (T, State)
      requires !IsFailure()
    {
      (result.value, state)
    }
  }

  /** The position after a fetch together with what was fetched. */
  datatype Fetched<T> = Fetched(ip: nat, result: Result<T, VmError>) {
    predicate IsFailure() { result.Err? }

    function PropagateFailure<U>(): Fetched<U>
      requires IsFailure()
    {
      Fetched(ip, Err(result.error))
    }

    function Extract(): (T, nat)
      requires !IsFailure()
    {
      (result.value, ip)
    }
  }

  // ---------------------------------------------------------------- loading

  /**
   * `VM::new`: the first 8 bytes are the little-endian entry point, the rest
   * is the body copied to address 0 of a zeroed memory of `memSize` bytes.
   */
  function Load(program: seq<byte>, memSize: u64): (r: Result<State, VmError>)
    ensures |program| < 8 ==> r == Err(ProgramTooSmall(|program|))
    ensures |program| >= 8 && FromLittleEndian(program[..8]) >= |program| - 8 ==>
      r == Err(InvalidEntryPoint(FromLittleEndian(program[..8]), |program| - 8))
    ensures |program| >= 8 && FromLittleEndian(program[..8]) < |program| - 8 && |program| - 8 > memSize ==>
      r == Err(ProgramTooLarge(|program| - 8, memSize))
    ensures r.Ok? ==> r.value.Valid() && |r.value.mem| == memSize
    ensures r.Ok? ==> r.value.Ip() == FromLittleEndian(program[..8]) < |program| - 8
    ensures r.Ok? ==> r.value.Sp() == memSize && r.value.Bp() == 0
    ensures r.Ok? ==> r.value.mem[..|program| - 8] == program[8..]
    ensures r.Ok? ==> forall i :: |program| - 8 <= i < memSize ==> r.value.mem[i] == 0
    ensures r.Ok? ==> !r.value.halted && !r.value.eq && !r.value.lt
    ensures r.Ok? ==> r.value.regs.gpr == ZeroFile().gpr && r.value.regs.fpr == ZeroFile().fpr
  {
    if |program| < 8 then Err(ProgramTooSmall(|program|))
    else
      var entry := FromLittleEndian(program[..8]);
      var body := program[8..];
      if entry >= |body| then Err(InvalidEntryPoint(entry, |body|))
      else if |body| > memSize then Err(ProgramTooLarge(|body|, memSize))
      else
        var regs := ZeroFile().(special := [entry, memSize, 0]);
        var mem := body + seq(memSize - |body|, _ => 0);
        assert mem[..|body|] == body;
        Ok(State(regs, mem, false, false, false))
  }

  // ------------------------------------------------------------------ fetch

  /** A fetch either fails where it started or ends inside memory, never before it started. */
  predicate Advances(from: nat, to: nat, len: nat)
  {
    to == from || from < to <= len
  }


  /**
   * `read_byte`/`read_word`/`read_dword`/`read_qword`: fail without moving
   * when fewer than `n` bytes remain at `ip`; otherwise return their
   * little-endian value and advance by exactly `n`.
   */
  function FetchBytes(mem: seq<byte>, ip: nat, n: nat): (f: Fetched<nat>)
    requires n > 0
    ensures f.result.Err? <==> ip + n > |mem|
    ensures f.result.Err? ==> f.ip == ip && f.result.error == InstructionPointerOutOfBounds(ip)
    ensures f.result.Ok? ==> f.ip == ip + n && f.result.value == FromLittleEndian(mem[ip..ip + n])
    ensures f.result.Ok? ==> f.result.value < Pow256(n)
  {
    if ip + n > |mem| then Fetched(ip, Err(InstructionPointerOutOfBounds(ip)))
    else Fetched(ip + n, Ok(FromLittleEndian(mem[ip..ip + n])))
  }

  function FetchByte(mem: seq<byte>, ip: nat): (f: Fetched<byte>)
    ensures Advances(ip, f.ip, |mem|)
    ensures f.result.Ok? ==> f.ip == ip + 1
  {
    Pow256Values();
    var (v, ip1) :- FetchBytes(mem, ip, 1);
    Fetched(ip1, Ok(v))
  }

  function FetchQWord(mem: seq<byte>, ip: nat): (f: Fetched<u64>)
    ensures Advances(ip, f.ip, |mem|)
    ensures f.result.Ok? ==> f.ip == ip + 8
  {
    Pow256Values();
    var (v, ip1) :- FetchBytes(mem, ip, 8);
    Fetched(ip1, Ok(v))
  }

  /** `read_register`: one byte, decoded as a register or rejected with InvalidRegister. */
  function FetchRegister(mem: seq<byte>, ip: nat): (f: Fetched<Register>)
    ensures Advances(ip, f.ip, |mem|)
    ensures f.result.Ok? ==> f.ip == ip + 1
  {
    var (b, ip1) :- FetchByte(mem, ip);
    match RegisterFromCode(b)
    case Some(r) => Fetched(ip1, Ok(r))
    case None => Fetched(ip1, Err(InvalidRegister(b)))
  }

  /** `read_data_size`: one byte, decoded as a size or rejected with InvalidDataSize. */
  function FetchSize(mem: seq<byte>, ip: nat): (f: Fetched<DataSize>)
    ensures Advances(ip, f.ip, |mem|)
    ensures f.result.Ok? ==> f.ip == ip + 1
  {
    var (b, ip1) :- FetchByte(mem, ip);
    match SizeFromCode(b)
    case Some(s) => Fetched(ip1, Ok(s))
    case None => Fetched(ip1, Err(InvalidDataSize(b)))
  }

  /** An immediate of the given width: `SizeInBytes(size)` bytes, little-endian. */
  function FetchImmediate(mem: seq<byte>, ip: nat, size: DataSize): (f: Fetched<Immediate>)
    ensures Advances(ip, f.ip, |mem|)
    ensures f.result.Ok? ==> ImmSize(f.result.value) == size && f.ip == ip + SizeInBytes(size)
  {
    var (v, ip1) :- FetchBytes(mem, ip, SizeInBytes(size));
    Fetched(ip1, Ok(OfSize(size, v)))
  }

  /** A memory operand: a register base or an absolute base, then a qword offset. */
  datatype Address = RegisterBase(baseReg: Register, offset: u64) | AbsoluteBase(base: u64, offset: u64)

  /** The bytes of a memory operand: the variant byte, a register byte or a qword base, the qword offset. */
  function AddressLength(a: Address): nat
  {
    match a
    case RegisterBase(_, _) => 10
    case AbsoluteBase(_, _) => 17
  }

  /** The variant byte, the base, then the offset. */
  function FetchAddress(mem: seq<byte>, ip: nat): (f: Fetched<Address>)
    ensures Advances(ip, f.ip, |mem|)
    ensures f.result.Ok? ==> f.ip == ip + AddressLength(f.result.value)
  {
    var (variant, ip1) :- FetchByte(mem, ip);
    if variant == ADDRESSING_VARIANT_1 then
      var (r, ip2) :- FetchRegister(mem, ip1);
      var (offset, ip3) :- FetchQWord(mem, ip2);
      Fetched(ip3, Ok(RegisterBase(r, offset)))
    else if variant == ADDRESSING_VARIANT_2 then
      var (base, ip2) :- FetchQWord(mem, ip1);
      var (offset, ip3) :- FetchQWord(mem, ip2);
      Fetched(ip3, Ok(AbsoluteBase(base, offset)))
    else
      Fetched(ip1, Err(UnknownAddressingVariant(variant)))
  }

  /** The last operand of an ALU, compare or jump instruction. */
  datatype Operand = RegOperand(reg: Register) | ImmOperand(imm: Immediate)

  /** The bytes of an operand: one register byte, or the immediate's width. */
  function OperandLength(o: Operand): nat
  {
    match o
    case RegOperand(_) => 1
    case ImmOperand(imm) => SizeInBytes(ImmSize(imm))
  }

  /** A decoded instruction. */
  datatype Instr =
    | INop
    | IMovReg(dest: Register, src: Register)
    | IMovImm(dest: Register, imm: Immediate)
    | ILdr(dest: Register, addr: Address)
    | IStr(src: Register, addr: Address)
    | IPushReg(size: DataSize, src: Register)
    | IPushImm(imm: Immediate)
    | IPushAddr(size: DataSize, addr: Address)
    | IPopReg(size: DataSize, dest: Register)
    | IPopAddr(size: DataSize, addr: Address)
    | IArith(aop: ArithOp, dest: Register, lhs: Register, rhs: Operand)
    | IBitwise(bop: BitOp, dest: Register, lhs: Register, rhs: Operand)
    | IShift(sop: ShiftOp, dest: Register, lhs: Register, rhs: Operand)
    | ICmp(lhs: Register, rhs: Operand)
    | IJump(cond: Cond, target: Operand)
    | ICall(target: Operand)
    | IInc(dest: Register)
    | IDec(dest: Register)
    | IRet
    | ISyscall
    | IHlt

  /** The register-or-immediate last operand; an immediate has the width of `width`. */
  function FetchOperand(mem: seq<byte>, ip: nat, form: Form, width: DataSize): (f: Fetched<Operand>)
    ensures Advances(ip, f.ip, |mem|)
    ensures f.result.Ok? ==> f.ip == ip + OperandLength(f.result.value)
  {
    if form == RegForm then
      var (r, ip1) :- FetchRegister(mem, ip);
      Fetched(ip1, Ok(RegOperand(r)))
    else
      var (imm, ip1) :- FetchImmediate(mem, ip, width);
      Fetched(ip1, Ok(ImmOperand(imm)))
  }

  /** `dest, lhs, rhs` of an arithmetic, bitwise or shift instruction. */
  function FetchThree(mem: seq<byte>, ip: nat, form: Form, integerOnly: bool): (f: Fetched<(Register, Register, Operand)>)
    ensures Advances(ip, f.ip, |mem|)
    ensures f.result.Ok? ==> f.ip == ip + 2 + OperandLength(f.result.value.2)
  {
    var (dest, ip1) :- FetchRegister(mem, ip);
    var (lhs, ip2) :- FetchRegister(mem, ip1);
    if integerOnly && form == ImmForm && !SizeOf(dest).IsInteger() then
      Fetched(ip2, Err(InvalidDataSize(SizeCode(SizeOf(dest)))))
    else
      var (rhs, ip3) :- FetchOperand(mem, ip2, form, SizeOf(dest));
      Fetched(ip3, Ok((dest, lhs, rhs)))
  }

  /**
   * How many bytes of `i` `step` decodes after it has read the first
   * register value it uses: a register base is read before the qword
   * offset, the value `str` stores before its whole address, and the left
   * register of `cmp` and of the immediate ALU forms before the last
   * operand. Every other register value is read once `i` is decoded.
   */
  function ReadAhead(i: Instr): nat
  {
    match i
    case ILdr(_, _) => 8
    case IStr(_, a) => AddressLength(a)
    case IPushAddr(_, _) => 8
    case IPopAddr(_, _) => 8
    case IArith(_, _, _, rhs) => LhsBack(rhs)
    case IBitwise(_, _, _, rhs) => LhsBack(rhs)
    case IShift(_, _, _, rhs) => LhsBack(rhs)
    case ICmp(_, rhs) => OperandLength(rhs)
    case _ => 0
  }

  /**
   * The bytes an ALU instruction decodes after reading its left register:
   * the immediate of the immediate form; the register form reads both
   * values after decoding both registers.
   */
  function LhsBack(rhs: Operand): nat
  {
    if rhs.ImmOperand? then OperandLength(rhs) else 0
  }

  /** The operands that follow an opcode, read in the order `step` reads them. */
  function DecodeOperands(mem: seq<byte>, ip: nat, op: Opcode): (f: Fetched<Instr>)
    ensures Advances(ip, f.ip, |mem|)
  {
    match op
    case Nop => Fetched(ip, Ok(INop))
    case MovRegReg =>
      var (dest, ip1) :- FetchRegister(mem, ip);
      var (src, ip2) :- FetchRegister(mem, ip1);
      Fetched(ip2, Ok(IMovReg(dest, src)))
    case MovRegImm =>
      var (dest, ip1) :- FetchRegister(mem, ip);
      var (imm, ip2) :- FetchImmediate(mem, ip1, SizeOf(dest));
      Fetched(ip2, Ok(IMovImm(dest, imm)))
    case Ldr =>
      var (dest, ip1) :- FetchRegister(mem, ip);
      var (a, ip2) :- FetchAddress(mem, ip1);
      Fetched(ip2, Ok(ILdr(dest, a)))
    case Str =>
      var (src, ip1) :- FetchRegister(mem, ip);
      var (a, ip2) :- FetchAddress(mem, ip1);
      Fetched(ip2, Ok(IStr(src, a)))
    case PushReg =>
      var (size, ip1) :- FetchSize(mem, ip);
      var (src, ip2) :- FetchRegister(mem, ip1);
      Fetched(ip2, Ok(IPushReg(size, src)))
    case PushImm =>
      var (size, ip1) :- FetchSize(mem, ip);
      var (imm, ip2) :- FetchImmediate(mem, ip1, size);
      Fetched(ip2, Ok(IPushImm(imm)))
    case PushAddr =>
      var (size, ip1) :- FetchSize(mem, ip);
      var (a, ip2) :- FetchAddress(mem, ip1);
      Fetched(ip2, Ok(IPushAddr(size, a)))
    case PopReg =>
      var (size, ip1) :- FetchSize(mem, ip);
      var (dest, ip2) :- FetchRegister(mem, ip1);
      Fetched(ip2, Ok(IPopReg(size, dest)))
    case PopAddr =>
      var (size, ip1) :- FetchSize(mem, ip);
      var (a, ip2) :- FetchAddress(mem, ip1);
      Fetched(ip2, Ok(IPopAddr(size, a)))
    case Arith(aop, form) =>
      var (ops, ip1) :- FetchThree(mem, ip, form, false);
      Fetched(ip1, Ok(IArith(aop, ops.0, ops.1, ops.2)))
    case Bitwise(bop, form) =>
      var (ops, ip1) :- FetchThree(mem, ip, form, true);
      Fetched(ip1, Ok(IBitwise(bop, ops.0, ops.1, ops.2)))
    case Shift(sop, form) =>
      var (ops, ip1) :- FetchThree(mem, ip, form, true);
      Fetched(ip1, Ok(IShift(sop, ops.0, ops.1, ops.2)))
    case CmpRegImm =>
      var (r, ip1) :- FetchRegister(mem, ip);
      var (imm, ip2) :- FetchImmediate(mem, ip1, SizeOf(r));
      Fetched(ip2, Ok(ICmp(r, ImmOperand(imm))))
    case CmpRegReg =>
      var (l, ip1) :- FetchRegister(mem, ip);
      var (r, ip2) :- FetchRegister(mem, ip1);
      Fetched(ip2, Ok(ICmp(l, RegOperand(r))))
    case Jump(cond, form) =>
      var (t, ip1) :- FetchOperand(mem, ip, form, QWord);
      Fetched(ip1, Ok(IJump(cond, t)))
    case CallImm =>
      var (t, ip1) :- FetchOperand(mem, ip, ImmForm, QWord);
      Fetched(ip1, Ok(ICall(t)))
    case CallReg =>
      var (t, ip1) :- FetchOperand(mem, ip, RegForm, QWord);
      Fetched(ip1, Ok(ICall(t)))
    case Inc =>
      var (r, ip1) :- FetchRegister(mem, ip);
      Fetched(ip1, Ok(IInc(r)))
    case Dec =>
      var (r, ip1) :- FetchRegister(mem, ip);
      Fetched(ip1, Ok(IDec(r)))
    case Ret => Fetched(ip, Ok(IRet))
    case Syscall => Fetched(ip, Ok(ISyscall))
    case Hlt => Fetched(ip, Ok(IHlt))
  }

  /** The opcode byte, then its operands; an unknown opcode byte is InvalidOpcode. */
  function Decode(mem: seq<byte>, ip: nat): (f: Fetched<Instr>)
    ensures Advances(ip, f.ip, |mem|)
  {
    var (b, ip1) :- FetchByte(mem, ip);
    match OpcodeFromCode(b)
    case None => Fetched(ip1, Err(InvalidOpcode(b)))
    case Some(op) => DecodeOperands(mem, ip1, op)
  }

  /** Decoding an instruction has read at least `ReadAhead` of its bytes past the opcode. */
  lemma OperandsReadAhead(mem: seq<byte>, ip: nat, op: Opcode)
    requires DecodeOperands(mem, ip, op).result.Ok?
    ensures ip + ReadAhead(DecodeOperands(mem, ip, op).result.value) <= DecodeOperands(mem, ip, op).ip
  {
    if op.Ldr? || op.Str? || op.PushAddr? || op.PopAddr? {
      AddressedReadAhead(mem, ip, op);
    } else if op.Arith? {
      AluReadAhead(mem, ip, op);
    } else if op.Bitwise? {
      BitwiseReadAhead(mem, ip, op);
    } else if op.Shift? {
      ShiftReadAhead(mem, ip, op);
    } else if op.CmpRegImm? || op.CmpRegReg? {
      CompareReadAhead(mem, ip, op);
    } else {
      NoReadAhead(mem, ip, op);
    }
  }

  lemma AddressedReadAhead(mem: seq<byte>, ip: nat, op: Opcode)
    requires op.Ldr? || op.Str? || op.PushAddr? || op.PopAddr?
    requires DecodeOperands(mem, ip, op).result.Ok?
    ensures ip + ReadAhead(DecodeOperands(mem, ip, op).result.value) <= DecodeOperands(mem, ip, op).ip
  {
  }

  lemma AluReadAhead(mem: seq<byte>, ip: nat, op: Opcode)
    requires op.Arith?
    requires DecodeOperands(mem, ip, op).result.Ok?
    ensures ip + ReadAhead(DecodeOperands(mem, ip, op).result.value) <= DecodeOperands(mem, ip, op).ip
  {
  }

  lemma BitwiseReadAhead(mem: seq<byte>, ip: nat, op: Opcode)
    requires op.Bitwise?
    requires DecodeOperands(mem, ip, op).result.Ok?
    ensures ip + ReadAhead(DecodeOperands(mem, ip, op).result.value) <= DecodeOperands(mem, ip, op).ip
  {
  }

  lemma ShiftReadAhead(mem: seq<byte>, ip: nat, op: Opcode)
    requires op.Shift?
    requires DecodeOperands(mem, ip, op).result.Ok?
    ensures ip + ReadAhead(DecodeOperands(mem, ip, op).result.value) <= DecodeOperands(mem, ip, op).ip
  {
  }

  lemma CompareReadAhead(mem: seq<byte>, ip: nat, op: Opcode)
    requires op.CmpRegImm? || op.CmpRegReg?
    requires DecodeOperands(mem, ip, op).result.Ok?
    ensures ip + ReadAhead(DecodeOperands(mem, ip, op).result.value) <= DecodeOperands(mem, ip, op).ip
  {
  }

  lemma NoReadAhead(mem: seq<byte>, ip: nat, op: Opcode)
    requires !(op.Ldr? || op.Str? || op.PushAddr? || op.PopAddr? || op.Arith? || op.Bitwise? || op.Shift? || op.CmpRegImm? || op.CmpRegReg?)
    requires DecodeOperands(mem, ip, op).result.Ok?
    ensures ReadAhead(DecodeOperands(mem, ip, op).result.value) == 0
  {
  }

  /** When `Decode` succeeds, ip is past every byte `step` reads after its first register value. */
  lemma DecodeReadAhead(mem: seq<byte>, ip: nat)
    requires Decode(mem, ip).result.Ok?
    ensures ip + ReadAhead(Decode(mem, ip).result.value) <= Decode(mem, ip).ip
  {
    var b := FetchByte(mem, ip);
    var op := OpcodeFromCode(b.result.value).value;
    assert Decode(mem, ip) == DecodeOperands(mem, b.ip, op);
    OperandsReadAhead(mem, b.ip, op);
  }

  // -------------------------------------------------------------- execution

  /** What a successful step signals besides its new state. */
  datatype Signal =
    | Continue
      /** `syscall` with a known index (0 open, 1 close, 2 read, 3 write): the host call itself is outside the model. */
    | SyscallPending(index: nat)

  /** `regs.set(dest, imm)` on the state. */
  function SetReg(s: State, r: Register, imm: Immediate): (e: Exec<()>)
    requires s.Valid()
    ensures e.state.Valid() && e.state.halted == s.halted
    ensures e.result.Err? ==> e.state == s && e.result.error == FloatNotModelled
  {
    match Set(s.regs, r, imm)
    case Some(regs) => Exec(s.(regs := regs), Ok(()))
    case None => Exec(s, Err(FloatNotModelled))
  }

  /**
   * A register's value as `step` reads it when `back` bytes of the
   * instruction are still to be decoded. Decoding moves only ip, so every
   * other register reads as it does after the whole instruction, and ip
   * reads as the address of the first byte not yet decoded.
   */
  function ReadBack(s: State, r: Register, back: nat): (v: Immediate)
    requires s.Valid() && back <= s.Ip()
    ensures r != IP ==> v == Get(s.regs, r)
    ensures r == IP ==> v == QWordImm(s.Ip() - back)
  {
    Get(s.WithIp(s.Ip() - back).regs, r)
  }

  /**
   * `(base + offset) as usize`: a register base is read through `as_u64`,
   * before the 8 bytes of the offset are decoded.
   */
  function EffectiveAddress(s: State, a: Address): (r: Result<nat, VmError>)
    requires s.Valid() && (a.RegisterBase? ==> 8 <= s.Ip())
  {
    match a
    case AbsoluteBase(base, offset) => Ok(base + offset)
    case RegisterBase(reg, offset) =>
      match AsU64(ReadBack(s, reg, 8))
      case Some(base) => Ok(base + offset)
      case None => Err(FloatNotModelled)
  }

  /**
   * `VM::push`: StackOverflow when sp < n; otherwise sp drops by n first
   * and the value is then written at the new sp.
   */
  function Push(s: State, v: Immediate): (e: Exec<()>)
    requires s.Valid()
    ensures e.state.Valid() && e.state.Ip() == s.Ip() && e.state.halted == s.halted
    ensures var n := SizeInBytes(ImmSize(v));
      (s.Sp() < n ==> e == Exec(s, Err(StackOverflow))) &&
      (s.Sp() >= n ==> e.state.Sp() == s.Sp() - n)
    ensures e.result.Ok? ==> Written(s.mem, s.Sp() - SizeInBytes(ImmSize(v)), v, ImmSize(v)) == Ok(e.state.mem)
  {
    var n := SizeInBytes(ImmSize(v));
    if s.Sp() < n then Exec(s, Err(StackOverflow))
    else
      var s1 := s.WithSp(s.Sp() - n);
      match Written(s1.mem, s1.Sp(), v, ImmSize(v))
      case Err(e) => Exec(s1, Err(e))
      case Ok(mem) => Exec(s1.(mem := mem), Ok(()))
  }

  /**
   * `VM::pop`: StackUnderflow when sp + n exceeds memory; otherwise the
   * value at sp, with sp raised by n.
   */
  function Pop(s: State, size: DataSize): (e: Exec<Immediate>)
    requires s.Valid()
    ensures e.state.Valid() && e.state.Ip() == s.Ip() && e.state.mem == s.mem && e.state.halted == s.halted
    ensures s.Sp() + SizeInBytes(size) > |s.mem| ==> e == Exec(s, Err(StackUnderflow))
    ensures s.Sp() + SizeInBytes(size) <= |s.mem| ==>
      e.result == Read(s.mem, s.Sp(), size) && e.state.Sp() == s.Sp() + SizeInBytes(size)
  {
    var n := SizeInBytes(size);
    if s.Sp() + n > |s.mem| then Exec(s, Err(StackUnderflow))
    else
      var v := Read(s.mem, s.Sp(), size);
      Exec(s.WithSp(s.Sp() + n), v)
  }

  /** `Immediate::X(value.as_x()?)`: the register value cast to a push width. */
  function Cast(v: Immediate, size: DataSize): (r: Result<Immediate, VmError>)
    ensures r.Ok? ==> ImmSize(r.value) == size
  {
    match StoredPattern(v, size)
    case Some(p) => Ok(OfSize(size, p))
    case None => Err(FloatNotModelled)
  }

  function OperandValue(s: State, o: Operand): Immediate
    requires s.Valid()
  {
    match o
    case RegOperand(r) => Get(s.regs, r)
    case ImmOperand(imm) => imm
  }

  /**
   * The jump rule exactly as `step` writes it: JGT tests `!lt` alone, so it
   * also jumps when the compared values are equal.
   */
  function TakenAsWritten(c: Cond, eq: bool, lt: bool): bool
  {
    match c
    case Always => true
    case IfEq => eq
    case IfNe => !eq
    case IfLt => lt
    case IfGt => !lt
    case IfLe => lt || eq
    case IfGe => !lt || eq
  }

  /**
   * Whether a jump is taken, from the flags CMP left: the rule the
   * condition names promise. It agrees with `TakenAsWritten` except for
   * JGT after an equal compare, which does not jump here.
   */
  function Taken(c: Cond, eq: bool, lt: bool): (r: bool)
    ensures c != IfGt || !eq ==> r == TakenAsWritten(c, eq, lt)
  {
    match c
    case Always => true
    case IfEq => eq
    case IfNe => !eq
    case IfLt => lt
    case IfGt => !lt && !eq
    case IfLe => lt || eq
    case IfGe => !lt || eq
  }

  /** A jump or call target: a qword immediate, or a register read through `as_usize`. */
  function TargetAddress(s: State, t: Operand): (r: Result<u64, VmError>)
    requires s.Valid()
  {
    match AsUsize(OperandValue(s, t))
    case Some(a) => Ok(a)
    case None => Err(FloatNotModelled)
  }

  /** INC and DEC: wrapping ±1 at the register's own width. */
  function Bump(v: Immediate, up: bool): (r: Result<Immediate, VmError>)
    ensures r.Ok? ==> ImmSize(r.value) == ImmSize(v)
  {
    if !v.IsInteger() then Err(FloatNotModelled)
    else
      var m := Pow256(SizeInBytes(ImmSize(v)));
      var w := if up then (v.Value() + 1) % m else (v.Value() - 1) % m;
      Ok(OfSize(ImmSize(v), w))
  }

  /** A result that leaves the state as it is. */
  function Lift<T>(s: State, r: Result<T, VmError>): (e: Exec<T>)
    ensures e.state == s && e.result == r
  {
    Exec(s, r)
  }

  /** Writing a computed value to a register: a failure to compute it or to store it changes nothing. */
  function WriteBack(s: State, dest: Register, r: Result<Immediate, VmError>): (e: Exec<Signal>)
    requires s.Valid()
    ensures e.state.Valid() && e.state.halted == s.halted
    ensures r.Err? ==> e == Exec(s, Err(r.error))
  {
    var (v, _) :- Lift(s, r);
    var (_, s1) :- SetReg(s, dest, v);
    Exec(s1, Ok(Continue))
  }

  /**
   * The four arms of `step` with a memory operand: `ldr`, `str`, `push`
   * from memory and `pop` into memory. The address is computed first, and
   * a failure changes nothing but what a pop before it changed.
   */
  function AccessMemory(s: State, i: Instr): (e: Exec<Signal>)
    requires s.Valid() && ReadAhead(i) <= s.Ip()
    requires i.ILdr? || i.IStr? || i.IPushAddr? || i.IPopAddr?
    ensures e.state.Valid() && e.state.halted == s.halted
  {
    var (addr, _) :- Lift(s, EffectiveAddress(s, i.addr));
    match i
    case ILdr(dest, _) =>
      var (v, _) :- Lift(s, Read(s.mem, addr, SizeOf(dest)));
      var (_, s1) :- SetReg(s, dest, v);
      Exec(s1, Ok(Continue))
    case IStr(src, a) =>
      var (mem, _) :- Lift(s, Written(s.mem, addr, ReadBack(s, src, AddressLength(a)), SizeOf(src)));
      Exec(s.(mem := mem), Ok(Continue))
    case IPushAddr(size, _) =>
      var (v, _) :- Lift(s, Read(s.mem, addr, size));
      var (_, s1) :- Push(s, v);
      Exec(s1, Ok(Continue))
    case IPopAddr(size, _) =>
      var (v, s1) :- Pop(s, size);
      var (mem, _) :- Lift(s1, Written(s1.mem, addr, v, size));
      Exec(s1.(mem := mem), Ok(Continue))
  }

  /**
   * The effect of one decoded instruction, with ip already past it; a
   * register value `step` reads before the end of the instruction is read
   * as `ReadAhead` describes.
   */
  function Execute(s: State, i: Instr): (e: Exec<Signal>)
    requires s.Valid() && ReadAhead(i) <= s.Ip()
    ensures e.state.Valid()
    ensures e.state.halted <==> s.halted || i.IHlt?
    ensures i.IHlt? ==> e.result == Ok(Continue)
  {
    match i
    case INop => Exec(s, Ok(Continue))
    case IMovReg(dest, src) => WriteBack(s, dest, Ok(Get(s.regs, src)))
    case IMovImm(dest, imm) => WriteBack(s, dest, Ok(imm))
    case ILdr(_, _) => AccessMemory(s, i)
    case IStr(_, _) => AccessMemory(s, i)
    case IPushReg(size, src) =>
      var (v, _) :- Lift(s, Cast(Get(s.regs, src), size));
      var (_, s1) :- Push(s, v);
      Exec(s1, Ok(Continue))
    case IPushImm(imm) =>
      var (_, s1) :- Push(s, imm);
      Exec(s1, Ok(Continue))
    case IPushAddr(_, _) => AccessMemory(s, i)
    case IPopReg(size, dest) =>
      var (v, s1) :- Pop(s, size);
      var (_, s2) :- SetReg(s1, dest, v);
      Exec(s2, Ok(Continue))
    case IPopAddr(_, _) => AccessMemory(s, i)
    case IArith(op, dest, lhs, rhs) => WriteBack(s, dest, ArithResult(op, dest, ReadBack(s, lhs, LhsBack(rhs)), OperandValue(s, rhs)))
    case IBitwise(op, dest, lhs, rhs) => WriteBack(s, dest, BitwiseResult(op, dest, ReadBack(s, lhs, LhsBack(rhs)), OperandValue(s, rhs)))
    case IShift(op, dest, lhs, rhs) => WriteBack(s, dest, ShiftResult(op, dest, ReadBack(s, lhs, LhsBack(rhs)), OperandValue(s, rhs)))
    case ICmp(lhs, rhs) =>
      var flags := Compare(ReadBack(s, lhs, OperandLength(rhs)), OperandValue(s, rhs));
      if flags.None? then Exec(s, Err(FloatNotModelled))
      else Exec(s.(eq := flags.value.0, lt := flags.value.1), Ok(Continue))
    case IJump(cond, t) =>
      var (addr, _) :- Lift(s, TargetAddress(s, t));
      Exec(if Taken(cond, s.eq, s.lt) then s.WithIp(addr) else s, Ok(Continue))
    case ICall(t) =>
      var (addr, _) :- Lift(s, TargetAddress(s, t));
      var (_, s1) :- Push(s, QWordImm(s.Ip()));
      Exec(s1.WithIp(addr), Ok(Continue))
    case IInc(r) => WriteBack(s, r, Bump(Get(s.regs, r), true))
    case IDec(r) => WriteBack(s, r, Bump(Get(s.regs, r), false))
    case IRet =>
      var (v, s1) :- Pop(s, QWord);
      Exec(s1.WithIp(v.q), Ok(Continue))
    case ISyscall =>
      var index := Get(s.regs, Banked(QBank, 15)).q;
      if index < 4 then Exec(s, Ok(SyscallPending(index)))
      else Exec(s, Err(UnknownSyscall(index)))
    case IHlt => Exec(s.(halted := true), Ok(Continue))
  }

  /**
   * `VM::step`: nothing on a halted machine; otherwise decode at ip, leave
   * ip after what was read, and execute. A failure keeps every change made
   * before it.
   */
  function Step(s: State): (e: Exec<Signal>)
    requires s.Valid()
    ensures e.state.Valid()
    ensures s.halted ==> e == Exec(s, Ok(Continue))
    ensures e.state.halted ==> e.result == Ok(Continue)
  {
    if s.halted then Exec(s, Ok(Continue))
    else
      var f := Decode(s.mem, s.Ip());
      match f.result
      case Err(err) => Exec(s.WithIp(f.ip), Err(err))
      case Ok(i) =>
        DecodeReadAhead(s.mem, s.Ip());
        Execute(s.WithIp(f.ip), i)
  }

  /** How `run` ends. */
  datatype Stop =
    | Halted
    | Faulted(error: VmError)
      /** Stopped before the host call of a known syscall. */
    | AtSyscall(index: nat)
      /** The step budget ran out; the source would keep stepping. */
    | OutOfFuel

  /** `VM::run`: step until halted or the first error, for at most `fuel` steps. */
  function Run(s: State, fuel: nat): (r: (State, Stop))
    requires s.Valid()
    ensures r.0.Valid()
    ensures r.1 == Halted <==> r.0.halted
    decreases fuel
  {
    if s.halted then (s, Halted)
    else if fuel == 0 then (s, OutOfFuel)
    else
      var e := Step(s);
      match e.result
      case Err(err) => (e.state, Faulted(err))
      case Ok(SyscallPending(index)) => (e.state, AtSyscall(index))
      case Ok(Continue) => Run(e.state, fuel - 1)
  }

  // ---------------------------------------------------------------- lemmas

  /** Moving ip twice is moving it once, to the second place. */
  lemma WithIpTwice(s: State, a: u64, b: u64)
    requires s.Valid()
    ensures s.WithIp(a).WithIp(b) == s.WithIp(b)
  {
    assert s.regs.special[0 := a][0 := b] == s.regs.special[0 := b];
  }
}
