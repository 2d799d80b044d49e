/**
 * `VM` (src/vm/mod.rs) as the source has it: a register file and a memory
 * updated in place, the two compare flags and the halted bit. Every method
 * is proved to leave the VM in the state the functions of module Machine
 * compute, so the properties proved about those functions hold of it.
 */
module Vm {
  import opened Wrappers
  import opened Bits
  import opened Immediates
  import opened VmErrors
  import opened Registers
  import opened Mem
  import opened Opcodes
  import opened Alu
  import opened Machine

  class VM {
    const regs: RegisterFile
    const mem: Memory
    var eq: bool
    var lt: bool
    var halted: bool

    ghost predicate Valid()
    {
      regs.Valid() && mem.storage.Length < U64_LIMIT
    }

    /** The whole VM as a value of type `Machine.State`. */
    function Snapshot(): (s: State)
      reads this, regs.gpr, regs.fpr, regs.special, mem.storage
      requires Valid()
      ensures s.Valid()
    {
      State(regs.Snapshot(), mem.storage[..], eq, lt, halted)
    }

    /** The VM equals `s0` with ip moved to where fetch `f` stopped, and `r` is what `f` fetched. */
    ghost predicate FetchedBy<T>(s0: State, f: Fetched<T>, r: Result<T, VmError>)
      reads this, regs.gpr, regs.fpr, regs.special, mem.storage
      requires Valid() && s0.Valid() && Advances(s0.Ip(), f.ip, |s0.mem|)
    {
      r == f.result && Snapshot() == s0.WithIp(f.ip)
    }

    /** Fresh registers and flags over `size` zero bytes of memory. */
    constructor (size: u64)
      ensures Valid() && Snapshot() == State(ZeroFile(), seq(size, _ => 0), false, false, false)
      ensures fresh(regs.gpr) && fresh(regs.fpr) && fresh(regs.special) && fresh(mem.storage)
    {
      regs := new RegisterFile();
      mem := new Memory(size);
      eq, lt, halted := false, false, false;
      new;
      assert mem.storage[..] == seq(size, _ => 0);
    }

    /**
     * `VM::new`: the load checks, then sp = memory size, bp = 0, ip = entry
     * and the body copied to address 0.
     */
    static method New(program: seq<byte>, memSize: u64) returns (r: Result<VM, VmError>)
      ensures r.Ok? <==> Load(program, memSize).Ok?
      ensures r.Err? ==> r.error == Load(program, memSize).error
      ensures r.Ok? ==> r.value.Valid() && r.value.Snapshot() == Load(program, memSize).value
      ensures r.Ok? ==> fresh(r.value.regs.gpr) && fresh(r.value.regs.fpr) && fresh(r.value.regs.special)
      ensures r.Ok? ==> fresh(r.value.mem.storage)
    {
      if |program| < 8 {
        return Err(ProgramTooSmall(|program|));
      }
      var entry := FromLittleEndian(program[..8]);
      var body := program[8..];
      if entry >= |body| {
        return Err(InvalidEntryPoint(entry, |body|));
      }
      if |body| > memSize {
        return Err(ProgramTooLarge(|body|, memSize));
      }
      var vm := Boot(entry, body, memSize);
      assert Load(program, memSize).value == vm.Snapshot();
      r := Ok(vm);
    }

    /** The VM `VM::new` builds once its checks pass. */
    static method Boot(entry: u64, body: seq<byte>, memSize: u64) returns (vm: VM)
      requires |body| <= memSize
      ensures vm.Valid()
      ensures vm.Snapshot() == State(ZeroFile().(special := [entry, memSize, 0]), body + seq(memSize - |body|, _ => 0), false, false, false)
      ensures fresh(vm.regs.gpr) && fresh(vm.regs.fpr) && fresh(vm.regs.special) && fresh(vm.mem.storage)
    {
      vm := new VM(memSize);
      vm.regs.SetSp(memSize);
      vm.regs.SetBp(0);
      vm.regs.SetIp(entry);
      forall i | 0 <= i < |body| {
        vm.mem.storage[i] := body[i];
      }
      assert vm.regs.Snapshot() == ZeroFile().(special := [entry, memSize, 0]);
      assert vm.mem.storage[..] == body + seq(memSize - |body|, _ => 0);
    }

    // ------------------------------------------------------------ fetching

    /**
     * `read_byte`, `read_word`, `read_dword` and `read_qword` for n = 1, 2,
     * 4 and 8: the little-endian value of the n bytes at ip, and ip moved
     * past them.
     */
    method ReadBytes(n: nat) returns (r: Result<nat, VmError>)
      requires Valid() && n > 0
      modifies regs.special
      ensures Valid()
      ensures FetchedBy(old(Snapshot()), FetchBytes(old(Snapshot()).mem, old(regs.Ip()), n), r)
    {
      var ip := regs.Ip();
      if ip + n > mem.Len() {
        return Err(InstructionPointerOutOfBounds(ip));
      }
      r := Ok(FromLittleEndian(mem.storage[ip..ip + n]));
      regs.SetIp(ip + n);
    }

    method ReadByte() returns (r: Result<byte, VmError>)
      requires Valid()
      modifies regs.special
      ensures Valid()
      ensures FetchedBy(old(Snapshot()), FetchByte(old(Snapshot()).mem, old(regs.Ip())), r)
    {
      Pow256Values();
      var v := ReadBytes(1);
      if v.Err? {
        return Err(v.error);
      }
      r := Ok(v.value);
    }

    method ReadQWord() returns (r: Result<u64, VmError>)
      requires Valid()
      modifies regs.special
      ensures Valid()
      ensures FetchedBy(old(Snapshot()), FetchQWord(old(Snapshot()).mem, old(regs.Ip())), r)
    {
      Pow256Values();
      var v := ReadBytes(8);
      if v.Err? {
        return Err(v.error);
      }
      r := Ok(v.value);
    }

    /** `read_register`. */
    method ReadRegister() returns (r: Result<Register, VmError>)
      requires Valid()
      modifies regs.special
      ensures Valid()
      ensures FetchedBy(old(Snapshot()), FetchRegister(old(Snapshot()).mem, old(regs.Ip())), r)
    {
      var b := ReadByte();
      if b.Err? {
        return Err(b.error);
      }
      match RegisterFromCode(b.value) {
        case Some(reg) => r := Ok(reg);
        case None => r := Err(InvalidRegister(b.value));
      }
    }

    /** `read_data_size`. */
    method ReadDataSize() returns (r: Result<DataSize, VmError>)
      requires Valid()
      modifies regs.special
      ensures Valid()
      ensures FetchedBy(old(Snapshot()), FetchSize(old(Snapshot()).mem, old(regs.Ip())), r)
    {
      var b := ReadByte();
      if b.Err? {
        return Err(b.error);
      }
      match SizeFromCode(b.value) {
        case Some(size) => r := Ok(size);
        case None => r := Err(InvalidDataSize(b.value));
      }
    }

    /** The `match DataSize { Byte => Immediate::Byte(self.read_byte()?), ... }` read of `step`. */
    method ReadImmediate(size: DataSize) returns (r: Result<Immediate, VmError>)
      requires Valid()
      modifies regs.special
      ensures Valid()
      ensures FetchedBy(old(Snapshot()), FetchImmediate(old(Snapshot()).mem, old(regs.Ip()), size), r)
    {
      var v := ReadBytes(SizeInBytes(size));
      if v.Err? {
        return Err(v.error);
      }
      r := Ok(OfSize(size, v.value));
    }

    /** The addressing variant byte, the base register or absolute base, and the offset. */
    method ReadAddress() returns (r: Result<Address, VmError>)
      requires Valid()
      modifies regs.special
      ensures Valid()
      ensures FetchedBy(old(Snapshot()), FetchAddress(old(Snapshot()).mem, old(regs.Ip())), r)
    {
      ghost var s0 := Snapshot();
      var variant := ReadByte();
      ghost var f1 := FetchByte(s0.mem, s0.Ip());
      if variant.Err? {
        return Err(variant.error);
      }
      if variant.value == ADDRESSING_VARIANT_1 {
        var base := ReadRegister();
        ghost var f2 := FetchRegister(s0.mem, f1.ip);
        WithIpTwice(s0, f1.ip, f2.ip);
        if base.Err? {
          assert FetchAddress(s0.mem, s0.Ip()) == Fetched(f2.ip, Err(base.error));
          return Err(base.error);
        }
        var offset := ReadQWord();
        ghost var f3 := FetchQWord(s0.mem, f2.ip);
        WithIpTwice(s0, f2.ip, f3.ip);
        if offset.Err? {
          assert FetchAddress(s0.mem, s0.Ip()) == Fetched(f3.ip, Err(offset.error));
          return Err(offset.error);
        }
        r := Ok(RegisterBase(base.value, offset.value));
        assert FetchAddress(s0.mem, s0.Ip()) == Fetched(f3.ip, r);
      } else if variant.value == ADDRESSING_VARIANT_2 {
        var base := ReadQWord();
        ghost var f2 := FetchQWord(s0.mem, f1.ip);
        WithIpTwice(s0, f1.ip, f2.ip);
        if base.Err? {
          assert FetchAddress(s0.mem, s0.Ip()) == Fetched(f2.ip, Err(base.error));
          return Err(base.error);
        }
        var offset := ReadQWord();
        ghost var f3 := FetchQWord(s0.mem, f2.ip);
        WithIpTwice(s0, f2.ip, f3.ip);
        if offset.Err? {
          assert FetchAddress(s0.mem, s0.Ip()) == Fetched(f3.ip, Err(offset.error));
          return Err(offset.error);
        }
        r := Ok(AbsoluteBase(base.value, offset.value));
        assert FetchAddress(s0.mem, s0.Ip()) == Fetched(f3.ip, r);
      } else {
        r := Err(UnknownAddressingVariant(variant.value));
        assert FetchAddress(s0.mem, s0.Ip()) == Fetched(f1.ip, r);
      }
    }

    /** The register-or-immediate last operand of an ALU, compare, jump or call instruction. */
    method ReadOperand(form: Form, width: DataSize) returns (r: Result<Operand, VmError>)
      requires Valid()
      modifies regs.special
      ensures Valid()
      ensures FetchedBy(old(Snapshot()), FetchOperand(old(Snapshot()).mem, old(regs.Ip()), form, width), r)
    {
      if form == RegForm {
        var reg := ReadRegister();
        if reg.Err? {
          return Err(reg.error);
        }
        r := Ok(RegOperand(reg.value));
      } else {
        var imm := ReadImmediate(width);
        if imm.Err? {
          return Err(imm.error);
        }
        r := Ok(ImmOperand(imm.value));
      }
    }

    /**
     * `dest`, `lhs` and `rhs` as the macros of src/vm/macros.rs read them;
     * the bitwise and shift `_imm` forms refuse a float destination before
     * reading the immediate.
     */
    method ReadThree(form: Form, integerOnly: bool) returns (r: Result<(Register, Register, Operand), VmError>)
      requires Valid()
      modifies regs.special
      ensures Valid()
      ensures FetchedBy(old(Snapshot()), FetchThree(old(Snapshot()).mem, old(regs.Ip()), form, integerOnly), r)
    {
      ghost var s0 := Snapshot();
      var dest := ReadRegister();
      ghost var f1 := FetchRegister(s0.mem, s0.Ip());
      if dest.Err? {
        return Err(dest.error);
      }
      var lhs := ReadRegister();
      ghost var f2 := FetchRegister(s0.mem, f1.ip);
      WithIpTwice(s0, f1.ip, f2.ip);
      if lhs.Err? {
        return Err(lhs.error);
      }
      if integerOnly && form == ImmForm && !SizeOf(dest.value).IsInteger() {
        return Err(InvalidDataSize(SizeCode(SizeOf(dest.value))));
      }
      var rhs := ReadOperand(form, SizeOf(dest.value));
      ghost var f3 := FetchOperand(s0.mem, f2.ip, form, SizeOf(dest.value));
      WithIpTwice(s0, f2.ip, f3.ip);
      if rhs.Err? {
        return Err(rhs.error);
      }
      r := Ok((dest.value, lhs.value, rhs.value));
    }

    // ------------------------------------------------------------ decoding

    /** The operands of `mov r, r` and `cmp r, r`. */
    method ReadRegisterPair(op: Opcode) returns (r: Result<Instr, VmError>)
      requires Valid() && (op.MovRegReg? || op.CmpRegReg?)
      modifies regs.special
      ensures Valid()
      ensures FetchedBy(old(Snapshot()), DecodeOperands(old(Snapshot()).mem, old(regs.Ip()), op), r)
    {
      ghost var s0 := Snapshot();
      var a := ReadRegister();
      ghost var f1 := FetchRegister(s0.mem, s0.Ip());
      if a.Err? {
        return Err(a.error);
      }
      var b := ReadRegister();
      ghost var f2 := FetchRegister(s0.mem, f1.ip);
      WithIpTwice(s0, f1.ip, f2.ip);
      if b.Err? {
        return Err(b.error);
      }
      r := Ok(if op.MovRegReg? then IMovReg(a.value, b.value) else ICmp(a.value, RegOperand(b.value)));
    }

    /** The operands of `mov r, imm` and `cmp r, imm`: the immediate has the register's width. */
    method ReadRegisterImmediate(op: Opcode) returns (r: Result<Instr, VmError>)
      requires Valid() && (op.MovRegImm? || op.CmpRegImm?)
      modifies regs.special
      ensures Valid()
      ensures FetchedBy(old(Snapshot()), DecodeOperands(old(Snapshot()).mem, old(regs.Ip()), op), r)
    {
      ghost var s0 := Snapshot();
      var reg := ReadRegister();
      ghost var f1 := FetchRegister(s0.mem, s0.Ip());
      if reg.Err? {
        return Err(reg.error);
      }
      var imm := ReadImmediate(SizeOf(reg.value));
      ghost var f2 := FetchImmediate(s0.mem, f1.ip, SizeOf(reg.value));
      WithIpTwice(s0, f1.ip, f2.ip);
      if imm.Err? {
        return Err(imm.error);
      }
      r := Ok(if op.MovRegImm? then IMovImm(reg.value, imm.value) else ICmp(reg.value, ImmOperand(imm.value)));
    }

    /** The operands of `ldr` and `str`: a register, then an address. */
    method ReadRegisterAddress(op: Opcode) returns (r: Result<Instr, VmError>)
      requires Valid() && (op.Ldr? || op.Str?)
      modifies regs.special
      ensures Valid()
      ensures FetchedBy(old(Snapshot()), DecodeOperands(old(Snapshot()).mem, old(regs.Ip()), op), r)
    {
      ghost var s0 := Snapshot();
      var reg := ReadRegister();
      ghost var f1 := FetchRegister(s0.mem, s0.Ip());
      if reg.Err? {
        return Err(reg.error);
      }
      var a := ReadAddress();
      ghost var f2 := FetchAddress(s0.mem, f1.ip);
      WithIpTwice(s0, f1.ip, f2.ip);
      if a.Err? {
        return Err(a.error);
      }
      r := Ok(if op.Ldr? then ILdr(reg.value, a.value) else IStr(reg.value, a.value));
    }

    /** The operands of `push` and `pop`: a data size, then a register, an immediate or an address. */
    method ReadStackOperands(op: Opcode) returns (r: Result<Instr, VmError>)
      requires Valid() && (op.PushReg? || op.PushImm? || op.PushAddr? || op.PopReg? || op.PopAddr?)
      modifies regs.special
      ensures Valid()
      ensures FetchedBy(old(Snapshot()), DecodeOperands(old(Snapshot()).mem, old(regs.Ip()), op), r)
    {
      ghost var s0 := Snapshot();
      var size := ReadDataSize();
      ghost var f1 := FetchSize(s0.mem, s0.Ip());
      if size.Err? {
        return Err(size.error);
      }
      if op.PushImm? {
        var imm := ReadImmediate(size.value);
        ghost var f2 := FetchImmediate(s0.mem, f1.ip, size.value);
        WithIpTwice(s0, f1.ip, f2.ip);
        if imm.Err? {
          return Err(imm.error);
        }
        r := Ok(IPushImm(imm.value));
      } else if op.PushReg? || op.PopReg? {
        var reg := ReadRegister();
        ghost var f2 := FetchRegister(s0.mem, f1.ip);
        WithIpTwice(s0, f1.ip, f2.ip);
        if reg.Err? {
          return Err(reg.error);
        }
        r := Ok(if op.PushReg? then IPushReg(size.value, reg.value) else IPopReg(size.value, reg.value));
      } else {
        var a := ReadAddress();
        ghost var f2 := FetchAddress(s0.mem, f1.ip);
        WithIpTwice(s0, f1.ip, f2.ip);
        if a.Err? {
          return Err(a.error);
        }
        r := Ok(if op.PushAddr? then IPushAddr(size.value, a.value) else IPopAddr(size.value, a.value));
      }
    }

    /** The operands of an arithmetic, bitwise or shift instruction. */
    method ReadAluOperands(op: Opcode) returns (r: Result<Instr, VmError>)
      requires Valid() && (op.Arith? || op.Bitwise? || op.Shift?)
      modifies regs.special
      ensures Valid()
      ensures FetchedBy(old(Snapshot()), DecodeOperands(old(Snapshot()).mem, old(regs.Ip()), op), r)
    {
      var form := if op.Arith? then op.aform else if op.Bitwise? then op.bform else op.sform;
      var ops := ReadThree(form, !op.Arith?);
      if ops.Err? {
        return Err(ops.error);
      }
      var (dest, lhs, rhs) := ops.value;
      match op {
        case Arith(aop, _) => r := Ok(IArith(aop, dest, lhs, rhs));
        case Bitwise(bop, _) => r := Ok(IBitwise(bop, dest, lhs, rhs));
        case Shift(sop, _) => r := Ok(IShift(sop, dest, lhs, rhs));
      }
    }

    /** The register operand of `inc` and `dec`. */
    method ReadIncDec(op: Opcode) returns (r: Result<Instr, VmError>)
      requires Valid() && (op.Inc? || op.Dec?)
      modifies regs.special
      ensures Valid()
      ensures FetchedBy(old(Snapshot()), DecodeOperands(old(Snapshot()).mem, old(regs.Ip()), op), r)
    {
      var reg := ReadRegister();
      if reg.Err? {
        return Err(reg.error);
      }
      r := Ok(if op.Inc? then IInc(reg.value) else IDec(reg.value));
    }

    /** The target operand of a jump or call: a qword immediate or a register. */
    method ReadTarget(op: Opcode) returns (r: Result<Instr, VmError>)
      requires Valid() && (op.Jump? || op.CallImm? || op.CallReg?)
      modifies regs.special
      ensures Valid()
      ensures FetchedBy(old(Snapshot()), DecodeOperands(old(Snapshot()).mem, old(regs.Ip()), op), r)
    {
      var form := if op.Jump? then op.jform else if op.CallImm? then ImmForm else RegForm;
      var t := ReadOperand(form, QWord);
      if t.Err? {
        return Err(t.error);
      }
      r := Ok(if op.Jump? then IJump(op.cond, t.value) else ICall(t.value));
    }

    /** The operands that follow opcode `op`, read as the arm of `step` for `op` reads them. */
    method ReadOperands(op: Opcode) returns (r: Result<Instr, VmError>)
      requires Valid()
      modifies regs.special
      ensures Valid()
      ensures FetchedBy(old(Snapshot()), DecodeOperands(old(Snapshot()).mem, old(regs.Ip()), op), r)
    {
      match op {
        case Nop => r := Ok(INop);
        case Ret => r := Ok(IRet);
        case Syscall => r := Ok(ISyscall);
        case Hlt => r := Ok(IHlt);
        case MovRegReg => r := ReadRegisterPair(op);
        case CmpRegReg => r := ReadRegisterPair(op);
        case MovRegImm => r := ReadRegisterImmediate(op);
        case CmpRegImm => r := ReadRegisterImmediate(op);
        case Ldr => r := ReadRegisterAddress(op);
        case Str => r := ReadRegisterAddress(op);
        case PushReg => r := ReadStackOperands(op);
        case PushImm => r := ReadStackOperands(op);
        case PushAddr => r := ReadStackOperands(op);
        case PopReg => r := ReadStackOperands(op);
        case PopAddr => r := ReadStackOperands(op);
        case Arith(_, _) => r := ReadAluOperands(op);
        case Bitwise(_, _) => r := ReadAluOperands(op);
        case Shift(_, _) => r := ReadAluOperands(op);
        case Jump(_, _) => r := ReadTarget(op);
        case CallImm => r := ReadTarget(op);
        case CallReg => r := ReadTarget(op);
        case Inc => r := ReadIncDec(op);
        case Dec => r := ReadIncDec(op);
      }
    }

    /** The opcode byte at ip (InvalidOpcode when it names none), then its operands. */
    method Decode() returns (r: Result<Instr, VmError>)
      requires Valid()
      modifies regs.special
      ensures Valid()
      ensures FetchedBy(old(Snapshot()), Machine.Decode(old(Snapshot()).mem, old(regs.Ip())), r)
    {
      ghost var s0 := Snapshot();
      var b := ReadByte();
      ghost var f1 := FetchByte(s0.mem, s0.Ip());
      if b.Err? {
        return Err(b.error);
      }
      match OpcodeFromCode(b.value) {
        case None =>
          r := Err(InvalidOpcode(b.value));
        case Some(op) =>
          r := ReadOperands(op);
          ghost var f2 := DecodeOperands(s0.mem, f1.ip, op);
          WithIpTwice(s0, f1.ip, f2.ip);
      }
    }

    // ----------------------------------------------------------- execution

    /** `regs.get(reg)` for a register operand, the immediate itself otherwise. */
    method ReadOperandValue(o: Operand) returns (v: Immediate)
      requires Valid()
      ensures v == OperandValue(Snapshot(), o)
    {
      match o {
        case RegOperand(reg) => v := regs.Read(reg);
        case ImmOperand(imm) => v := imm;
      }
    }

    /** A register's value as `step` reads it with `back` bytes of the instruction still to decode. */
    method ReadBack(reg: Register, back: nat) returns (v: Immediate)
      requires Valid() && back <= Snapshot().Ip()
      ensures v == Machine.ReadBack(Snapshot(), reg, back)
    {
      if reg == IP {
        v := QWordImm(regs.Ip() - back);
      } else {
        v := regs.Read(reg);
      }
    }

    /** `(base + offset) as usize`, a register base read through `as_u64` before the offset is decoded. */
    method ComputeAddress(a: Address) returns (r: Result<nat, VmError>)
      requires Valid() && (a.RegisterBase? ==> 8 <= Snapshot().Ip())
      ensures r == EffectiveAddress(Snapshot(), a)
    {
      match a {
        case AbsoluteBase(base, offset) =>
          r := Ok(base + offset);
        case RegisterBase(reg, offset) =>
          var v := ReadBack(reg, 8);
          var base := AsU64(v);
          if base.None? {
            return Err(FloatNotModelled);
          }
          r := Ok(base.value + offset);
      }
    }

    /** A jump or call target read through `as_usize`. */
    method ComputeTarget(t: Operand) returns (r: Result<u64, VmError>)
      requires Valid()
      ensures r == TargetAddress(Snapshot(), t)
    {
      var v := ReadOperandValue(t);
      var a := AsUsize(v);
      if a.None? {
        return Err(FloatNotModelled);
      }
      r := Ok(a.value);
    }

    /** `self.regs.set(dest, value)` for a value computed before, or the error computing it. */
    method WriteBack(dest: Register, res: Result<Immediate, VmError>) returns (r: Result<Signal, VmError>)
      requires Valid()
      modifies regs.gpr, regs.fpr, regs.special
      ensures Valid()
      ensures Exec(Snapshot(), r) == Machine.WriteBack(old(Snapshot()), dest, res)
    {
      if res.Err? {
        return Err(res.error);
      }
      var ok := regs.Write(dest, res.value);
      if !ok {
        return Err(FloatNotModelled);
      }
      r := Ok(Continue);
    }

    /** `VM::push`. */
    method Push(v: Immediate) returns (r: Result<(), VmError>)
      requires Valid()
      modifies regs.special, mem.storage
      ensures Valid()
      ensures Exec(Snapshot(), r) == Machine.Push(old(Snapshot()), v)
    {
      var n := SizeInBytes(ImmSize(v));
      var sp := regs.Sp();
      if sp < n {
        return Err(StackOverflow);
      }
      regs.SetSp(sp - n);
      var w := mem.Write(sp - n, v, ImmSize(v));
      if w.Err? {
        return Err(w.error);
      }
      r := Ok(());
    }

    /** `VM::pop`. */
    method Pop(size: DataSize) returns (r: Result<Immediate, VmError>)
      requires Valid()
      modifies regs.special
      ensures Valid()
      ensures Exec(Snapshot(), r) == Machine.Pop(old(Snapshot()), size)
    {
      var n := SizeInBytes(size);
      var sp := regs.Sp();
      if sp + n > mem.Len() {
        return Err(StackUnderflow);
      }
      r := Read(mem.storage[..], sp, size);
      regs.SetSp(sp + n);
    }

    /** The arms of `step` that only write a register: `mov`, the ALU macros, `inc` and `dec`. */
    method ExecuteRegisterWrite(i: Instr) returns (r: Result<Signal, VmError>)
      requires Valid() && ReadAhead(i) <= Snapshot().Ip()
      requires i.IMovReg? || i.IMovImm? || i.IArith? || i.IBitwise? || i.IShift? || i.IInc? || i.IDec?
      modifies regs.gpr, regs.fpr, regs.special
      ensures Valid()
      ensures Exec(Snapshot(), r) == Machine.Execute(old(Snapshot()), i)
    {
      match i {
        case IMovReg(dest, src) =>
          var v := regs.Read(src);
          r := WriteBack(dest, Ok(v));
        case IMovImm(dest, imm) =>
          r := WriteBack(dest, Ok(imm));
        case IArith(op, dest, lhs, rhs) =>
          var l := ReadBack(lhs, LhsBack(rhs));
          var v := ReadOperandValue(rhs);
          r := WriteBack(dest, ArithResult(op, dest, l, v));
        case IBitwise(op, dest, lhs, rhs) =>
          var l := ReadBack(lhs, LhsBack(rhs));
          var v := ReadOperandValue(rhs);
          r := WriteBack(dest, BitwiseResult(op, dest, l, v));
        case IShift(op, dest, lhs, rhs) =>
          var l := ReadBack(lhs, LhsBack(rhs));
          var v := ReadOperandValue(rhs);
          r := WriteBack(dest, ShiftResult(op, dest, l, v));
        case IInc(reg) =>
          var v := regs.Read(reg);
          r := WriteBack(reg, Bump(v, true));
        case IDec(reg) =>
          var v := regs.Read(reg);
          r := WriteBack(reg, Bump(v, false));
      }
    }

    /** `ldr` and `str`. */
    method ExecuteLoadStore(i: Instr) returns (r: Result<Signal, VmError>)
      requires Valid() && ReadAhead(i) <= Snapshot().Ip() && (i.ILdr? || i.IStr?)
      modifies regs.gpr, regs.fpr, regs.special, mem.storage
      ensures Valid()
      ensures Exec(Snapshot(), r) == Machine.Execute(old(Snapshot()), i)
    {
      var addr := ComputeAddress(i.addr);
      if addr.Err? {
        return Err(addr.error);
      }
      if i.ILdr? {
        var v := Read(mem.storage[..], addr.value, SizeOf(i.dest));
        if v.Err? {
          return Err(v.error);
        }
        r := WriteBack(i.dest, v);
      } else {
        var v := ReadBack(i.src, AddressLength(i.addr));
        var w := mem.Write(addr.value, v, SizeOf(i.src));
        if w.Err? {
          return Err(w.error);
        }
        r := Ok(Continue);
      }
    }

    /** The three `push` arms: the value is a cast register, an immediate or a memory read. */
    method ExecutePush(i: Instr) returns (r: Result<Signal, VmError>)
      requires Valid() && ReadAhead(i) <= Snapshot().Ip() && (i.IPushReg? || i.IPushImm? || i.IPushAddr?)
      modifies regs.special, mem.storage
      ensures Valid()
      ensures Exec(Snapshot(), r) == Machine.Execute(old(Snapshot()), i)
    {
      var v: Result<Immediate, VmError>;
      match i {
        case IPushReg(size, src) =>
          var x := regs.Read(src);
          v := Cast(x, size);
        case IPushImm(imm) =>
          v := Ok(imm);
        case IPushAddr(size, a) =>
          var addr := ComputeAddress(a);
          if addr.Err? {
            return Err(addr.error);
          }
          v := Read(mem.storage[..], addr.value, size);
      }
      if v.Err? {
        return Err(v.error);
      }
      var p := Push(v.value);
      if p.Err? {
        return Err(p.error);
      }
      r := Ok(Continue);
    }

    /** The two `pop` arms: into a register, or into memory at an address read before popping. */
    method ExecutePop(i: Instr) returns (r: Result<Signal, VmError>)
      requires Valid() && ReadAhead(i) <= Snapshot().Ip() && (i.IPopReg? || i.IPopAddr?)
      modifies regs.gpr, regs.fpr, regs.special, mem.storage
      ensures Valid()
      ensures Exec(Snapshot(), r) == Machine.Execute(old(Snapshot()), i)
    {
      if i.IPopReg? {
        var v := Pop(i.size);
        if v.Err? {
          return Err(v.error);
        }
        r := WriteBack(i.dest, v);
      } else {
        var addr := ComputeAddress(i.addr);
        if addr.Err? {
          return Err(addr.error);
        }
        var v := Pop(i.size);
        if v.Err? {
          return Err(v.error);
        }
        var w := mem.Write(addr.value, v.value, i.size);
        if w.Err? {
          return Err(w.error);
        }
        r := Ok(Continue);
      }
    }

    /** `cmp`: eq and lt from comparing the register with the second operand. */
    method ExecuteCompare(i: Instr) returns (r: Result<Signal, VmError>)
      requires Valid() && ReadAhead(i) <= Snapshot().Ip() && i.ICmp?
      modifies this
      ensures Valid()
      ensures Exec(Snapshot(), r) == Machine.Execute(old(Snapshot()), i)
    {
      var l := ReadBack(i.lhs, OperandLength(i.rhs));
      var v := ReadOperandValue(i.rhs);
      var flags := Compare(l, v);
      if flags.None? {
        return Err(FloatNotModelled);
      }
      eq, lt := flags.value.0, flags.value.1;
      r := Ok(Continue);
    }

    /** The jumps: ip moves to the target when the condition holds of the flags. */
    method ExecuteJump(i: Instr) returns (r: Result<Signal, VmError>)
      requires Valid() && i.IJump?
      modifies regs.special
      ensures Valid()
      ensures Exec(Snapshot(), r) == Machine.Execute(old(Snapshot()), i)
    {
      var addr := ComputeTarget(i.target);
      if addr.Err? {
        return Err(addr.error);
      }
      if Taken(i.cond, eq, lt) {
        regs.SetIp(addr.value);
      }
      r := Ok(Continue);
    }

    /** `call`: push the address after the instruction, then jump; `ret`: pop it back into ip. */
    method ExecuteCallReturn(i: Instr) returns (r: Result<Signal, VmError>)
      requires Valid() && (i.ICall? || i.IRet?)
      modifies regs.special, mem.storage
      ensures Valid()
      ensures Exec(Snapshot(), r) == Machine.Execute(old(Snapshot()), i)
    {
      if i.ICall? {
        var addr := ComputeTarget(i.target);
        if addr.Err? {
          return Err(addr.error);
        }
        var p := Push(QWordImm(regs.Ip()));
        if p.Err? {
          return Err(p.error);
        }
        regs.SetIp(addr.value);
      } else {
        var v := Pop(QWord);
        if v.Err? {
          return Err(v.error);
        }
        regs.SetIp(v.value.q);
      }
      r := Ok(Continue);
    }

    /** `nop`, `hlt`, and the dispatch on Q15 of `syscall`. */
    method ExecuteSystem(i: Instr) returns (r: Result<Signal, VmError>)
      requires Valid() && (i.INop? || i.IHlt? || i.ISyscall?)
      modifies this
      ensures Valid()
      ensures Exec(Snapshot(), r) == Machine.Execute(old(Snapshot()), i)
    {
      if i.IHlt? {
        halted := true;
      } else if i.ISyscall? {
        var q15 := regs.Read(Banked(QBank, 15));
        if q15.q >= 4 {
          return Err(UnknownSyscall(q15.q));
        }
        return Ok(SyscallPending(q15.q));
      }
      r := Ok(Continue);
    }

    /** The effect of a decoded instruction, dispatched as the arms of `step` are. */
    method Execute(i: Instr) returns (r: Result<Signal, VmError>)
      requires Valid() && ReadAhead(i) <= Snapshot().Ip()
      modifies this, regs.gpr, regs.fpr, regs.special, mem.storage
      ensures Valid()
      ensures Exec(Snapshot(), r) == Machine.Execute(old(Snapshot()), i)
    {
      if i.IMovReg? || i.IMovImm? || i.IArith? || i.IBitwise? || i.IShift? || i.IInc? || i.IDec? {
        r := ExecuteRegisterWrite(i);
      } else if i.ILdr? || i.IStr? {
        r := ExecuteLoadStore(i);
      } else if i.IPushReg? || i.IPushImm? || i.IPushAddr? {
        r := ExecutePush(i);
      } else if i.IPopReg? || i.IPopAddr? {
        r := ExecutePop(i);
      } else if i.ICmp? {
        r := ExecuteCompare(i);
      } else if i.IJump? {
        r := ExecuteJump(i);
      } else if i.ICall? || i.IRet? {
        r := ExecuteCallReturn(i);
      } else {
        r := ExecuteSystem(i);
      }
    }

    /**
     * `VM::step`: nothing on a halted VM; otherwise fetch and decode at ip,
     * then execute. A failure keeps every change made before it.
     */
    method Step() returns (r: Result<Signal, VmError>)
      requires Valid()
      modifies this, regs.gpr, regs.fpr, regs.special, mem.storage
      ensures Valid()
      ensures Exec(Snapshot(), r) == Machine.Step(old(Snapshot()))
    {
      if halted {
        return Ok(Continue);
      }
      ghost var s0 := Snapshot();
      var i := Decode();
      if i.Err? {
        return Err(i.error);
      }
      DecodeReadAhead(s0.mem, s0.Ip());
      r := Execute(i.value);
    }

    /**
     * `VM::run`: step until halted or the first error. The source loops
     * without bound; here the loop takes at most `fuel` steps, and it also
     * stops before the host part of a known syscall.
     */
    method Run(fuel: nat) returns (stop: Stop)
      requires Valid()
      modifies this, regs.gpr, regs.fpr, regs.special, mem.storage
      ensures Valid()
      ensures (Snapshot(), stop) == Machine.Run(old(Snapshot()), fuel)
    {
      var left := fuel;
      while !halted && left > 0
        invariant Valid()
        invariant Machine.Run(Snapshot(), left) == Machine.Run(old(Snapshot()), fuel)
        decreases left
      {
        var r := Step();
        match r {
          case Err(e) => return Faulted(e);
          case Ok(SyscallPending(index)) => return AtSyscall(index);
          case Ok(Continue) =>
        }
        left := left - 1;
      }
      stop := if halted then Halted else OutOfFuel;
    }
  }
}
