/**
 * What executing instructions does to the machine state of module Machine:
 * the stack discipline, compare-and-jump, call and return, halting, the
 * ALU write-back and how `run` takes one step at a time.
 */
module VmProperties {
  import opened Wrappers
  import opened Bits
  import opened Immediates
  import opened VmErrors
  import opened Registers
  import opened Mem
  import opened Opcodes
  import opened Alu
  import opened Machine
  import opened Encoding

  /** The encoding of `i` sits at the instruction pointer. */
  predicate Fetches(s: State, i: Instr)
    requires s.Valid()
  {
    WellFormed(i) && At(s.mem, s.Ip(), Encode(i))
  }

  /**
   * The state with ip moved past the encoding of `i`, which is what
   * `Execute` starts from; every early register read of `i` lies inside it.
   */
  function After(s: State, i: Instr): (r: State)
    requires s.Valid() && Fetches(s, i)
    ensures r.Valid() && r.Ip() == s.Ip() + |Encode(i)|
    ensures ReadAhead(i) <= r.Ip()
  {
    DecodeEncoded(s.mem, s.Ip(), i);
    DecodeReadAhead(s.mem, s.Ip());
    s.WithIp(s.Ip() + |Encode(i)|)
  }

  /** At an encoded instruction, `step` decodes exactly that instruction and moves ip past it. */
  lemma StepDecodes(s: State, i: Instr)
    requires s.Valid() && Fetches(s, i)
    ensures Decode(s.mem, s.Ip()) == Fetched(After(s, i).Ip(), Ok(i))
    ensures s.WithIp(After(s, i).Ip()) == After(s, i)
  {
    DecodeEncoded(s.mem, s.Ip(), i);
  }

  // ------------------------------------------------------------------ stack

  /** A push succeeds exactly when the value fits below sp and sp is inside memory. */
  lemma PushOutcome(s: State, v: Immediate)
    requires s.Valid()
    ensures var n := SizeInBytes(ImmSize(v));
      (Push(s, v).result.Ok? <==> n <= s.Sp() <= |s.mem|) &&
      (n <= s.Sp() && |s.mem| < s.Sp() ==> Push(s, v).result == Err(InstructionPointerOutOfBounds(s.Sp() - n)))
  {
    var n := SizeInBytes(ImmSize(v));
    assert StoredPattern(v, ImmSize(v)).Some?;
  }

  /** Popping what was just pushed gives the value back and restores every register. */
  lemma PushPopRoundTrip(s: State, v: Immediate)
    requires s.Valid() && Push(s, v).result.Ok?
    ensures var p := Pop(Push(s, v).state, ImmSize(v));
      p.result == Ok(v) && p.state.regs == s.regs && p.state.mem == Push(s, v).state.mem
  {
    var n := SizeInBytes(ImmSize(v));
    var s1 := s.WithSp(s.Sp() - n);
    ReadAfterWrite(s1.mem, s1.Sp(), v, ImmSize(v));
    assert Push(s, v).state.regs.special[1 := s.Sp()] == s.regs.special;
  }

  // -------------------------------------------------------- compare and jump

  /** The relation each jump condition names, on the compared values. */
  function Holds(c: Cond, x: int, y: int): bool
  {
    match c
    case Always => true
    case IfEq => x == y
    case IfNe => x != y
    case IfLt => x < y
    case IfGt => x > y
    case IfLe => x <= y
    case IfGe => x >= y
  }

  /** After CMP of two integers of one width, a conditional jump is taken exactly when its relation holds. */
  lemma JumpFollowsCompare(l: Immediate, r: Immediate, c: Cond)
    requires l.IsInteger() && ImmSize(l) == ImmSize(r)
    ensures Compare(l, r).Some?
    ensures Taken(c, Compare(l, r).value.0, Compare(l, r).value.1) <==> Holds(c, l.Value(), r.Value())
  {
    assert l == r <==> l.Value() == r.Value();
  }

  /** As written, JGT after comparing equal values jumps, although `1337 > 1337` is false. */
  lemma JgtAsWrittenJumpsOnEqual()
    ensures var f := Compare(QWordImm(1337), QWordImm(1337)).value;
      TakenAsWritten(IfGt, f.0, f.1) && !Taken(IfGt, f.0, f.1) && !Holds(IfGt, 1337, 1337)
  {
  }

  /**
   * CMP of two integers of one width sets eq and lt from their values and
   * changes nothing else; the left register is read before the second
   * operand is decoded.
   */
  lemma ExecuteCompare(a: State, lhs: Register, rhs: Operand)
    requires a.Valid() && OperandLength(rhs) <= a.Ip() && SizeOf(lhs).IsInteger() && (rhs.RegOperand? ==> SizeOf(rhs.reg) == SizeOf(lhs))
    requires rhs.ImmOperand? ==> ImmSize(rhs.imm) == SizeOf(lhs)
    ensures var x, y := ReadBack(a, lhs, OperandLength(rhs)), OperandValue(a, rhs);
      Execute(a, ICmp(lhs, rhs)) == Exec(a.(eq := x.Value() == y.Value(), lt := x.Value() < y.Value()), Ok(Continue))
  {
    var x, y := ReadBack(a, lhs, OperandLength(rhs)), OperandValue(a, rhs);
    assert x == y <==> x.Value() == y.Value();
  }

  /** A jump to a qword address goes there when taken and leaves ip alone otherwise. */
  lemma ExecuteJump(a: State, c: Cond, target: u64)
    requires a.Valid()
    ensures Execute(a, IJump(c, ImmOperand(QWordImm(target)))) ==
      Exec(if Taken(c, a.eq, a.lt) then a.WithIp(target) else a, Ok(Continue))
  {
    Pow256Values();
  }

  /** CALL pushes the current ip (already past the instruction) and then jumps to the target. */
  lemma ExecuteCall(a: State, target: u64)
    requires a.Valid()
    ensures var p := Push(a, QWordImm(a.Ip()));
      Execute(a, ICall(ImmOperand(QWordImm(target)))) ==
        if p.result.Ok? then Exec(p.state.WithIp(target), Ok(Continue)) else Exec(p.state, Err(p.result.error))
  {
    Pow256Values();
  }

  /** RET pops a qword and jumps to it. */
  lemma ExecuteRet(a: State)
    requires a.Valid()
    ensures var p := Pop(a, QWord);
      Execute(a, IRet) ==
        if p.result.Ok? then Exec(p.state.WithIp(p.result.value.q), Ok(Continue)) else Exec(p.state, Err(p.result.error))
  {
  }

  /** At an encoded CMP, `step` executes it with ip past its bytes. */
  lemma StepCompare(s: State, lhs: Register, rhs: Operand)
    requires s.Valid() && !s.halted && Fetches(s, ICmp(lhs, rhs))
    ensures Step(s) == Execute(After(s, ICmp(lhs, rhs)), ICmp(lhs, rhs))
  {
    StepDecodes(s, ICmp(lhs, rhs));
  }

  /**
   * `cmp ip, r` compares the address two bytes into the instruction, where
   * r's byte sits, and not the address after it: `step` reads ip before it
   * decodes r.
   */
  lemma StepCompareIp(s: State, rhs: Register)
    requires s.Valid() && !s.halted && SizeOf(rhs) == QWord && Fetches(s, ICmp(IP, RegOperand(rhs)))
    ensures var y := OperandValue(After(s, ICmp(IP, RegOperand(rhs))), RegOperand(rhs)).Value();
      Step(s).result == Ok(Continue) &&
      (Step(s).state.eq <==> s.Ip() + 2 == y) && (Step(s).state.lt <==> s.Ip() + 2 < y)
  {
    var i := ICmp(IP, RegOperand(rhs));
    StepCompare(s, IP, RegOperand(rhs));
    assert |Encode(i)| == 3;
    ExecuteCompare(After(s, i), IP, RegOperand(rhs));
  }

  /** At an encoded jump, `step` executes it with ip past its 9 bytes. */
  lemma StepJump(s: State, c: Cond, target: u64)
    requires s.Valid() && !s.halted && Fetches(s, IJump(c, ImmOperand(QWordImm(target))))
    ensures Step(s) == Execute(After(s, IJump(c, ImmOperand(QWordImm(target)))), IJump(c, ImmOperand(QWordImm(target))))
  {
    StepDecodes(s, IJump(c, ImmOperand(QWordImm(target))));
  }

  /** At an encoded CALL, `step` executes it with ip past its 9 bytes. */
  lemma StepCall(s: State, target: u64)
    requires s.Valid() && !s.halted && Fetches(s, ICall(ImmOperand(QWordImm(target))))
    ensures Step(s) == Execute(After(s, ICall(ImmOperand(QWordImm(target)))), ICall(ImmOperand(QWordImm(target))))
  {
    StepDecodes(s, ICall(ImmOperand(QWordImm(target))));
  }

  /** At an encoded RET, `step` executes it with ip past its single byte. */
  lemma StepRet(s: State)
    requires s.Valid() && !s.halted && Fetches(s, IRet)
    ensures Step(s) == Execute(After(s, IRet), IRet)
  {
    StepDecodes(s, IRet);
  }

  /** At an encoded HLT, `step` executes it with ip past its single byte. */
  lemma StepHlt(s: State)
    requires s.Valid() && !s.halted && Fetches(s, IHlt)
    ensures Step(s) == Execute(After(s, IHlt), IHlt)
  {
    StepDecodes(s, IHlt);
  }

  /**
   * CMP followed by a jump wherever ip then points: the jump is taken
   * exactly when its relation holds of the compared values.
   */
  lemma CompareThenJump(a: State, lhs: Register, rhs: Operand, c: Cond, target: u64, ip: u64)
    requires a.Valid() && OperandLength(rhs) <= a.Ip() && SizeOf(lhs).IsInteger() && (rhs.RegOperand? ==> SizeOf(rhs.reg) == SizeOf(lhs))
    requires rhs.ImmOperand? ==> ImmSize(rhs.imm) == SizeOf(lhs)
    ensures var x, y := ReadBack(a, lhs, OperandLength(rhs)), OperandValue(a, rhs);
      var e := Execute(a, ICmp(lhs, rhs));
      var b := e.state.WithIp(ip);
      e.result == Ok(Continue) &&
      Execute(b, IJump(c, ImmOperand(QWordImm(target)))) ==
        Exec(if Holds(c, x.Value(), y.Value()) then b.WithIp(target) else b, Ok(Continue))
  {
    ExecuteCompare(a, lhs, rhs);
    var x, y := ReadBack(a, lhs, OperandLength(rhs)), OperandValue(a, rhs);
    JumpFollowsCompare(x, y, c);
    var b := Execute(a, ICmp(lhs, rhs)).state.WithIp(ip);
    ExecuteJump(b, c, target);
  }

  /** The qword a CALL pushed is popped back, leaving the registers as before the call (ip aside). */
  lemma PopReturnAddress(a: State, target: u64)
    requires a.Valid() && Push(a, QWordImm(a.Ip())).result.Ok?
    ensures var s1 := Push(a, QWordImm(a.Ip())).state.WithIp(target);
      var b := Pop(s1, QWord);
      s1.Sp() == a.Sp() - 8 &&
      Read(s1.mem, s1.Sp(), QWord) == Ok(QWordImm(a.Ip())) &&
      b.result == Ok(QWordImm(a.Ip())) &&
      b.state.regs.special[1..] == a.regs.special[1..] &&
      b.state.regs.gpr == a.regs.gpr && b.state.regs.fpr == a.regs.fpr
  {
    var ret := QWordImm(a.Ip());
    var pushed := Push(a, ret);
    Pow256Values();
    PushPopRoundTrip(a, ret);
    PopIgnoresIp(pushed.state, target, QWord);
  }

  /** Where ip points does not affect a pop. */
  lemma PopIgnoresIp(x: State, v: u64, size: DataSize)
    requires x.Valid()
    ensures Pop(x.WithIp(v), size).result == Pop(x, size).result
    ensures Pop(x.WithIp(v), size).state.regs.special[1..] == Pop(x, size).state.regs.special[1..]
    ensures Pop(x.WithIp(v), size).state.regs.gpr == Pop(x, size).state.regs.gpr
    ensures Pop(x.WithIp(v), size).state.regs.fpr == Pop(x, size).state.regs.fpr
  {
  }

  /**
   * CALL followed by RET wherever the target leads: control comes back to
   * the address just after the CALL, with sp and every other register as
   * they were before the call.
   */
  lemma RetAfterCall(a: State, target: u64, ip: u64)
    requires a.Valid() && Execute(a, ICall(ImmOperand(QWordImm(target)))).result.Ok?
    ensures var s1 := Execute(a, ICall(ImmOperand(QWordImm(target)))).state;
      var s2 := Execute(s1.WithIp(ip), IRet);
      s1.Ip() == target && s1.Sp() == a.Sp() - 8 &&
      s2.result == Ok(Continue) &&
      s2.state.regs == a.regs
  {
    ExecuteCall(a, target);
    PopReturnAddress(a, target);
    var s1 := Execute(a, ICall(ImmOperand(QWordImm(target)))).state;
    assert s1 == Push(a, QWordImm(a.Ip())).state.WithIp(target);
    ExecuteRet(s1.WithIp(ip));
    PopIgnoresIp(s1, ip, QWord);
    var b := Pop(s1.WithIp(ip), QWord);
    assert b.state.regs.special[1..] == a.regs.special[1..];
    assert b.state.WithIp(a.Ip()).regs.special == a.regs.special;
  }

  /** HLT sets the halted flag and changes nothing else. */
  lemma ExecuteHlt(a: State)
    requires a.Valid()
    ensures Execute(a, IHlt) == Exec(a.(halted := true), Ok(Continue))
  {
  }

  /** HLT halts. */
  lemma HltHalts(s: State)
    requires s.Valid() && !s.halted && Fetches(s, IHlt)
    ensures Step(s) == Exec(s.WithIp(s.Ip() + 1).(halted := true), Ok(Continue))
  {
    StepHlt(s);
    EncodedLengths(Always, 0);
    var a := After(s, IHlt);
    assert a == s.WithIp(s.Ip() + 1);
    ExecuteHlt(a);
  }

  /** `run` stops at HLT, reporting Halted with ip just past it. */
  lemma RunStopsAtHlt(s: State, fuel: nat)
    requires s.Valid() && !s.halted && Fetches(s, IHlt) && fuel > 0
    ensures Run(s, fuel) == (s.WithIp(s.Ip() + 1).(halted := true), Halted)
  {
    HltHalts(s);
    var h := s.WithIp(s.Ip() + 1).(halted := true);
    assert Run(h, fuel - 1) == (h, Halted);
  }

  /** `run` on a running machine with fuel left is one step followed by the rest of the run. */
  lemma RunUnfold(s: State, fuel: nat)
    requires s.Valid() && !s.halted && fuel > 0
    ensures var e := Step(s);
      Run(s, fuel) ==
        if e.result.Err? then (e.state, Faulted(e.result.error))
        else if e.result.value.SyscallPending? then (e.state, AtSyscall(e.result.value.index))
        else Run(e.state, fuel - 1)
  {
  }

  // ------------------------------------------------------------- write-back

  /** Setting a register to a value of its own width reads back that value. */
  lemma SetSameWidth(rf: RegFile, r: Register, v: Immediate)
    requires rf.Valid() && ImmSize(v) == SizeOf(r)
    ensures Set(rf, r, v).Some? && Get(Set(rf, r, v).value, r) == v
  {
    ViewIsSize(r);
    GetAfterSet(rf, r, v);
    if SizeOf(r).IsInteger() {
      var n := SizeInBytes(SizeOf(r));
      DivModUnique(v.Value(), Pow256(n), 0, v.Value());
      assert Pattern(v) == v.Value();
    }
  }

  /** The effect of writing `v` to `dest` and continuing: `dest` reads `v`, nothing else moves. */
  ghost predicate WritesBack(s: State, e: Exec<Signal>, dest: Register, v: Immediate)
    requires s.Valid() && e.state.Valid()
  {
    e.result == Ok(Continue) &&
    Get(e.state.regs, dest) == v &&
    (forall r :: LocationOf(r) != LocationOf(dest) ==> Get(e.state.regs, r) == Get(s.regs, r)) &&
    e.state.(regs := s.regs) == s
  }

  /**
   * Writing a computed value of the destination's width succeeds and has
   * exactly that effect; a failed computation changes nothing.
   */
  lemma WriteBackWrites(s: State, dest: Register, r: Result<Immediate, VmError>)
    requires s.Valid() && (r.Ok? ==> ImmSize(r.value) == SizeOf(dest))
    ensures r.Err? ==> WriteBack(s, dest, r) == Exec(s, Err(r.error))
    ensures r.Ok? ==> WritesBack(s, WriteBack(s, dest, r), dest, r.value)
  {
    if r.Ok? {
      var v := r.value;
      SetSameWidth(s.regs, dest, v);
      forall x | LocationOf(x) != LocationOf(dest)
        ensures Get(Set(s.regs, dest, v).value, x) == Get(s.regs, x)
      {
        GetOtherAfterSet(s.regs, dest, v, x);
      }
    }
  }

  /** MOV of an immediate of the destination's width stores it unchanged. */
  lemma MovImmWritesBack(s: State, dest: Register, imm: Immediate)
    requires s.Valid() && ImmSize(imm) == SizeOf(dest)
    ensures WritesBack(s, Execute(s, IMovImm(dest, imm)), dest, imm)
  {
    WriteBackWrites(s, dest, Ok(imm));
  }

  /** MOV between registers of one width copies the source into the destination. */
  lemma MovRegWritesBack(s: State, dest: Register, src: Register)
    requires s.Valid() && SizeOf(src) == SizeOf(dest)
    ensures WritesBack(s, Execute(s, IMovReg(dest, src)), dest, Get(s.regs, src))
  {
    WriteBackWrites(s, dest, Ok(Get(s.regs, src)));
  }

  /**
   * An arithmetic instruction whose result is defined writes it, at the
   * destination's width, to the destination and nowhere else; otherwise
   * it fails and changes nothing.
   */
  lemma ArithWritesBack(s: State, op: ArithOp, dest: Register, lhs: Register, rhs: Operand)
    requires s.Valid() && LhsBack(rhs) <= s.Ip()
    ensures var res := ArithResult(op, dest, ReadBack(s, lhs, LhsBack(rhs)), OperandValue(s, rhs));
      var e := Execute(s, IArith(op, dest, lhs, rhs));
      (res.Err? ==> e == Exec(s, Err(res.error))) &&
      (res.Ok? ==> WritesBack(s, e, dest, res.value))
  {
    var res := ArithResult(op, dest, ReadBack(s, lhs, LhsBack(rhs)), OperandValue(s, rhs));
    assert Execute(s, IArith(op, dest, lhs, rhs)) == WriteBack(s, dest, res);
    WriteBackWrites(s, dest, res);
  }

  /** The same for AND, OR and XOR. */
  lemma BitwiseWritesBack(s: State, op: BitOp, dest: Register, lhs: Register, rhs: Operand)
    requires s.Valid() && LhsBack(rhs) <= s.Ip()
    ensures var res := BitwiseResult(op, dest, ReadBack(s, lhs, LhsBack(rhs)), OperandValue(s, rhs));
      var e := Execute(s, IBitwise(op, dest, lhs, rhs));
      (res.Err? ==> e == Exec(s, Err(res.error))) &&
      (res.Ok? ==> WritesBack(s, e, dest, res.value))
  {
    var res := BitwiseResult(op, dest, ReadBack(s, lhs, LhsBack(rhs)), OperandValue(s, rhs));
    assert Execute(s, IBitwise(op, dest, lhs, rhs)) == WriteBack(s, dest, res);
    WriteBackWrites(s, dest, res);
  }

  /** The same for SHL and SHR. */
  lemma ShiftWritesBack(s: State, op: ShiftOp, dest: Register, lhs: Register, rhs: Operand)
    requires s.Valid() && LhsBack(rhs) <= s.Ip()
    ensures var res := ShiftResult(op, dest, ReadBack(s, lhs, LhsBack(rhs)), OperandValue(s, rhs));
      var e := Execute(s, IShift(op, dest, lhs, rhs));
      (res.Err? ==> e == Exec(s, Err(res.error))) &&
      (res.Ok? ==> WritesBack(s, e, dest, res.value))
  {
    var res := ShiftResult(op, dest, ReadBack(s, lhs, LhsBack(rhs)), OperandValue(s, rhs));
    assert Execute(s, IShift(op, dest, lhs, rhs)) == WriteBack(s, dest, res);
    WriteBackWrites(s, dest, res);
  }

  /** Wrapping ±1 in a width of `m` values. */
  lemma BumpValue(v: Immediate, up: bool)
    requires v.IsInteger()
    ensures var m := Pow256(SizeInBytes(ImmSize(v)));
      var x := v.Value();
      Bump(v, up).Ok? && Bump(v, up).value.IsInteger() &&
      Bump(v, up).value.Value() == if up then (if x + 1 == m then 0 else x + 1) else (if x == 0 then m - 1 else x - 1)
  {
    var m := Pow256(SizeInBytes(ImmSize(v)));
    var x: int := v.Value();
    var w: nat;
    if up { w := WrapUp(x, m); } else { w := WrapDown(x, m); }
    assert Bump(v, up) == Ok(OfSize(ImmSize(v), w));
    OfSizeValue(ImmSize(v), w);
  }

  /** `(x + 1) % m` for `x < m`. */
  lemma WrapUp(x: int, m: int) returns (w: nat)
    requires 0 <= x < m
    ensures w == (x + 1) % m && w == if x + 1 == m then 0 else x + 1
  {
    if x + 1 == m { DivModUnique(x + 1, m, 1, 0); } else { DivModUnique(x + 1, m, 0, x + 1); }
    w := (x + 1) % m;
  }

  /** `(x - 1) % m` for `x < m`, Euclidean like `wrapping_sub`. */
  lemma WrapDown(x: int, m: int) returns (w: nat)
    requires 0 <= x < m
    ensures w == (x - 1) % m && w == if x == 0 then m - 1 else x - 1
  {
    if x == 0 { DivModUnique(x - 1, m, -1, m - 1); } else { DivModUnique(x - 1, m, 0, x - 1); }
    w := (x - 1) % m;
  }

  /** INC wraps at the register's width (255 + 1 is 0 in a byte register) and touches nothing else. */
  lemma IncWraps(s: State, r: Register)
    requires s.Valid() && SizeOf(r).IsInteger()
    ensures var m := Pow256(SizeInBytes(SizeOf(r)));
      var x := Get(s.regs, r).Value();
      var e := Execute(s, IInc(r));
      WritesBack(s, e, r, Bump(Get(s.regs, r), true).value) &&
      Get(e.state.regs, r).Value() == if x + 1 == m then 0 else x + 1
  {
    var v := Get(s.regs, r);
    BumpValue(v, true);
    WriteBackWrites(s, r, Bump(v, true));
  }

  /** DEC wraps at the register's width (0 - 1 is 255 in a byte register) and touches nothing else. */
  lemma DecWraps(s: State, r: Register)
    requires s.Valid() && SizeOf(r).IsInteger()
    ensures var m := Pow256(SizeInBytes(SizeOf(r)));
      var x := Get(s.regs, r).Value();
      var e := Execute(s, IDec(r));
      WritesBack(s, e, r, Bump(Get(s.regs, r), false).value) &&
      Get(e.state.regs, r).Value() == if x == 0 then m - 1 else x - 1
  {
    var v := Get(s.regs, r);
    BumpValue(v, false);
    WriteBackWrites(s, r, Bump(v, false));
  }
}
