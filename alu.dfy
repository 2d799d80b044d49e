/**
 * The integer ALU of the VM (src/vm/macros.rs): wrapping arithmetic,
 * bitwise operations and masked shifts at the destination register's width.
 */
module Alu {
  import opened Wrappers
  import opened Bits
  import opened Immediates
  import opened VmErrors
  import opened Registers
  import opened Opcodes

  function Pow2(k: nat): (r: nat)
    ensures r >= 1
  {
    if k == 0 then 1 else 2 * Pow2(k - 1)
  }

  lemma {:induction false} Pow2Add(a: nat, b: nat)
    ensures Pow2(a + b) == Pow2(a) * Pow2(b)
  {
    if a > 0 {
      Pow2Add(a - 1, b);
    }
  }

  lemma {:induction false} Pow256IsPow2(n: nat)
    ensures Pow256(n) == Pow2(8 * n)
  {
    if n > 0 {
      Pow256IsPow2(n - 1);
      Pow2Add(8, 8 * (n - 1));
      assert Pow2(8) == 256;
    }
  }

  /** Bitwise AND of two naturals, bit by bit from the least significant. */
  function BitAnd(a: nat, b: nat): nat
  {
    if a == 0 || b == 0 then 0
    else 2 * BitAnd(a / 2, b / 2) + (if a % 2 == 1 && b % 2 == 1 then 1 else 0)
  }

  function BitOr(a: nat, b: nat): nat
    decreases a + b
  {
    if a == 0 then b
    else if b == 0 then a
    else 2 * BitOr(a / 2, b / 2) + (if a % 2 == 1 || b % 2 == 1 then 1 else 0)
  }

  function BitXor(a: nat, b: nat): nat
    decreases a + b
  {
    if a == 0 then b
    else if b == 0 then a
    else 2 * BitXor(a / 2, b / 2) + (if a % 2 != b % 2 then 1 else 0)
  }

  function BitOf(op: BitOp, a: nat, b: nat): nat
  {
    match op
    case And => BitAnd(a, b)
    case Or => BitOr(a, b)
    case Xor => BitXor(a, b)
  }

  /** No bitwise operation sets a bit above the operands' width. */
  lemma {:induction false} BitOfBounded(op: BitOp, a: nat, b: nat, k: nat)
    requires a < Pow2(k) && b < Pow2(k)
    ensures BitOf(op, a, b) < Pow2(k)
    decreases k
  {
    if k > 0 && a != 0 && b != 0 {
      BitOfBounded(op, a / 2, b / 2, k - 1);
    }
  }

  /** AND with 2^k - 1 keeps exactly the low k bits: the shift-count masks 7, 15, 31, 63. */
  lemma {:induction false} MaskIsMod(c: nat, k: nat)
    ensures BitAnd(c, Pow2(k) - 1) == c % Pow2(k)
    decreases k
  {
    if k > 0 && c != 0 {
      var p, half := Pow2(k), Pow2(k - 1);
      MaskHalf(k);
      AndOddMask(c, p - 1);
      assert BitAnd(c, p - 1) == 2 * BitAnd(c / 2, half - 1) + c % 2;
      MaskIsMod(c / 2, k - 1);
      ModProduct(c, 2, half);
      var low := (c / 2) % half;
      assert BitAnd(c / 2, half - 1) == low;
      assert c % p == c % 2 + 2 * low;
    } else if k == 0 {
      assert Pow2(k) - 1 == 0;
      assert c % 1 == 0;
    } else {
      assert c % Pow2(k) == 0;
    }
  }

  lemma MaskHalf(k: nat)
    requires k > 0
    ensures (Pow2(k) - 1) % 2 == 1 && (Pow2(k) - 1) / 2 == Pow2(k - 1) - 1
    ensures Pow2(k) == 2 * Pow2(k - 1)
  {
    DivModUnique(Pow2(k) - 1, 2, Pow2(k - 1) - 1, 1);
  }

  lemma AndOddMask(c: nat, mask: nat)
    requires c > 0 && mask % 2 == 1
    ensures BitAnd(c, mask) == 2 * BitAnd(c / 2, mask / 2) + c % 2
  {
  }

  /** The examples the VM's test suite checks: 15 & 10, 15 | 10, 15 ^ 10. */
  lemma BitExamples()
    ensures BitAnd(15, 10) == 10 && BitOr(15, 10) == 15 && BitXor(15, 10) == 5
  {
    assert BitAnd(1, 1) == 1;
    assert BitAnd(3, 2) == 2;
    assert BitAnd(7, 5) == 5;
    assert BitOr(1, 1) == 1;
    assert BitOr(3, 2) == 3;
    assert BitOr(7, 5) == 7;
    assert BitXor(1, 1) == 0;
    assert BitXor(3, 2) == 1;
    assert BitXor(7, 5) == 2;
  }

  /** x ^ x == 0 and x & x == x == x | x. */
  lemma {:induction false} BitSelf(a: nat)
    ensures BitXor(a, a) == 0 && BitAnd(a, a) == a && BitOr(a, a) == a
  {
    if a != 0 {
      BitSelf(a / 2);
    }
  }

  /** `wrapping_add/sub/mul/div` on an unsigned type with `m` values. */
  function Wrapping(op: ArithOp, m: nat, l: nat, r: nat): (res: Result<nat, VmError>)
    requires 0 < m && l < m && r < m
    ensures res.Ok? ==> res.value < m
    ensures res.Err? <==> op == Div && r == 0
  {
    match op
    case Add => Ok((l + r) % m)
    case Sub => Ok((l - r) % m)
    case Mul => Ok((l * r) % m)
    case Div => if r == 0 then Err(DivisionByZero) else DivAtMost(l, r); Ok(l / r)
  }

  lemma DivAtMost(l: nat, r: nat)
    requires r > 0
    ensures l / r <= l
  {
    var q := l / r;
    if q > 0 {
      MulAtLeast(q, r);
      assert l == r * q + l % r;
    }
  }

  /** Add and Sub wrap around once at most; Div never grows its dividend. */
  lemma WrappingCases(m: nat, l: nat, r: nat)
    requires 0 < m && l < m && r < m
    ensures Wrapping(Add, m, l, r) == Ok(if l + r < m then l + r else l + r - m)
    ensures Wrapping(Sub, m, l, r) == Ok(if r <= l then l - r else l - r + m)
    ensures r != 0 ==> Wrapping(Div, m, l, r).value <= l
  {
    if l + r < m {
      DivModUnique(l + r, m, 0, l + r);
    } else {
      DivModUnique(l + r, m, 1, l + r - m);
    }
    if r <= l {
      DivModUnique(l - r, m, 0, l - r);
    } else {
      DivModUnique(l - r, m, -1, l - r + m);
    }
    if r != 0 {
      DivAtMost(l, r);
    }
  }

  /** Wrapping subtraction undoes wrapping addition. */
  lemma SubUndoesAdd(m: nat, l: nat, r: nat)
    requires 0 < m && l < m && r < m
    ensures Wrapping(Sub, m, Wrapping(Add, m, l, r).value, r) == Ok(l)
  {
    WrappingCases(m, l, r);
    WrappingCases(m, Wrapping(Add, m, l, r).value, r);
  }

  /** The shift amount actually used: `count & (bits - 1)`. */
  function ShiftCount(count: nat, bits: nat): (k: nat)
    requires bits in {8, 16, 32, 64}
    ensures k < bits
    ensures k == count % bits
  {
    var k := BitAnd(count, bits - 1);
    assert k == count % bits by {
      if bits == 8 { assert Pow2(3) == 8; MaskIsMod(count, 3); }
      else if bits == 16 { assert Pow2(4) == 16; MaskIsMod(count, 4); }
      else if bits == 32 { assert Pow2(5) == 32; MaskIsMod(count, 5); }
      else { assert Pow2(6) == 64; MaskIsMod(count, 6); }
    }
    k
  }

  /** `<<` and `>>` on an unsigned type of `bits` bits with an in-range amount. */
  function ShiftBy(op: ShiftOp, bits: nat, l: nat, k: nat): (r: nat)
    requires k < bits
    ensures r < Pow2(bits)
  {
    var p := Pow2(bits);
    match op
    case Shl => (l * Pow2(k)) % p
    case Shr =>
      var low := l % p;
      DivAtMost(low, Pow2(k));
      low / Pow2(k)
  }

  /** The bit width of an integer destination. */
  function WidthBits(s: DataSize): (b: nat)
    requires s.IsInteger()
    ensures b in {8, 16, 32, 64} && Pow2(b) == Pow256(SizeInBytes(s))
  {
    Pow256IsPow2(SizeInBytes(s));
    8 * SizeInBytes(s)
  }

  /** The shift amount is the count modulo the width: 7/15/31/63 masks. */
  lemma ShiftCountIsMod(count: nat, s: DataSize)
    requires s.IsInteger()
    ensures ShiftCount(count, WidthBits(s)) == count % WidthBits(s)
    ensures s == Byte ==> ShiftCount(count, WidthBits(s)) == BitAnd(count, 7)
    ensures s == QWord ==> ShiftCount(count, WidthBits(s)) == BitAnd(count, 63)
  {
  }

  /** Both operands cast to the destination's width (`as_uN`), or the float conversion the model leaves out. */
  function Operands(s: DataSize, lhs: Immediate, rhs: Immediate): (r: Result<(nat, nat), VmError>)
    requires s.IsInteger()
    ensures r.Ok? <==> lhs.IsInteger() && rhs.IsInteger()
    ensures r.Err? ==> r.error == FloatNotModelled
    ensures r.Ok? ==> r.value == (Truncate(lhs.Value(), SizeInBytes(s)), Truncate(rhs.Value(), SizeInBytes(s)))
  {
    var n := SizeInBytes(s);
    match (AsUnsigned(lhs, n), AsUnsigned(rhs, n))
    case (Some(l), Some(r)) => Ok((l, r))
    case _ => Err(FloatNotModelled)
  }

  /** `binary_arithmetic_op(_imm)`: the result written to `dest`. */
  function ArithResult(op: ArithOp, dest: Register, lhs: Immediate, rhs: Immediate): (r: Result<Immediate, VmError>)
    ensures r.Ok? ==> ImmSize(r.value) == SizeOf(dest)
    ensures !SizeOf(dest).IsInteger() ==> r == Err(FloatNotModelled)
  {
    var s := SizeOf(dest);
    if !s.IsInteger() then Err(FloatNotModelled)
    else match Operands(s, lhs, rhs)
      case Err(e) => Err(e)
      case Ok((l, rv)) =>
        match Wrapping(op, Pow256(SizeInBytes(s)), l, rv)
        case Err(e) => Err(e)
        case Ok(v) => Ok(OfSize(s, v))
  }

  /** `binary_bitwise_op(_imm)`: float destinations are rejected with InvalidDataSize. */
  function BitwiseResult(op: BitOp, dest: Register, lhs: Immediate, rhs: Immediate): (r: Result<Immediate, VmError>)
    ensures r.Ok? ==> ImmSize(r.value) == SizeOf(dest)
    ensures !SizeOf(dest).IsInteger() ==> r == Err(InvalidDataSize(SizeCode(SizeOf(dest))))
  {
    var s := SizeOf(dest);
    if !s.IsInteger() then Err(InvalidDataSize(SizeCode(s)))
    else match Operands(s, lhs, rhs)
      case Err(e) => Err(e)
      case Ok((l, rv)) =>
        var bits := WidthBits(s);
        BitOfBounded(op, l, rv, bits);
        Ok(OfSize(s, BitOf(op, l, rv)))
  }

  /** `shift_op(_imm)`: the count is masked to the destination's width. */
  function ShiftResult(op: ShiftOp, dest: Register, lhs: Immediate, rhs: Immediate): (r: Result<Immediate, VmError>)
    ensures r.Ok? ==> ImmSize(r.value) == SizeOf(dest)
    ensures !SizeOf(dest).IsInteger() ==> r == Err(InvalidDataSize(SizeCode(SizeOf(dest))))
  {
    var s := SizeOf(dest);
    if !s.IsInteger() then Err(InvalidDataSize(SizeCode(s)))
    else match Operands(s, lhs, rhs)
      case Err(e) => Err(e)
      case Ok((l, rv)) =>
        var bits := WidthBits(s);
        Ok(OfSize(s, ShiftBy(op, bits, l, ShiftCount(rv, bits))))
  }

  /** Integer arithmetic is modular at the destination's width, on operands truncated to it. */
  lemma ArithIsModular(op: ArithOp, dest: Register, lhs: Immediate, rhs: Immediate)
    requires SizeOf(dest).IsInteger() && lhs.IsInteger() && rhs.IsInteger() && op != Div
    ensures var m := Pow256(SizeInBytes(SizeOf(dest)));
      var l, r := lhs.Value() % m, rhs.Value() % m;
      ArithResult(op, dest, lhs, rhs).Ok? &&
      ArithResult(op, dest, lhs, rhs).value.Value() ==
        match op case Add => (l + r) % m case Sub => (l - r) % m case Mul => (l * r) % m case Div => 0
  {
    var s := SizeOf(dest);
    OfSizeValue(s, Wrapping(op, Pow256(SizeInBytes(s)), lhs.Value() % Pow256(SizeInBytes(s)), rhs.Value() % Pow256(SizeInBytes(s))).value);
  }

  /** Byte arithmetic wraps: 255 + 1 is 0 in a byte register. */
  lemma ByteAddWraps(dest: Register)
    requires SizeOf(dest) == Byte
    ensures ArithResult(Add, dest, ByteImm(255), ByteImm(1)) == Ok(ByteImm(0))
  {
    Pow256Values();
  }

  /** Division by zero is the one integer ALU failure, and it does not depend on the width. */
  lemma DivByZero(dest: Register, lhs: Immediate, rhs: Immediate)
    requires SizeOf(dest).IsInteger() && lhs.IsInteger() && rhs.IsInteger()
    ensures ArithResult(Div, dest, lhs, rhs).Err? <==> rhs.Value() % Pow256(SizeInBytes(SizeOf(dest))) == 0
  {
  }
}
