/**
 * `substitute_expr` of src/preprocessor/mod.rs: defined identifiers are
 * replaced by their definitions, recursively, and a binary operation whose
 * operands become two integer or two float literals is folded. Also the
 * preprocessor's error type, shared by the conditional pass and the
 * driver.
 */
module Substitution {
  import opened Wrappers
  import opened Bits
  import opened Spans
  import opened Ast
  import Alu
  import Opcodes

  /**
   * The errors of the preprocessor. The source's `Error { message }` is
   * `ErrorMessage` here. The last two tags stand for runs on which the
   * source does not return: `FoldPanic` for an i64 overflow or a division
   * by zero while folding (the Rust arithmetic panics), `RecursiveDefine`
   * for a definition that expands into itself (the recursion never ends).
   */
  datatype PreprocessError =
    | IncludeFileNotFound(file: string, span: Span)
    | CircularInclude(file: string, span: Span)
    | UnmatchedIfdef(span: Span)
    | UnmatchedIfndef(span: Span)
    | UnmatchedElse(span: Span)
    | UnmatchedEndif(span: Span)
    | InvalidDefineKey(span: Span)
    | InvalidIncludePath(span: Span)
    | InvalidConditionalExpr(span: Span)
    | InvalidOperatorForFloat(op: BinaryOperator, span: Span)
    | ErrorMessage(message: string, span: Span)
    | FoldPanic(span: Span)
    | RecursiveDefine(name: string)

  /** The preprocessor's definitions: name to replacement expression. */
  type Definitions = map<string, Expression>

  /**
   * IEEE-754 double arithmetic (`+ - * /` on `f64`), on bit patterns. Float
   * arithmetic is not modelled, so it is a parameter of the fold.
   */
  type FloatArith = (BinaryOperator, u64, u64) -> u64

  /** `v` as an i64, or `None` where the Rust operation overflows and panics. */
  function Checked(v: int): (r: Option<i64>)
    ensures r.Some? <==> I64_MIN <= v <= I64_MAX
    ensures r.Some? ==> r.value == v
  {
    if I64_MIN <= v <= I64_MAX then Some(v) else None
  }

  function Abs(x: int): nat
  {
    if x < 0 then -x else x
  }

  /** Rust's `/` on integers: the quotient rounded toward zero. */
  function TruncDiv(l: int, r: int): int
    requires r != 0
  {
    var q := Abs(l) / Abs(r);
    if (l < 0) == (r < 0) then q else -q
  }

  /**
   * Truncating division leaves a remainder smaller than the divisor and
   * carrying the dividend's sign, which is what tells it apart from
   * Dafny's Euclidean `/`.
   */
  lemma TruncDivRemainder(l: int, r: int)
    requires r != 0
    ensures var rem := l - TruncDiv(l, r) * r;
      Abs(rem) < Abs(r) && (rem == 0 || (rem < 0) == (l < 0))
  {
    var a: int, b: int := Abs(l), Abs(r);
    var q: int, s: int := a / b, a % b;
    var t := TruncDiv(l, r);
    assert a == q * b + s && 0 <= s < b;
    assert t == q || t == -q;
    if (l < 0) == (r < 0) {
      assert t == q;
      if r > 0 {
        assert t * r == q * b;
      } else {
        NegateRight(q, b);
        assert t * r == -(q * b);
      }
    } else {
      assert t == -q;
      if r > 0 {
        NegateRight(b, q);
        assert t * r == -(q * b);
      } else {
        NegateBoth(q, b);
        assert t * r == q * b;
      }
    }
  }

  lemma NegateRight(x: int, y: int)
    ensures x * (-y) == -(x * y) && (-y) * x == -(x * y)
  {
  }

  lemma NegateBoth(x: int, y: int)
    ensures (-x) * (-y) == x * y
  {
  }

  /** `-7 / 2 == -3` in Rust, where the Euclidean quotient is -4. */
  lemma TruncDivExample()
    ensures TruncDiv(-7, 2) == -3 && -7 / 2 == -4
  {
  }

  /** Two's-complement bitwise AND, OR or XOR of two i64 values. */
  function Bitwise(op: Opcodes.BitOp, l: i64, r: i64): (v: i64)
    ensures I64Bits(v) == Alu.BitOf(op, I64Bits(l), I64Bits(r))
  {
    Pow256Values();
    Alu.Pow256IsPow2(8);
    Alu.BitOfBounded(op, I64Bits(l), I64Bits(r), 64);
    I64FromBits(Alu.BitOf(op, I64Bits(l), I64Bits(r)))
  }

  lemma Pow2SixtyFour()
    ensures Alu.Pow2(64) == U64_LIMIT
  {
    Pow256Values();
    Alu.Pow256IsPow2(8);
  }

  /** `x & -1 == x`: -1 has every one of the 64 bits set. */
  lemma AndMinusOne(x: i64)
    ensures Bitwise(Opcodes.And, x, -1) == x
  {
    var c := I64Bits(x);
    Pow2SixtyFour();
    assert I64Bits(-1) == Alu.Pow2(64) - 1;
    Alu.MaskIsMod(c, 64);
    DivModUnique(c, U64_LIMIT, 0, c);
    assert Alu.BitAnd(c, I64Bits(-1)) == c;
    I64BitsInjective(Bitwise(Opcodes.And, x, -1), x);
  }

  /**
   * Folding two integer literals with `op`: `None` where the i64
   * operation panics (overflow, division by zero, or `i64::MIN / -1`).
   */
  function FoldInt(op: BinaryOperator, l: i64, r: i64): (res: Option<i64>)
  {
    match op
    case Add => Checked(l + r)
    case Sub => Checked(l - r)
    case Mul => Checked(l * r)
    case Div => if r == 0 then None else Checked(TruncDiv(l, r))
    case BitOr => Some(Bitwise(Opcodes.Or, l, r))
    case BitAnd => Some(Bitwise(Opcodes.And, l, r))
    case BitXor => Some(Bitwise(Opcodes.Xor, l, r))
  }

  /** Addition, subtraction and multiplication fold to the exact value exactly when it fits in an i64. */
  lemma FoldIntArithmetic(op: BinaryOperator, l: i64, r: i64)
    requires op.Add? || op.Sub? || op.Mul?
    ensures var v := if op.Add? then l + r else if op.Sub? then l - r else l * r;
      FoldInt(op, l, r) == (if I64_MIN <= v <= I64_MAX then Some(v) else None)
  {
  }

  /**
   * Division folds exactly when the divisor is non-zero and the quotient
   * fits, to the quotient rounded toward zero.
   */
  lemma FoldIntDivision(l: i64, r: i64)
    ensures FoldInt(BinaryOperator.Div, l, r).Some? <==> r != 0 && !(l == I64_MIN && r == -1)
    ensures FoldInt(BinaryOperator.Div, l, r).Some? ==>
      var q := FoldInt(BinaryOperator.Div, l, r).value;
      var rem := l - q * r;
      Abs(rem) < Abs(r) && (rem == 0 || (rem < 0) == (l < 0))
  {
    if r != 0 {
      TruncDivRemainder(l, r);
      QuotientBound(Abs(l), Abs(r));
    }
  }

  /** A quotient by 1 is the dividend; by anything larger, at most half of it. */
  lemma QuotientBound(a: nat, b: nat)
    requires b >= 1
    ensures b == 1 ==> a / b == a
    ensures b >= 2 ==> 2 * (a / b) <= a
  {
    var q, s := a / b, a % b;
    assert a == q * b + s;
    if b >= 2 {
      assert q * b == 2 * q + q * (b - 2);
      assert q * (b - 2) >= 0;
    }
  }

  /** Both operands literals of the same numeric kind: the case the fold handles. */
  predicate Foldable(lhs: Expression, rhs: Expression)
  {
    (lhs.IntegerLiteral? && rhs.IntegerLiteral?) || (lhs.FloatLiteral? && rhs.FloatLiteral?)
  }

  predicate IsBitwise(op: BinaryOperator)
  {
    op.BitOr? || op.BitAnd? || op.BitXor?
  }

  /**
   * The `match (lhs, rhs)` after both operands are substituted: two
   * integers fold, two floats fold under `+ - * /` and fail under a
   * bitwise operator, and anything else stays an operation.
   */
  function Fold(lhs: Expression, op: BinaryOperator, rhs: Expression, span: Span, fl: FloatArith): (r: Result<Expression, PreprocessError>)
    ensures Foldable(lhs, rhs) ==> r.Err? || r.value.IntegerLiteral? || r.value.FloatLiteral?
    ensures !Foldable(lhs, rhs) ==> r == Ok(BinaryOp(lhs, op, rhs, span))
    ensures r.Err? ==> r.error == FoldPanic(span) || r.error == InvalidOperatorForFloat(op, span)
  {
    if lhs.IntegerLiteral? && rhs.IntegerLiteral? then
      match FoldInt(op, lhs.value, rhs.value)
      case None => Err(FoldPanic(span))
      case Some(v) => Ok(IntegerLiteral(v))
    else if lhs.FloatLiteral? && rhs.FloatLiteral? then
      if IsBitwise(op) then Err(InvalidOperatorForFloat(op, span))
      else Ok(FloatLiteral(fl(op, lhs.bits, rhs.bits)))
    else
      Ok(BinaryOp(lhs, op, rhs, span))
  }

  /**
   * No defined identifier is left in `e` and no operation in it has two
   * literal operands of one kind: substitution has nothing more to do.
   */
  predicate Expanded(e: Expression, defs: Definitions)
  {
    match e
    case Identifier(n) => n !in defs
    case AddressExpr(b, off) => Expanded(b, defs) && (off.Some? ==> Expanded(off.value, defs))
    case BinaryOp(l, _, r, _) => Expanded(l, defs) && Expanded(r, defs) && !Foldable(l, r)
    case _ => true
  }

  /**
   * `substitute_expr`, with `expanding` the names whose definitions are
   * being expanded on the way to `e`. Meeting one of them again is where
   * the source recurses forever; here it is `RecursiveDefine`. A
   * successful result is fully expanded.
   */
  function Substitute(e: Expression, defs: Definitions, expanding: set<string>, fl: FloatArith): (r: Result<Expression, PreprocessError>)
    ensures r.Ok? ==> Expanded(r.value, defs)
    decreases defs.Keys - expanding, e
  {
    match e
    case Identifier(n) =>
      if n !in defs then Ok(e)
      else if n in expanding then Err(RecursiveDefine(n))
      else Substitute(defs[n], defs, expanding + {n}, fl)
    case AddressExpr(b, off) =>
      var base :- Substitute(b, defs, expanding, fl);
      if off.None? then Ok(AddressExpr(base, None))
      else
        var offset :- Substitute(off.value, defs, expanding, fl);
        Ok(AddressExpr(base, Some(offset)))
    case BinaryOp(l, op, rt, span) =>
      var lhs :- Substitute(l, defs, expanding, fl);
      var rhs :- Substitute(rt, defs, expanding, fl);
      Fold(lhs, op, rhs, span, fl)
    case _ => Ok(e)
  }

  /** The source's entry point: nothing is being expanded yet. */
  function SubstituteExpr(e: Expression, defs: Definitions, fl: FloatArith): (r: Result<Expression, PreprocessError>)
    ensures r.Ok? ==> Expanded(r.value, defs)
  {
    Substitute(e, defs, {}, fl)
  }

  /** An expanded expression is its own substitution. */
  lemma {:induction false} SubstituteExpanded(e: Expression, defs: Definitions, expanding: set<string>, fl: FloatArith)
    requires Expanded(e, defs)
    ensures Substitute(e, defs, expanding, fl) == Ok(e)
    decreases e
  {
    match e
    case AddressExpr(b, off) =>
      SubstituteExpanded(b, defs, expanding, fl);
      if off.Some? {
        SubstituteExpanded(off.value, defs, expanding, fl);
      }
    case BinaryOp(l, _, rt, _) =>
      SubstituteExpanded(l, defs, expanding, fl);
      SubstituteExpanded(rt, defs, expanding, fl);
    case _ =>
  }

  /** Substitution is idempotent: substituting its result again changes nothing. */
  lemma SubstituteIdempotent(e: Expression, defs: Definitions, fl: FloatArith)
    requires SubstituteExpr(e, defs, fl).Ok?
    ensures SubstituteExpr(SubstituteExpr(e, defs, fl).value, defs, fl) == SubstituteExpr(e, defs, fl)
  {
    SubstituteExpanded(SubstituteExpr(e, defs, fl).value, defs, {}, fl);
  }

  /** An identifier with no definition is left as it is. */
  lemma UndefinedIdentifierKept(n: string, defs: Definitions, fl: FloatArith)
    requires n !in defs
    ensures SubstituteExpr(Identifier(n), defs, fl) == Ok(Identifier(n))
  {
    assert Substitute(Identifier(n), defs, {}, fl) == Ok(Identifier(n));
    assert SubstituteExpr(Identifier(n), defs, fl) == Substitute(Identifier(n), defs, {}, fl);
  }

  /** `#define A A`: the source's expansion never ends; the model reports it. */
  lemma SelfReferenceRejected(n: string, defs: Definitions, fl: FloatArith)
    requires n in defs && defs[n] == Identifier(n)
    ensures SubstituteExpr(Identifier(n), defs, fl) == Err(RecursiveDefine(n))
  {
    var none: set<string> := {};
    assert none + {n} == {n};
    assert Substitute(Identifier(n), defs, {n}, fl) == Err(RecursiveDefine(n));
    assert SubstituteExpr(Identifier(n), defs, fl) == Substitute(Identifier(n), defs, none, fl);
  }

  /**
   * `#define VALUE 42` and `#define DOUBLE_VALUE VALUE`: DOUBLE_VALUE
   * expands through VALUE to 42.
   */
  lemma NestedDefinition(fl: FloatArith)
    ensures var defs := map["VALUE" := IntegerLiteral(42), "DOUBLE_VALUE" := Identifier("VALUE")];
      SubstituteExpr(Identifier("DOUBLE_VALUE"), defs, fl) == Ok(IntegerLiteral(42))
  {
    var defs := map["VALUE" := IntegerLiteral(42), "DOUBLE_VALUE" := Identifier("VALUE")];
    var none: set<string> := {};
    assert "VALUE" != "DOUBLE_VALUE";
    assert none + {"DOUBLE_VALUE"} == {"DOUBLE_VALUE"};
    assert Substitute(Identifier("VALUE"), defs, {"DOUBLE_VALUE"}, fl)
        == Substitute(IntegerLiteral(42), defs, {"DOUBLE_VALUE", "VALUE"}, fl);
    assert SubstituteExpr(Identifier("DOUBLE_VALUE"), defs, fl) == Substitute(Identifier("DOUBLE_VALUE"), defs, none, fl);
  }

  /** Substitution reaches into both parts of an address: `[BUFFER_ADDR, OFFSET]`. */
  lemma AddressSubstituted(base: string, offset: string, b: i64, o: i64, fl: FloatArith)
    requires base != offset
    ensures var defs := map[base := IntegerLiteral(b), offset := IntegerLiteral(o)];
      SubstituteExpr(AddressExpr(Identifier(base), Some(Identifier(offset))), defs, fl)
        == Ok(AddressExpr(IntegerLiteral(b), Some(IntegerLiteral(o))))
  {
    var defs := map[base := IntegerLiteral(b), offset := IntegerLiteral(o)];
    assert Substitute(IntegerLiteral(b), defs, {base}, fl) == Ok(IntegerLiteral(b));
    assert Substitute(IntegerLiteral(o), defs, {offset}, fl) == Ok(IntegerLiteral(o));
    assert Substitute(Identifier(base), defs, {}, fl) == Ok(IntegerLiteral(b));
    assert Substitute(Identifier(offset), defs, {}, fl) == Ok(IntegerLiteral(o));
  }

  /** Two integer literals fold to the i64 result, or fail where the source panics. */
  lemma IntegerOperandsFold(l: i64, op: BinaryOperator, r: i64, span: Span, defs: Definitions, fl: FloatArith)
    ensures SubstituteExpr(BinaryOp(IntegerLiteral(l), op, IntegerLiteral(r), span), defs, fl)
      == match FoldInt(op, l, r)
         case Some(v) => Ok(IntegerLiteral(v))
         case None => Err(FoldPanic(span))
  {
    assert SubstituteExpr(IntegerLiteral(l), defs, fl) == Ok(IntegerLiteral(l));
    assert SubstituteExpr(IntegerLiteral(r), defs, fl) == Ok(IntegerLiteral(r));
  }

  /** A bitwise operator on two float literals fails with InvalidOperatorForFloat. */
  lemma FloatBitwiseRejected(l: u64, op: BinaryOperator, r: u64, span: Span, defs: Definitions, fl: FloatArith)
    requires IsBitwise(op)
    ensures SubstituteExpr(BinaryOp(FloatLiteral(l), op, FloatLiteral(r), span), defs, fl)
      == Err(InvalidOperatorForFloat(op, span))
  {
    assert SubstituteExpr(FloatLiteral(l), defs, fl) == Ok(FloatLiteral(l));
    assert SubstituteExpr(FloatLiteral(r), defs, fl) == Ok(FloatLiteral(r));
  }

  /** Operands of different kinds, or not literals, stay an operation: `q0 + 1` is not folded. */
  lemma MixedOperandsKept(l: Expression, op: BinaryOperator, r: Expression, span: Span, defs: Definitions, fl: FloatArith)
    requires Expanded(l, defs) && Expanded(r, defs) && !Foldable(l, r)
    ensures SubstituteExpr(BinaryOp(l, op, r, span), defs, fl) == Ok(BinaryOp(l, op, r, span))
  {
    SubstituteExpanded(l, defs, {}, fl);
    SubstituteExpanded(r, defs, {}, fl);
  }

  /**
   * Each expression of `es` substituted in order; the first failure is the
   * result (the `Db` arm's loop and the `?` of each operand).
   */
  function SubstituteAll(es: seq<Expression>, defs: Definitions, fl: FloatArith): (r: Result<seq<Expression>, PreprocessError>)
    ensures r.Ok? ==> |r.value| == |es|
    ensures r.Ok? ==> forall k :: 0 <= k < |es| ==> SubstituteExpr(es[k], defs, fl) == Ok(r.value[k])
    ensures r.Err? ==> exists k :: 0 <= k < |es| && SubstituteExpr(es[k], defs, fl) == Err(r.error)
                                   && (forall j :: 0 <= j < k ==> SubstituteExpr(es[j], defs, fl).Ok?)
  {
    if es == [] then Ok([])
    else
      var head :- SubstituteExpr(es[0], defs, fl);
      var tail :- SubstituteAll(es[1..], defs, fl);
      Ok([head] + tail)
  }

  /**
   * The expressions the final pass substitutes in a statement, in the
   * order the source evaluates them (a push or pop's size before its operand).
   */
  function Operands(s: Statement): (ops: seq<Expression>)
  {
    match s
    case Error(m, _) => [m]
    case Define(k, v, _) => [k, v]
    case Include(p, _) => [p]
    case IfDef(e, _) => [e]
    case IfNDef(e, _) => [e]
    case Entry(e, _) => [e]
    case Ascii(e, _) => [e]
    case Asciz(e, _) => [e]
    case Mov(a, b, _) => [a, b]
    case Ldr(a, b, _) => [a, b]
    case Str(a, b, _) => [a, b]
    case Push(size, e, _) => (if size.Some? then [size.value] else []) + [e]
    case Pop(size, e, _) => (if size.Some? then [size.value] else []) + [e]
    case Add(a, b, c, _) => [a, b, c]
    case Sub(a, b, c, _) => [a, b, c]
    case Mul(a, b, c, _) => [a, b, c]
    case Div(a, b, c, _) => [a, b, c]
    case And(a, b, c, _) => [a, b, c]
    case Or(a, b, c, _) => [a, b, c]
    case Xor(a, b, c, _) => [a, b, c]
    case Shl(a, b, c, _) => [a, b, c]
    case Shr(a, b, c, _) => [a, b, c]
    case Cmp(a, b, _) => [a, b]
    case Jmp(e, _) => [e]
    case Jne(e, _) => [e]
    case Jeq(e, _) => [e]
    case Jlt(e, _) => [e]
    case Jgt(e, _) => [e]
    case Jle(e, _) => [e]
    case Jge(e, _) => [e]
    case Call(e, _) => [e]
    case Inc(e, _) => [e]
    case Dec(e, _) => [e]
    case Db(vs, _) => vs
    case Resb(e, _) => [e]
    case _ => []
  }

  /** `s` with its operands replaced, in the order `Operands` lists them. */
  function WithOperands(s: Statement, ops: seq<Expression>): (t: Statement)
    requires |ops| == |Operands(s)|
  {
    match s
    case Error(_, sp) => Error(ops[0], sp)
    case Define(_, _, sp) => Define(ops[0], ops[1], sp)
    case Include(_, sp) => Include(ops[0], sp)
    case IfDef(_, sp) => IfDef(ops[0], sp)
    case IfNDef(_, sp) => IfNDef(ops[0], sp)
    case Entry(_, sp) => Entry(ops[0], sp)
    case Ascii(_, sp) => Ascii(ops[0], sp)
    case Asciz(_, sp) => Asciz(ops[0], sp)
    case Mov(_, _, sp) => Mov(ops[0], ops[1], sp)
    case Ldr(_, _, sp) => Ldr(ops[0], ops[1], sp)
    case Str(_, _, sp) => Str(ops[0], ops[1], sp)
    case Push(size, _, sp) =>
      if size.Some? then Push(Some(ops[0]), ops[1], sp) else Push(None, ops[0], sp)
    case Pop(size, _, sp) =>
      if size.Some? then Pop(Some(ops[0]), ops[1], sp) else Pop(None, ops[0], sp)
    case Add(_, _, _, sp) => Statement.Add(ops[0], ops[1], ops[2], sp)
    case Sub(_, _, _, sp) => Statement.Sub(ops[0], ops[1], ops[2], sp)
    case Mul(_, _, _, sp) => Statement.Mul(ops[0], ops[1], ops[2], sp)
    case Div(_, _, _, sp) => Statement.Div(ops[0], ops[1], ops[2], sp)
    case And(_, _, _, sp) => And(ops[0], ops[1], ops[2], sp)
    case Or(_, _, _, sp) => Or(ops[0], ops[1], ops[2], sp)
    case Xor(_, _, _, sp) => Xor(ops[0], ops[1], ops[2], sp)
    case Shl(_, _, _, sp) => Shl(ops[0], ops[1], ops[2], sp)
    case Shr(_, _, _, sp) => Shr(ops[0], ops[1], ops[2], sp)
    case Cmp(_, _, sp) => Cmp(ops[0], ops[1], sp)
    case Jmp(_, sp) => Jmp(ops[0], sp)
    case Jne(_, sp) => Jne(ops[0], sp)
    case Jeq(_, sp) => Jeq(ops[0], sp)
    case Jlt(_, sp) => Jlt(ops[0], sp)
    case Jgt(_, sp) => Jgt(ops[0], sp)
    case Jle(_, sp) => Jle(ops[0], sp)
    case Jge(_, sp) => Jge(ops[0], sp)
    case Call(_, sp) => Call(ops[0], sp)
    case Inc(_, sp) => Inc(ops[0], sp)
    case Dec(_, sp) => Dec(ops[0], sp)
    case Db(_, sp) => Db(ops, sp)
    case Resb(_, sp) => Resb(ops[0], sp)
    case _ => s
  }

  /** `t` is the same directive as `s`, or neither is a directive. */
  predicate SameDirective(s: Statement, t: Statement)
  {
    && (s.Define? <==> t.Define?) && (s.Include? <==> t.Include?) && (s.Error? <==> t.Error?)
    && (s.IfDef? <==> t.IfDef?) && (s.IfNDef? <==> t.IfNDef?) && (s.Else? <==> t.Else?) && (s.EndIf? <==> t.EndIf?)
  }

  /**
   * Replacing the operands keeps the statement's kind and span, and the
   * new operands are exactly the ones given; putting back the old
   * operands gives back the statement. One lemma per shape of operand list.
   */
  lemma WithOperandsRoundTrip(s: Statement, ops: seq<Expression>)
    requires |ops| == |Operands(s)|
    ensures Operands(WithOperands(s, ops)) == ops
    ensures WithOperands(s, Operands(s)) == s
    ensures WithOperands(s, ops).span == s.span
    ensures SameDirective(s, WithOperands(s, ops))
  {
    if s.Add? || s.Sub? || s.Mul? || s.Div? || s.And? || s.Or? || s.Xor? || s.Shl? || s.Shr? {
      RoundTripThree(s, ops);
    } else if s.Define? || s.Mov? || s.Ldr? || s.Str? || s.Cmp? {
      RoundTripTwo(s, ops);
    } else if s.Error? || s.Include? || s.IfDef? || s.IfNDef? || s.Entry? || s.Ascii? || s.Asciz? {
      RoundTripOneDirective(s, ops);
    } else if s.Jmp? || s.Jne? || s.Jeq? || s.Jlt? || s.Jgt? || s.Jle? || s.Jge? {
      RoundTripJump(s, ops);
    } else if s.Call? || s.Inc? || s.Dec? || s.Resb? {
      RoundTripOneInstruction(s, ops);
    } else if s.Push? || s.Pop? {
      RoundTripSized(s, ops);
    } else if s.Db? {
    } else {
      RoundTripNone(s, ops);
    }
  }

  lemma RoundTripThree(s: Statement, ops: seq<Expression>)
    requires (s.Add? || s.Sub? || s.Mul? || s.Div? || s.And? || s.Or? || s.Xor? || s.Shl? || s.Shr?) && |ops| == |Operands(s)|
    ensures Operands(WithOperands(s, ops)) == ops && WithOperands(s, Operands(s)) == s
    ensures WithOperands(s, ops).span == s.span
    ensures SameDirective(s, WithOperands(s, ops))
  {
    assert ops == [ops[0], ops[1], ops[2]];
  }

  lemma RoundTripTwo(s: Statement, ops: seq<Expression>)
    requires (s.Define? || s.Mov? || s.Ldr? || s.Str? || s.Cmp?) && |ops| == |Operands(s)|
    ensures Operands(WithOperands(s, ops)) == ops && WithOperands(s, Operands(s)) == s
    ensures WithOperands(s, ops).span == s.span
    ensures SameDirective(s, WithOperands(s, ops))
  {
    assert ops == [ops[0], ops[1]];
  }

  lemma RoundTripOneDirective(s: Statement, ops: seq<Expression>)
    requires (s.Error? || s.Include? || s.IfDef? || s.IfNDef? || s.Entry? || s.Ascii? || s.Asciz?) && |ops| == |Operands(s)|
    ensures Operands(WithOperands(s, ops)) == ops && WithOperands(s, Operands(s)) == s
    ensures WithOperands(s, ops).span == s.span
    ensures SameDirective(s, WithOperands(s, ops))
  {
    assert ops == [ops[0]];
  }

  lemma RoundTripJump(s: Statement, ops: seq<Expression>)
    requires (s.Jmp? || s.Jne? || s.Jeq? || s.Jlt? || s.Jgt? || s.Jle? || s.Jge?) && |ops| == |Operands(s)|
    ensures Operands(WithOperands(s, ops)) == ops && WithOperands(s, Operands(s)) == s
    ensures WithOperands(s, ops).span == s.span
    ensures SameDirective(s, WithOperands(s, ops))
  {
    assert ops == [ops[0]];
  }

  lemma RoundTripOneInstruction(s: Statement, ops: seq<Expression>)
    requires (s.Call? || s.Inc? || s.Dec? || s.Resb?) && |ops| == |Operands(s)|
    ensures Operands(WithOperands(s, ops)) == ops && WithOperands(s, Operands(s)) == s
    ensures WithOperands(s, ops).span == s.span
    ensures SameDirective(s, WithOperands(s, ops))
  {
    assert ops == [ops[0]];
  }

  lemma RoundTripSized(s: Statement, ops: seq<Expression>)
    requires (s.Push? || s.Pop?) && |ops| == |Operands(s)|
    ensures Operands(WithOperands(s, ops)) == ops && WithOperands(s, Operands(s)) == s
    ensures WithOperands(s, ops).span == s.span
    ensures SameDirective(s, WithOperands(s, ops))
  {
    if s.size.Some? {
      assert ops == [ops[0], ops[1]];
    } else {
      assert ops == [ops[0]];
    }
  }

  lemma RoundTripNone(s: Statement, ops: seq<Expression>)
    requires (s.Label? || s.Else? || s.EndIf? || s.Section? || s.Nop? || s.Ret? || s.Syscall? || s.Hlt?)
    requires |ops| == |Operands(s)|
    ensures Operands(WithOperands(s, ops)) == ops && WithOperands(s, Operands(s)) == s
    ensures WithOperands(s, ops).span == s.span
    ensures SameDirective(s, WithOperands(s, ops))
  {
    assert ops == [];
  }
}
