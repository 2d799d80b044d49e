/** The syntax tree the parser builds and the compiler consumes (src/parser/ast.rs). */
module Ast {
  import opened Wrappers
  import opened Bits
  import opened Immediates
  import opened Registers
  import opened Spans

  datatype SectionType = Text | Data

  datatype BinaryOperator = Add | Sub | Mul | Div | BitOr | BitAnd | BitXor

  /**
   * An operand expression. The source's `Register`, `DataSize` and
   * `Address` variants are called `RegisterExpr`, `DataSizeExpr` and
   * `AddressExpr` here, because those names are already types; a float
   * literal holds the IEEE-754 bits of its `f64`.
   */
  datatype Expression =
    | Identifier(name: string)
    | RegisterExpr(reg: Register)
    | IntegerLiteral(value: i64)
    | FloatLiteral(bits: u64)
    | StringLiteral(chars: string)
    | DataSizeExpr(dsize: DataSize)
    | AddressExpr(base: Expression, offset: Option<Expression>)
    | BinaryOp(left: Expression, op: BinaryOperator, right: Expression, opSpan: Span)

  /** A statement; every variant ends with the span of its source text. */
  datatype Statement =
    | Label(name: string, span: Span)
    | Error(message: Expression, span: Span)
    | Define(key: Expression, value: Expression, span: Span)
    | Include(path: Expression, span: Span)
    | IfDef(symbol: Expression, span: Span)
    | IfNDef(symbol: Expression, span: Span)
    | Else(span: Span)
    | EndIf(span: Span)
    | Section(sectionType: SectionType, span: Span)
    | Entry(target: Expression, span: Span)
    | Ascii(text: Expression, span: Span)
    | Asciz(text: Expression, span: Span)
    | Nop(span: Span)
    | Mov(dest: Expression, src: Expression, span: Span)
    | Ldr(reg: Expression, addr: Expression, span: Span)
    | Str(reg: Expression, addr: Expression, span: Span)
    | Push(size: Option<Expression>, operand: Expression, span: Span)
    | Pop(size: Option<Expression>, operand: Expression, span: Span)
    | Add(dest: Expression, lhs: Expression, rhs: Expression, span: Span)
    | Sub(dest: Expression, lhs: Expression, rhs: Expression, span: Span)
    | Mul(dest: Expression, lhs: Expression, rhs: Expression, span: Span)
    | Div(dest: Expression, lhs: Expression, rhs: Expression, span: Span)
    | And(dest: Expression, lhs: Expression, rhs: Expression, span: Span)
    | Or(dest: Expression, lhs: Expression, rhs: Expression, span: Span)
    | Xor(dest: Expression, lhs: Expression, rhs: Expression, span: Span)
    | Shl(dest: Expression, lhs: Expression, rhs: Expression, span: Span)
    | Shr(dest: Expression, lhs: Expression, rhs: Expression, span: Span)
    | Cmp(lhs: Expression, rhs: Expression, span: Span)
    | Jmp(target: Expression, span: Span)
    | Jne(target: Expression, span: Span)
    | Jeq(target: Expression, span: Span)
    | Jlt(target: Expression, span: Span)
    | Jgt(target: Expression, span: Span)
    | Jle(target: Expression, span: Span)
    | Jge(target: Expression, span: Span)
    | Call(target: Expression, span: Span)
    | Ret(span: Span)
    | Inc(operand: Expression, span: Span)
    | Dec(operand: Expression, span: Span)
    | Syscall(span: Span)
    | Hlt(span: Span)
    | Db(values: seq<Expression>, span: Span)
    | Resb(count: Expression, span: Span)
  {
    /**
     * `Statement::span`, one arm per variant as in the source, so it is
     * total; it returns the span the variant was built with.
     */
    function Span(): (r: Span)
      ensures r == span
    {
      match this
      case Label(_, s) => s
      case Error(_, s) => s
      case Define(_, _, s) => s
      case Include(_, s) => s
      case IfDef(_, s) => s
      case IfNDef(_, s) => s
      case Else(s) => s
      case EndIf(s) => s
      case Section(_, s) => s
      case Entry(_, s) => s
      case Ascii(_, s) => s
      case Asciz(_, s) => s
      case Nop(s) => s
      case Mov(_, _, s) => s
      case Ldr(_, _, s) => s
      case Str(_, _, s) => s
      case Push(_, _, s) => s
      case Pop(_, _, s) => s
      case Add(_, _, _, s) => s
      case Sub(_, _, _, s) => s
      case Mul(_, _, _, s) => s
      case Div(_, _, _, s) => s
      case And(_, _, _, s) => s
      case Or(_, _, _, s) => s
      case Xor(_, _, _, s) => s
      case Shl(_, _, _, s) => s
      case Shr(_, _, _, s) => s
      case Cmp(_, _, s) => s
      case Jmp(_, s) => s
      case Jne(_, s) => s
      case Jeq(_, s) => s
      case Jlt(_, s) => s
      case Jgt(_, s) => s
      case Jle(_, s) => s
      case Jge(_, s) => s
      case Call(_, s) => s
      case Ret(s) => s
      case Inc(_, s) => s
      case Dec(_, s) => s
      case Syscall(s) => s
      case Hlt(s) => s
      case Db(_, s) => s
      case Resb(_, s) => s
    }
  }
}
