/**
 * The parser (src/parser/mod.rs): precedence climbing over the tokens the
 * lexer hands out, one statement at a time.
 *
 * The functions describe the parse of the token sequence `ts` from index
 * `i`: the value built and the index of the first token not consumed. The
 * class `Parser` of module `ParserState` runs the same parse step by step.
 */
module Parsing {
  import opened Wrappers
  import opened Spans
  import opened Bits
  import Imm = Immediates
  import Regs = Registers
  import K = Keywords
  import T = Tokens
  import opened Ast

  /** `parser::Error`; the diagnostic's source text and label are not modelled. */
  datatype ParseError = UnexpectedToken(token: T.Token) | Expected(expected: string, got: T.Token)

  /** A value parsed from the tokens, and the index of the first token after it. */
  type Parsed<X> = Result<(X, nat), ParseError>

  /** `str::parse::<f64>` on a float literal: its IEEE-754 bits, or a failure. */
  type FloatReader = string -> Option<u64>

  /** The lexer's tokens: they end with `Eof`. */
  predicate Wf(ts: seq<T.Token>)
  {
    |ts| > 0 && ts[|ts| - 1].kind == T.Eof
  }

  /** The token at `i`; past the end the lexer keeps answering `Eof`, represented by the last token. */
  function At(ts: seq<T.Token>, i: nat): (t: T.Token)
    requires Wf(ts)
    ensures i >= |ts| - 1 ==> t.kind == T.Eof
  {
    if i < |ts| then ts[i] else ts[|ts| - 1]
  }

  /** A token other than `Eof` is never the last one, so the token after it exists. */
  lemma NotLast(ts: seq<T.Token>, i: nat)
    requires Wf(ts) && i < |ts| && ts[i].kind != T.Eof
    ensures i + 1 < |ts|
  {
  }

  // ----- Integer literals -----

  /** `char::to_digit(radix)`: the value of a digit of the radix, in either letter case. */
  function DigitValue(c: char, radix: nat): (r: Option<nat>)
    requires 2 <= radix <= 36
    ensures r.Some? ==> r.value < radix
  {
    var d :=
      if '0' <= c <= '9' then c as int - '0' as int
      else if 'a' <= c <= 'z' then c as int - 'a' as int + 10
      else if 'A' <= c <= 'Z' then c as int - 'A' as int + 10
      else 36;
    if d < radix then Some(d) else None
  }

  /** The value of a string of digits, most significant first; `None` if any character is not a digit. */
  function DigitsValue(s: string, radix: nat): (r: Option<nat>)
    requires 2 <= radix <= 36
    decreases |s|
  {
    if s == [] then Some(0)
    else
      match DigitsValue(s[..|s| - 1], radix)
      case None => None
      case Some(v) =>
        match DigitValue(s[|s| - 1], radix)
        case None => None
        case Some(d) => Some(v * radix + d)
  }

  /**
   * `i64::from_str_radix`, and `str::parse::<i64>` for radix 10: an
   * optional sign, at least one digit, and a value within i64.
   */
  function FromStrRadix(s: string, radix: nat): (r: Option<int>)
    requires 2 <= radix <= 36
    ensures r.Some? ==> I64_MIN <= r.value <= I64_MAX
  {
    if s == [] then None
    else
      var digits := if s[0] == '+' || s[0] == '-' then s[1..] else s;
      if digits == [] then None
      else
        match DigitsValue(digits, radix)
        case None => None
        case Some(v) =>
          var x := if s[0] == '-' then -(v as int) else v as int;
          if I64_MIN <= x <= I64_MAX then Some(x) else None
  }

  /** The text after a two-character radix prefix (the lexer never makes a prefixed literal shorter). */
  function AfterPrefix(lit: string): string
  {
    if |lit| >= 2 then lit[2..] else ""
  }

  /** The value of an integer token of any radix. */
  function IntegerValue(t: T.Token): (r: Option<int>)
    ensures r.Some? ==> I64_MIN <= r.value <= I64_MAX
  {
    if t.kind == T.Hexadecimal then FromStrRadix(AfterPrefix(t.literal), 16)
    else if t.kind == T.Binary then FromStrRadix(AfterPrefix(t.literal), 2)
    else if t.kind == T.Octal then FromStrRadix(AfterPrefix(t.literal), 8)
    else FromStrRadix(t.literal, 10)
  }

  // ----- Expressions -----

  /** The binary operator a token stands for, if any. */
  function OperatorOf(k: T.TokenKind): Option<BinaryOperator>
  {
    match k
    case Plus => Some(BinaryOperator.Add)
    case Minus => Some(BinaryOperator.Sub)
    case Asterisk => Some(BinaryOperator.Mul)
    case Slash => Some(BinaryOperator.Div)
    case Pipe => Some(BitOr)
    case Ampersand => Some(BitAnd)
    case Caret => Some(BitXor)
    case _ => None
  }

  /** `binary_precedence`. */
  function Precedence(op: BinaryOperator): nat
  {
    match op
    case Mul | Div => 20
    case Add | Sub => 10
    case BitAnd => 5
    case BitXor => 4
    case BitOr => 3
  }

  /**
   * `parse_binary_expression(min_prec)` from index `i`: a primary, then
   * the operators of precedence at least `minPrec`. `parse_expression` is
   * this with `minPrec` 0.
   */
  function ExprAt(ts: seq<T.Token>, i: nat, minPrec: nat, fl: FloatReader): (r: Parsed<Expression>)
    requires Wf(ts) && i < |ts|
    ensures r.Ok? ==> i < r.value.1 < |ts|
    decreases |ts| - i, 2
  {
    var lhs :- PrimaryAt(ts, i, fl);
    BinaryTail(ts, lhs.1, minPrec, ts[i].loc.start, lhs.0, fl)
  }

  /**
   * The loop of `parse_binary_expression` at index `j` with the left operand
   * `lhs` built so far: an operator binding at least `minPrec` takes a
   * right operand parsed at one level higher, so operators of equal
   * precedence group to the left. Each new node spans from `start` to the
   * end of its right operand.
   */
  function BinaryTail(ts: seq<T.Token>, j: nat, minPrec: nat, start: nat, lhs: Expression, fl: FloatReader): (r: Parsed<Expression>)
    requires Wf(ts) && j < |ts|
    ensures r.Ok? ==> j <= r.value.1 < |ts|
    decreases |ts| - j, 1
  {
    match OperatorOf(ts[j].kind)
    case None => Ok((lhs, j))
    case Some(op) =>
      if Precedence(op) < minPrec then Ok((lhs, j))
      else
        var rhs :- ExprAt(ts, j + 1, Precedence(op) + 1, fl);
        BinaryTail(ts, rhs.1, minPrec, start, BinaryOp(lhs, op, rhs.0, Span(start, ts[rhs.1 - 1].loc.end)), fl)
  }

  /** `parse_primary` at index `i`. */
  function PrimaryAt(ts: seq<T.Token>, i: nat, fl: FloatReader): (r: Parsed<Expression>)
    requires Wf(ts) && i < |ts|
    ensures r.Ok? ==> i < r.value.1 < |ts|
    decreases |ts| - i, 1
  {
    var t := ts[i];
    if t.kind.Identifier? then Ok((Identifier(t.literal), i + 1))
    else if t.kind.Register? then
      match Regs.RegisterFromName(t.literal)
      case Some(reg) => Ok((RegisterExpr(reg), i + 1))
      case None => Err(UnexpectedToken(t))
    else if t.kind.Integer? || t.kind.Hexadecimal? || t.kind.Binary? || t.kind.Octal? then
      match IntegerValue(t)
      case Some(v) => Ok((IntegerLiteral(v), i + 1))
      case None => Err(UnexpectedToken(t))
    else if t.kind.Float? then
      match fl(t.literal)
      case Some(bits) => Ok((FloatLiteral(bits), i + 1))
      case None => Err(UnexpectedToken(t))
    else if t.kind.String? then Ok((StringLiteral(t.literal), i + 1))
    else if t.kind.DataSize? then
      match Imm.SizeFromName(t.literal)
      case Some(size) => Ok((DataSizeExpr(size), i + 1))
      case None => Err(UnexpectedToken(t))
    else if t.kind.LBracket? then AddressAt(ts, i, fl)
    else if t.kind.LParen? then
      var e :- ExprAt(ts, i + 1, 0, fl);
      if ts[e.1].kind != T.RParen then Err(Expected(")", ts[e.1]))
      else Ok((e.0, e.1 + 1))
    else Err(UnexpectedToken(t))
  }

  /** The `[` arm of `parse_primary`: a base, an optional offset after a comma, and `]`. */
  function AddressAt(ts: seq<T.Token>, i: nat, fl: FloatReader): (r: Parsed<Expression>)
    requires Wf(ts) && i < |ts| && ts[i].kind == T.LBracket
    ensures r.Ok? ==> i < r.value.1 < |ts|
    decreases |ts| - i, 0
  {
    var base :- ExprAt(ts, i + 1, 0, fl);
    var offset :-
      if ts[base.1].kind == T.Comma then
        var off :- ExprAt(ts, base.1 + 1, 0, fl);
        Ok((Some(off.0), off.1))
      else Ok((None, base.1));
    if ts[offset.1].kind != T.RBracket then Err(Expected("]", ts[offset.1]))
    else Ok((AddressExpr(base.0, offset.0), offset.1 + 1))
  }

  // ----- Statements -----

  /**
   * `peek_token` while the token at `j` is current: the next token, or,
   * once the final `Eof` is current, the fresh `Eof` the lexer makes on its
   * next call, one character further on.
   */
  function PeekAt(ts: seq<T.Token>, j: nat): (t: T.Token)
    requires Wf(ts) && j < |ts|
    ensures j + 1 < |ts| ==> t == ts[j + 1]
    ensures j + 1 == |ts| ==> t.kind == T.Eof && t.literal == ""
    ensures j + 1 == |ts| ==> t.loc.start == ts[j].loc.start + 1 && t.loc.end == ts[j].loc.end + 1
  {
    if j + 1 < |ts| then ts[j + 1]
    else T.Token(T.Eof, "", NewSpan(ts[j].loc.start + 1, ts[j].loc.end + 1))
  }

  /**
   * `expect_cur` as written: the current token must be of the kind, but
   * the error carries the token after it (`peek_token`).
   */
  function ExpectAtAsWritten(ts: seq<T.Token>, j: nat, kind: T.TokenKind): (r: Result<nat, ParseError>)
    requires Wf(ts) && j < |ts|
    ensures r.Ok? <==> ts[j].kind == kind
    ensures r.Err? ==> r.error == UnexpectedToken(PeekAt(ts, j))
  {
    if ts[j].kind == kind then Ok(j + 1) else Err(UnexpectedToken(PeekAt(ts, j)))
  }

  /**
   * `expect_cur` as evidently intended, and as this model parses: the
   * error carries the token that is not of the expected kind.
   */
  function ExpectAt(ts: seq<T.Token>, j: nat, kind: T.TokenKind): (r: Result<nat, ParseError>)
    requires Wf(ts) && j < |ts| && kind != T.Eof
    ensures r.Ok? <==> ts[j].kind == kind
    ensures r.Ok? ==> r.value == j + 1 && r.value < |ts|
    ensures r.Err? ==> r.error == UnexpectedToken(ts[j])
  {
    if ts[j].kind == kind then Ok(j + 1) else Err(UnexpectedToken(ts[j]))
  }

  /** `n` operand expressions, separated by `expect_cur(Comma)` when `commas` holds. */
  function OperandsAt(ts: seq<T.Token>, i: nat, n: nat, commas: bool, fl: FloatReader): (r: Parsed<seq<Expression>>)
    requires Wf(ts) && i < |ts|
    ensures r.Ok? ==> |r.value.0| == n && i <= r.value.1 < |ts| && (n > 0 ==> i < r.value.1)
    decreases n
  {
    if n == 0 then Ok(([], i))
    else
      var e :- ExprAt(ts, i, 0, fl);
      if n == 1 then Ok(([e.0], e.1))
      else
        var j :- if commas then ExpectAt(ts, e.1, T.Comma) else Ok(e.1);
        var rest :- OperandsAt(ts, j, n - 1, commas, fl);
        Ok(([e.0] + rest.0, rest.1))
  }

  /** The list of `db`: one or more expressions separated by commas. */
  function DbListAt(ts: seq<T.Token>, i: nat, fl: FloatReader): (r: Parsed<seq<Expression>>)
    requires Wf(ts) && i < |ts|
    ensures r.Ok? ==> |r.value.0| >= 1 && i < r.value.1 < |ts|
    decreases |ts| - i
  {
    var e :- ExprAt(ts, i, 0, fl);
    if ts[e.1].kind == T.Comma then
      var rest :- DbListAt(ts, e.1 + 1, fl);
      Ok(([e.0] + rest.0, rest.1))
    else Ok(([e.0], e.1))
  }

  /** How many operands an instruction takes (`nop`, `push`, `pop` and `db` are parsed apart). */
  function InstructionArity(m: K.Mnemonic): nat
  {
    match m
    case KwNop | KwRet | KwSyscall | KwHlt => 0
    case KwMov | KwLdr | KwStr | KwCmp => 2
    case KwAdd | KwSub | KwMul | KwDiv | KwAnd | KwOr | KwXor | KwShl | KwShr => 3
    case _ => 1
  }

  /** The instructions read as a fixed number of comma-separated operands: all but `nop`, `push`, `pop` and `db`. */
  predicate FixedOperands(m: K.Mnemonic)
  {
    !(m.KwNop? || m.KwPush? || m.KwPop? || m.KwDb?)
  }

  /** The statement an instruction makes of its operands, in source order. */
  function Instruction(m: K.Mnemonic, ops: seq<Expression>, span: Span): (r: Statement)
    requires |ops| == InstructionArity(m) && m != K.KwPush && m != K.KwPop && m != K.KwDb
    ensures r.span == span
  {
    match m
    case KwNop => Nop(span)
    case KwMov => Mov(ops[0], ops[1], span)
    case KwLdr => Ldr(ops[0], ops[1], span)
    case KwStr => Str(ops[0], ops[1], span)
    case KwAdd => Statement.Add(ops[0], ops[1], ops[2], span)
    case KwSub => Statement.Sub(ops[0], ops[1], ops[2], span)
    case KwMul => Statement.Mul(ops[0], ops[1], ops[2], span)
    case KwDiv => Statement.Div(ops[0], ops[1], ops[2], span)
    case KwAnd => And(ops[0], ops[1], ops[2], span)
    case KwOr => Or(ops[0], ops[1], ops[2], span)
    case KwXor => Xor(ops[0], ops[1], ops[2], span)
    case KwShl => Shl(ops[0], ops[1], ops[2], span)
    case KwShr => Shr(ops[0], ops[1], ops[2], span)
    case KwCmp => Cmp(ops[0], ops[1], span)
    case KwJmp => Jmp(ops[0], span)
    case KwJeq => Jeq(ops[0], span)
    case KwJne => Jne(ops[0], span)
    case KwJlt => Jlt(ops[0], span)
    case KwJgt => Jgt(ops[0], span)
    case KwJle => Jle(ops[0], span)
    case KwJge => Jge(ops[0], span)
    case KwCall => Call(ops[0], span)
    case KwRet => Ret(span)
    case KwInc => Inc(ops[0], span)
    case KwDec => Dec(ops[0], span)
    case KwSyscall => Syscall(span)
    case KwHlt => Hlt(span)
    case KwResb => Resb(ops[0], span)
  }

  /** How many operands a directive takes; `#define`'s two are not separated by a comma. */
  function DirectiveArity(d: K.Directive): nat
  {
    if d == K.KwDefine then 2 else if d == K.KwElse || d == K.KwEndIf then 0 else 1
  }

  /** The statement a directive makes of its operands (`.section` is parsed apart). */
  function DirectiveStatement(d: K.Directive, ops: seq<Expression>, span: Span): (r: Statement)
    requires |ops| == DirectiveArity(d) && d != K.KwSection
    ensures r.span == span
  {
    match d
    case KwError => Error(ops[0], span)
    case KwDefine => Define(ops[0], ops[1], span)
    case KwInclude => Include(ops[0], span)
    case KwIfDef => IfDef(ops[0], span)
    case KwIfNDef => IfNDef(ops[0], span)
    case KwElse => Else(span)
    case KwEndIf => EndIf(span)
    case KwEntry => Entry(ops[0], span)
    case KwAscii => Ascii(ops[0], span)
    case KwAsciz => Asciz(ops[0], span)
  }

  /** `.section`: the next token must be a section name, and only `text` and `data` are accepted. */
  function SectionAt(ts: seq<T.Token>, i: nat): (r: Parsed<Statement>)
    requires Wf(ts) && i < |ts| && ts[i].kind == T.KwDirective(K.KwSection)
    ensures r.Ok? ==> r.value.1 == i + 2 && r.value.1 < |ts|
    ensures r.Ok? ==> r.value.0.span == Span(ts[i].loc.start, ts[i + 1].loc.end)
  {
    var t := ts[i + 1];
    if !t.kind.SectionName? then Err(Expected("section name (text or data)", t))
    else if t.literal == "text" then Ok((Section(SectionType.Text, Span(ts[i].loc.start, t.loc.end)), i + 2))
    else if t.literal == "data" then Ok((Section(SectionType.Data, Span(ts[i].loc.start, t.loc.end)), i + 2))
    else Err(UnexpectedToken(t))
  }

  /** A directive other than `.section`: its operands, and a span up to the last token consumed. */
  function DirectiveAt(ts: seq<T.Token>, i: nat, d: K.Directive, fl: FloatReader): (r: Parsed<Statement>)
    requires Wf(ts) && i < |ts| && ts[i].kind == T.KwDirective(d) && d != K.KwSection
    ensures r.Ok? ==> i < r.value.1 < |ts| && r.value.0.span == Span(ts[i].loc.start, ts[r.value.1 - 1].loc.end)
  {
    var ops :- OperandsAt(ts, i + 1, DirectiveArity(d), false, fl);
    Ok((DirectiveStatement(d, ops.0, Span(ts[i].loc.start, ts[ops.1 - 1].loc.end)), ops.1))
  }

  /** A directive whose operands parse is built from them, spanning from its keyword to the last operand token. */
  lemma DirectiveOk(ts: seq<T.Token>, i: nat, d: K.Directive, fl: FloatReader, ops: seq<Expression>, j: nat)
    requires Wf(ts) && i < |ts| && ts[i].kind == T.KwDirective(d) && d != K.KwSection
    requires OperandsAt(ts, i + 1, DirectiveArity(d), false, fl) == Ok((ops, j))
    ensures 0 < j <= |ts|
    ensures DirectiveAt(ts, i, d, fl) == Ok((DirectiveStatement(d, ops, Span(ts[i].loc.start, ts[j - 1].loc.end)), j))
  {
  }

  /** The optional size of `push` and `pop`: an expression only when the token is a data size. */
  function StackSizeAt(ts: seq<T.Token>, i: nat, fl: FloatReader): (r: Parsed<Option<Expression>>)
    requires Wf(ts) && i < |ts|
    ensures r.Ok? ==> i <= r.value.1 < |ts|
  {
    if ts[i].kind == T.DataSize then
      var s :- ExprAt(ts, i, 0, fl);
      Ok((Some(s.0), s.1))
    else Ok((None, i))
  }

  /** `push` and `pop`: a size expression first only when the current token is a data size. */
  function StackOpAt(ts: seq<T.Token>, i: nat, m: K.Mnemonic, fl: FloatReader): (r: Parsed<Statement>)
    requires Wf(ts) && i < |ts| && ts[i].kind == T.KwMnemonic(m) && (m == K.KwPush || m == K.KwPop)
    ensures r.Ok? ==> i < r.value.1 < |ts| && r.value.0.span == Span(ts[i].loc.start, ts[r.value.1 - 1].loc.end)
  {
    var size :- StackSizeAt(ts, i + 1, fl);
    var e :- ExprAt(ts, size.1, 0, fl);
    var span := Span(ts[i].loc.start, ts[e.1 - 1].loc.end);
    Ok((if m == K.KwPush then Push(size.0, e.0, span) else Pop(size.0, e.0, span), e.1))
  }

  /** `push`/`pop` with a parsed size and operand is built from them, spanning from its keyword to the operand's last token. */
  lemma StackOpOk(ts: seq<T.Token>, i: nat, m: K.Mnemonic, fl: FloatReader, size: Option<Expression>, k: nat, e: Expression, j: nat)
    requires Wf(ts) && i < |ts| && ts[i].kind == T.KwMnemonic(m) && (m == K.KwPush || m == K.KwPop)
    requires StackSizeAt(ts, i + 1, fl) == Ok((size, k))
    requires k < |ts| && ExprAt(ts, k, 0, fl) == Ok((e, j))
    ensures 0 < j <= |ts|
    ensures var span := Span(ts[i].loc.start, ts[j - 1].loc.end);
      StackOpAt(ts, i, m, fl) == Ok((if m == K.KwPush then Push(size, e, span) else Pop(size, e, span), j))
  {
  }

  /** `db`: its list of values, spanning up to the last token consumed. */
  function DbAt(ts: seq<T.Token>, i: nat, fl: FloatReader): (r: Parsed<Statement>)
    requires Wf(ts) && i < |ts| && ts[i].kind == T.KwMnemonic(K.KwDb)
    ensures r.Ok? ==> i < r.value.1 < |ts| && r.value.0.span == Span(ts[i].loc.start, ts[r.value.1 - 1].loc.end)
  {
    var vs :- DbListAt(ts, i + 1, fl);
    Ok((Db(vs.0, Span(ts[i].loc.start, ts[vs.1 - 1].loc.end)), vs.1))
  }

  /** An instruction with a fixed number of comma-separated operands. */
  function OperandInstructionAt(ts: seq<T.Token>, i: nat, m: K.Mnemonic, fl: FloatReader): (r: Parsed<Statement>)
    requires Wf(ts) && i < |ts| && ts[i].kind == T.KwMnemonic(m)
    requires FixedOperands(m)
    ensures r.Ok? ==> i < r.value.1 < |ts| && r.value.0.span.start == ts[i].loc.start
  {
    match OperandsAt(ts, i + 1, InstructionArity(m), true, fl)
    case Err(e) => Err(e)
    case Ok((ops, j)) => Ok((Instruction(m, ops, Span(ts[i].loc.start, ts[j - 1].loc.end)), j))
  }

  /** An instruction whose operands parse is built from them, spanning from its mnemonic to the last operand token. */
  lemma OperandInstructionOk(ts: seq<T.Token>, i: nat, m: K.Mnemonic, fl: FloatReader, ops: seq<Expression>, j: nat)
    requires Wf(ts) && i < |ts| && ts[i].kind == T.KwMnemonic(m) && FixedOperands(m)
    requires OperandsAt(ts, i + 1, InstructionArity(m), true, fl) == Ok((ops, j))
    ensures 0 < j <= |ts|
    ensures OperandInstructionAt(ts, i, m, fl) == Ok((Instruction(m, ops, Span(ts[i].loc.start, ts[j - 1].loc.end)), j))
  {
  }

  /** An instruction: `nop` keeps its own span; the others span up to the last token consumed. */
  function InstructionAt(ts: seq<T.Token>, i: nat, m: K.Mnemonic, fl: FloatReader): (r: Parsed<Statement>)
    requires Wf(ts) && i < |ts| && ts[i].kind == T.KwMnemonic(m)
    ensures r.Ok? ==> i < r.value.1 < |ts| && r.value.0.span.start == ts[i].loc.start
  {
    if m == K.KwNop then Ok((Nop(ts[i].loc), i + 1))
    else if m == K.KwPush || m == K.KwPop then StackOpAt(ts, i, m, fl)
    else if m == K.KwDb then DbAt(ts, i, fl)
    else OperandInstructionAt(ts, i, m, fl)
  }

  /** `parse_statement` at index `i`. */
  function StatementAt(ts: seq<T.Token>, i: nat, fl: FloatReader): (r: Parsed<Statement>)
    requires Wf(ts) && i < |ts|
    ensures r.Ok? ==> i < r.value.1 < |ts| && r.value.0.span.start == ts[i].loc.start
  {
    var t := ts[i];
    match t.kind
    case KwDirective(d) => if d == K.KwSection then SectionAt(ts, i) else DirectiveAt(ts, i, d, fl)
    case KwMnemonic(m) => InstructionAt(ts, i, m, fl)
    case Identifier =>
      if At(ts, i + 1).kind == T.Colon then Ok((Label(t.literal, Span(t.loc.start, ts[i + 1].loc.end)), i + 2))
      else Err(UnexpectedToken(t))
    case _ => Err(UnexpectedToken(t))
  }

  /** `parse`: statements up to `Eof`, or the first error. */
  function ProgramAt(ts: seq<T.Token>, i: nat, fl: FloatReader): (r: Result<seq<Statement>, ParseError>)
    requires Wf(ts) && i < |ts|
    decreases |ts| - i
  {
    if ts[i].kind == T.Eof then Ok([])
    else
      var s :- StatementAt(ts, i, fl);
      var rest :- ProgramAt(ts, s.1, fl);
      Ok([s.0] + rest)
  }

  // ----- The parser object -----

  /** A method's result agrees with the parse a function describes, and the cursor stands where that parse ended. */
  ghost predicate Tracks<X>(r: Result<X, ParseError>, s: Parsed<X>, index: nat)
  {
    if s.Ok? then r == Ok(s.value.0) && index == s.value.1 else r == Err(s.error)
  }

  /** Items already collected in front of the rest of a parse. */
  function Prefixed<X>(xs: seq<X>, r: Parsed<seq<X>>): (p: Parsed<seq<X>>)
    ensures p.Ok? <==> r.Ok?
    ensures p.Ok? ==> p.value == (xs + r.value.0, r.value.1)
    ensures p.Err? ==> p.error == r.error
  {
    match r
    case Ok((ys, j)) => Ok((xs + ys, j))
    case Err(e) => Err(e)
  }

  lemma PrefixedEmpty<X>(r: Parsed<seq<X>>)
    ensures Prefixed([], r) == r
  {
    if r.Ok? {
      assert [] + r.value.0 == r.value.0;
    }
  }

  lemma PrefixedAssoc<X>(xs: seq<X>, ys: seq<X>, r: Parsed<seq<X>>)
    ensures Prefixed(xs + ys, r) == Prefixed(xs, Prefixed(ys, r))
  {
    if r.Ok? {
      assert xs + ys + r.value.0 == xs + (ys + r.value.0);
    }
  }

  /** Statements already collected in front of the rest of a program. */
  function PrefixedProgram(xs: seq<Statement>, r: Result<seq<Statement>, ParseError>): (p: Result<seq<Statement>, ParseError>)
    ensures p.Ok? <==> r.Ok?
    ensures p.Ok? ==> p.value == xs + r.value
    ensures p.Err? ==> p.error == r.error
  {
    match r
    case Ok(ys) => Ok(xs + ys)
    case Err(e) => Err(e)
  }

  lemma PrefixedProgramEmpty(r: Result<seq<Statement>, ParseError>)
    ensures PrefixedProgram([], r) == r
  {
    if r.Ok? {
      assert [] + r.value == r.value;
    }
  }

  lemma PrefixedProgramAssoc(xs: seq<Statement>, ys: seq<Statement>, r: Result<seq<Statement>, ParseError>)
    ensures PrefixedProgram(xs + ys, r) == PrefixedProgram(xs, PrefixedProgram(ys, r))
  {
    if r.Ok? {
      assert xs + ys + r.value == xs + (ys + r.value);
    }
  }

}
