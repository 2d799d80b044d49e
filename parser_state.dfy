/**
 * The `Parser` struct of src/parser/mod.rs: a window of three tokens over
 * the lexer's output. Each method is proved to return what the matching
 * function of `Parsing` describes and to leave the window where that
 * parse ends.
 */
module ParserState {
  import opened Wrappers
  import opened Spans
  import opened Ast
  import K = Keywords
  import T = Tokens
  import opened Parsing

  /**
   * `Parser`: the previous, current and next token of the lexer's output.
   * `pos` is the index of the current token in that output.
   */
  class Parser {
    const tokens: seq<T.Token>
    const floatBits: FloatReader
    var pos: nat
    var prevToken: T.Token
    var curToken: T.Token
    var peekToken: T.Token

    ghost predicate Valid()
      reads this
    {
      Wf(tokens)
      && pos < |tokens| && curToken == tokens[pos] && peekToken == At(tokens, pos + 1)
      && prevToken == tokens[if pos == 0 then 0 else pos - 1]
    }

    /** `Parser::new`: two tokens are read; the previous token starts as a copy of the current one. */
    constructor(tokens: seq<T.Token>, floatBits: FloatReader)
      requires Wf(tokens)
      ensures Valid() && pos == 0 && this.tokens == tokens && this.floatBits == floatBits
    {
      this.tokens := tokens;
      this.floatBits := floatBits;
      curToken := At(tokens, 0);
      peekToken := At(tokens, 1);
      prevToken := At(tokens, 0);
      pos := 0;
    }

    /** `next_token`: the window moves one token on. */
    method NextToken()
      requires Valid() && curToken.kind != T.Eof
      modifies this
      ensures Valid() && pos == old(pos) + 1
    {
      prevToken := curToken;
      curToken := peekToken;
      peekToken := At(tokens, pos + 2);
      pos := pos + 1;
    }

    /** `expect_cur`, with the error carrying the current token (see `ExpectAt`). */
    method ExpectCur(kind: T.TokenKind) returns (r: Result<(), ParseError>)
      requires Valid() && kind != T.Eof
      modifies this
      ensures Valid()
      ensures var e := ExpectAt(tokens, old(pos), kind);
        if e.Ok? then r.Ok? && pos == e.value else r == Err(e.error)
    {
      if curToken.kind == kind {
        NextToken();
        return Ok(());
      }
      return Err(UnexpectedToken(curToken));
    }

    /** `parse_expression`. */
    method ParseExpression() returns (r: Result<Expression, ParseError>)
      requires Valid()
      modifies this
      ensures Valid()
      ensures Tracks(r, ExprAt(tokens, old(pos), 0, floatBits), pos)
      decreases |tokens| - pos, 3
    {
      r := ParseBinaryExpression(0);
    }

    /** `parse_binary_expression`. */
    method ParseBinaryExpression(minPrec: nat) returns (r: Result<Expression, ParseError>)
      requires Valid()
      modifies this
      ensures Valid()
      ensures Tracks(r, ExprAt(tokens, old(pos), minPrec, floatBits), pos)
      decreases |tokens| - pos, 2
    {
      ghost var i0 := pos;
      ghost var spec := ExprAt(tokens, i0, minPrec, floatBits);
      var start := curToken.loc.start;
      var lhs :- ParsePrimary();
      while true
        invariant Valid() && i0 < pos < |tokens|
        invariant BinaryTail(tokens, pos, minPrec, start, lhs, floatBits) == spec
        decreases |tokens| - pos
      {
        var op := OperatorOf(curToken.kind);
        if op.None? {
          break;
        }
        var prec := Precedence(op.value);
        if prec < minPrec {
          break;
        }
        NextToken();
        var rhs :- ParseBinaryExpression(prec + 1);
        lhs := BinaryOp(lhs, op.value, rhs, Span(start, prevToken.loc.end));
      }
      return Ok(lhs);
    }

    /** `parse_primary`. */
    method ParsePrimary() returns (r: Result<Expression, ParseError>)
      requires Valid()
      modifies this
      ensures Valid()
      ensures Tracks(r, PrimaryAt(tokens, old(pos), floatBits), pos)
      decreases |tokens| - pos, 1
    {
      var t := curToken;
      if t.kind.LBracket? {
        r := ParseAddress();
      } else if t.kind.LParen? {
        NextToken();
        var e :- ParseExpression();
        if curToken.kind != T.RParen {
          return Err(Expected(")", curToken));
        }
        NextToken();
        return Ok(e);
      } else {
        r := ParseLeaf();
      }
    }

    /** The arms of `parse_primary` that take a single token. */
    method ParseLeaf() returns (r: Result<Expression, ParseError>)
      requires Valid()
      requires !curToken.kind.LBracket? && !curToken.kind.LParen?
      modifies this
      ensures Valid()
      ensures Tracks(r, PrimaryAt(tokens, old(pos), floatBits), pos)
    {
      var t := curToken;
      if t.kind.Identifier? {
        NextToken();
        return Ok(Identifier(t.literal));
      } else if t.kind.Register? {
        match Regs.RegisterFromName(t.literal)
        case Some(reg) =>
          NextToken();
          return Ok(RegisterExpr(reg));
        case None =>
          return Err(UnexpectedToken(t));
      } else if t.kind.Integer? || t.kind.Hexadecimal? || t.kind.Binary? || t.kind.Octal? {
        match IntegerValue(t)
        case Some(v) =>
          NextToken();
          return Ok(IntegerLiteral(v));
        case None =>
          return Err(UnexpectedToken(t));
      } else if t.kind.Float? {
        match floatBits(t.literal)
        case Some(bits) =>
          NextToken();
          return Ok(FloatLiteral(bits));
        case None =>
          return Err(UnexpectedToken(t));
      } else if t.kind.String? {
        NextToken();
        return Ok(StringLiteral(t.literal));
      } else if t.kind.DataSize? {
        NextToken();
        match Imm.SizeFromName(t.literal)
        case Some(size) =>
          return Ok(DataSizeExpr(size));
        case None =>
          return Err(UnexpectedToken(t));
      }
      return Err(UnexpectedToken(t));
    }

    /** The `[` arm of `parse_primary`. */
    method ParseAddress() returns (r: Result<Expression, ParseError>)
      requires Valid() && curToken.kind == T.LBracket
      modifies this
      ensures Valid()
      ensures Tracks(r, AddressAt(tokens, old(pos), floatBits), pos)
      decreases |tokens| - pos, 0
    {
      NextToken();
      var base :- ParseExpression();
      var offset: Option<Expression> := None;
      if curToken.kind == T.Comma {
        NextToken();
        var off :- ParseExpression();
        offset := Some(off);
      }
      if curToken.kind != T.RBracket {
        return Err(Expected("]", curToken));
      }
      NextToken();
      return Ok(AddressExpr(base, offset));
    }

    /** The operands of a statement: `parse_expression`, with `expect_cur(Comma)` between them when `commas` holds. */
    method ParseOperands(n: nat, commas: bool) returns (r: Result<seq<Expression>, ParseError>)
      requires Valid()
      modifies this
      ensures Valid()
      ensures Tracks(r, OperandsAt(tokens, old(pos), n, commas, floatBits), pos)
      decreases n
    {
      if n == 0 {
        return Ok([]);
      }
      var e :- ParseExpression();
      if n == 1 {
        return Ok([e]);
      }
      if commas {
        var _ :- ExpectCur(T.Comma);
      }
      var rest :- ParseOperands(n - 1, commas);
      return Ok([e] + rest);
    }

    /** The loop of the `db` arm: expressions as long as a comma follows. */
    method ParseDbList() returns (r: Result<seq<Expression>, ParseError>)
      requires Valid()
      modifies this
      ensures Valid()
      ensures Tracks(r, DbListAt(tokens, old(pos), floatBits), pos)
    {
      ghost var spec := DbListAt(tokens, pos, floatBits);
      var exprs: seq<Expression> := [];
      PrefixedEmpty(spec);
      while true
        invariant Valid()
        invariant Prefixed(exprs, DbListAt(tokens, pos, floatBits)) == spec
        decreases |tokens| - pos
      {
        ghost var i := pos;
        var e :- ParseExpression();
        ghost var before := exprs;
        exprs := exprs + [e];
        if curToken.kind == T.Comma {
          NextToken();
          assert DbListAt(tokens, i, floatBits) == Prefixed([e], DbListAt(tokens, pos, floatBits));
          PrefixedAssoc(before, [e], DbListAt(tokens, pos, floatBits));
          continue;
        }
        break;
      }
      return Ok(exprs);
    }

    /** The `.section` arm of `parse_statement`. */
    method ParseSection() returns (r: Result<Statement, ParseError>)
      requires Valid() && curToken.kind == T.KwDirective(K.KwSection)
      modifies this
      ensures Valid()
      ensures Tracks(r, SectionAt(tokens, old(pos)), pos)
    {
      var start := curToken.loc.start;
      NextToken();
      var t := curToken;
      if !t.kind.SectionName? {
        return Err(Expected("section name (text or data)", t));
      }
      var sectionType: SectionType;
      if t.literal == "text" {
        sectionType := SectionType.Text;
      } else if t.literal == "data" {
        sectionType := SectionType.Data;
      } else {
        return Err(UnexpectedToken(t));
      }
      NextToken();
      return Ok(Section(sectionType, Span(start, prevToken.loc.end)));
    }

    /** The arms of `parse_statement` for the directives other than `.section`. */
    method ParseDirective(d: K.Directive) returns (r: Result<Statement, ParseError>)
      requires Valid() && curToken.kind == T.KwDirective(d) && d != K.KwSection
      modifies this
      ensures Valid()
      ensures Tracks(r, DirectiveAt(tokens, old(pos), d, floatBits), pos)
    {
      ghost var i := pos;
      var start := curToken.loc.start;
      NextToken();
      var ops :- ParseOperands(DirectiveArity(d), false);
      var span := Span(start, prevToken.loc.end);
      DirectiveOk(tokens, i, d, floatBits, ops, pos);
      return Ok(DirectiveStatement(d, ops, span));
    }

    /** The `push` and `pop` arms of `parse_statement`. */
    method ParseStackOp(m: K.Mnemonic) returns (r: Result<Statement, ParseError>)
      requires Valid() && curToken.kind == T.KwMnemonic(m) && (m == K.KwPush || m == K.KwPop)
      modifies this
      ensures Valid()
      ensures Tracks(r, StackOpAt(tokens, old(pos), m, floatBits), pos)
    {
      ghost var i := pos;
      var start := curToken.loc.start;
      NextToken();
      var size :- ParseStackSize();
      ghost var k := pos;
      var e :- ParseExpression();
      var span := Span(start, prevToken.loc.end);
      StackOpOk(tokens, i, m, floatBits, size, k, e, pos);
      if m == K.KwPush {
        return Ok(Push(size, e, span));
      }
      return Ok(Pop(size, e, span));
    }

    /** The optional size of `push` and `pop`. */
    method ParseStackSize() returns (r: Result<Option<Expression>, ParseError>)
      requires Valid()
      modifies this
      ensures Valid()
      ensures Tracks(r, StackSizeAt(tokens, old(pos), floatBits), pos)
    {
      if curToken.kind == T.DataSize {
        var s :- ParseExpression();
        return Ok(Some(s));
      }
      return Ok(None);
    }

    /** The instruction arms of `parse_statement`. */
    method ParseInstruction(m: K.Mnemonic) returns (r: Result<Statement, ParseError>)
      requires Valid() && curToken.kind == T.KwMnemonic(m)
      modifies this
      ensures Valid()
      ensures Tracks(r, InstructionAt(tokens, old(pos), m, floatBits), pos)
    {
      if m == K.KwNop {
        var loc := curToken.loc;
        NextToken();
        return Ok(Nop(loc));
      } else if m == K.KwPush || m == K.KwPop {
        r := ParseStackOp(m);
      } else if m == K.KwDb {
        r := ParseDb();
      } else {
        r := ParseOperandInstruction(m);
      }
    }

    /** The `db` arm of `parse_statement`. */
    method ParseDb() returns (r: Result<Statement, ParseError>)
      requires Valid() && curToken.kind == T.KwMnemonic(K.KwDb)
      modifies this
      ensures Valid()
      ensures Tracks(r, DbAt(tokens, old(pos), floatBits), pos)
    {
      var start := curToken.loc.start;
      NextToken();
      var values :- ParseDbList();
      return Ok(Db(values, Span(start, prevToken.loc.end)));
    }

    /** The arms of `parse_statement` for instructions with a fixed number of comma-separated operands. */
    method ParseOperandInstruction(m: K.Mnemonic) returns (r: Result<Statement, ParseError>)
      requires Valid() && curToken.kind == T.KwMnemonic(m)
      requires FixedOperands(m)
      modifies this
      ensures Valid()
      ensures Tracks(r, OperandInstructionAt(tokens, old(pos), m, floatBits), pos)
    {
      ghost var i := pos;
      var start := curToken.loc.start;
      NextToken();
      var ops :- ParseOperands(InstructionArity(m), true);
      var span := Span(start, prevToken.loc.end);
      OperandInstructionOk(tokens, i, m, floatBits, ops, pos);
      return Ok(Instruction(m, ops, span));
    }

    /** `parse_statement`. */
    method ParseStatement() returns (r: Result<Statement, ParseError>)
      requires Valid()
      modifies this
      ensures Valid()
      ensures Tracks(r, StatementAt(tokens, old(pos), floatBits), pos)
    {
      var t := curToken;
      if t.kind.KwDirective? {
        if t.kind.d == K.KwSection {
          r := ParseSection();
        } else {
          r := ParseDirective(t.kind.d);
        }
      } else if t.kind.KwMnemonic? {
        r := ParseInstruction(t.kind.m);
      } else if t.kind.Identifier? && peekToken.kind == T.Colon {
        NextToken();
        NextToken();
        return Ok(Label(t.literal, Span(t.loc.start, prevToken.loc.end)));
      } else {
        return Err(UnexpectedToken(t));
      }
    }

    /** `parse`: statements until the current token is `Eof`, stopping at the first error. */
    method Parse() returns (r: Result<seq<Statement>, ParseError>)
      requires Valid()
      modifies this
      ensures Valid()
      ensures r == ProgramAt(tokens, old(pos), floatBits)
    {
      ghost var spec := ProgramAt(tokens, pos, floatBits);
      var stmts: seq<Statement> := [];
      PrefixedProgramEmpty(spec);
      while curToken.kind != T.Eof
        invariant Valid()
        invariant PrefixedProgram(stmts, ProgramAt(tokens, pos, floatBits)) == spec
        decreases |tokens| - pos
      {
        ghost var i := pos;
        var s :- ParseStatement();
        ghost var before := stmts;
        stmts := stmts + [s];
        assert ProgramAt(tokens, i, floatBits) == PrefixedProgram([s], ProgramAt(tokens, pos, floatBits));
        PrefixedProgramAssoc(before, [s], ProgramAt(tokens, pos, floatBits));
      }
      assert stmts + [] == stmts;
      return Ok(stmts);
    }
  }
}
