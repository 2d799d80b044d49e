/**
 * Properties of the parser's functions: operator precedence and
 * grouping, the address, label, section and stack forms, integer
 * literals in every radix, statement spans, and source order of a parsed
 * program.
 */
module ParserProperties {
  import opened Wrappers
  import opened Spans
  import opened Bits
  import opened Ast
  import opened Parsing
  import Imm = Immediates
  import Regs = Registers
  import K = Keywords
  import T = Tokens
  import Lexing
  import LexerProperties

  /** The expression an identifier token parses to. */
  function Id(t: T.Token): Expression
  {
    Identifier(t.literal)
  }

  // ----- Precedence and grouping -----

  /** Tokens `a op1 b op2 c` followed by `Eof`, with identifiers for the operands. */
  predicate TwoOperators(ts: seq<T.Token>, op1: BinaryOperator, op2: BinaryOperator)
  {
    |ts| == 6 && ts[5].kind == T.Eof
    && ts[0].kind == T.Identifier && ts[2].kind == T.Identifier && ts[4].kind == T.Identifier
    && OperatorOf(ts[1].kind) == Some(op1) && OperatorOf(ts[3].kind) == Some(op2)
  }

  /** An operator that binds tighter than the one before it takes the middle operand. */
  lemma TighterOperatorGroupsRight(ts: seq<T.Token>, op1: BinaryOperator, op2: BinaryOperator, fl: FloatReader)
    requires TwoOperators(ts, op1, op2) && Precedence(op1) < Precedence(op2)
    ensures ExprAt(ts, 0, 0, fl)
      == Ok((BinaryOp(Id(ts[0]), op1,
                      BinaryOp(Id(ts[2]), op2, Id(ts[4]), Span(ts[2].loc.start, ts[4].loc.end)),
                      Span(ts[0].loc.start, ts[4].loc.end)), 5))
  {
    var p1, p2 := Precedence(op1), Precedence(op2);
    var c := Id(ts[4]);
    var bc := BinaryOp(Id(ts[2]), op2, c, Span(ts[2].loc.start, ts[4].loc.end));
    assert ExprAt(ts, 4, p2 + 1, fl) == Ok((c, 5)) by {
      assert PrimaryAt(ts, 4, fl) == Ok((c, 5));
      assert BinaryTail(ts, 5, p2 + 1, ts[4].loc.start, c, fl) == Ok((c, 5));
    }
    assert BinaryTail(ts, 5, p1 + 1, ts[2].loc.start, bc, fl) == Ok((bc, 5));
    assert ExprAt(ts, 2, p1 + 1, fl) == Ok((bc, 5)) by {
      assert PrimaryAt(ts, 2, fl) == Ok((Id(ts[2]), 3));
      assert BinaryTail(ts, 3, p1 + 1, ts[2].loc.start, Id(ts[2]), fl) == Ok((bc, 5));
    }
    assert PrimaryAt(ts, 0, fl) == Ok((Id(ts[0]), 1));
    var abc := BinaryOp(Id(ts[0]), op1, bc, Span(ts[0].loc.start, ts[4].loc.end));
    assert BinaryTail(ts, 1, 0, ts[0].loc.start, Id(ts[0]), fl) == BinaryTail(ts, 5, 0, ts[0].loc.start, abc, fl);
    assert BinaryTail(ts, 5, 0, ts[0].loc.start, abc, fl) == Ok((abc, 5));
  }

  /**
   * An operator that binds no tighter than the one before it takes the
   * whole expression so far as its left operand: equal precedence groups
   * to the left.
   */
  lemma LooserOrEqualOperatorGroupsLeft(ts: seq<T.Token>, op1: BinaryOperator, op2: BinaryOperator, fl: FloatReader)
    requires TwoOperators(ts, op1, op2) && Precedence(op2) <= Precedence(op1)
    ensures ExprAt(ts, 0, 0, fl)
      == Ok((BinaryOp(BinaryOp(Id(ts[0]), op1, Id(ts[2]), Span(ts[0].loc.start, ts[2].loc.end)),
                      op2, Id(ts[4]),
                      Span(ts[0].loc.start, ts[4].loc.end)), 5))
  {
    var p1, p2 := Precedence(op1), Precedence(op2);
    var c := Id(ts[4]);
    var ab := BinaryOp(Id(ts[0]), op1, Id(ts[2]), Span(ts[0].loc.start, ts[2].loc.end));
    assert ExprAt(ts, 2, p1 + 1, fl) == Ok((Id(ts[2]), 3)) by {
      assert PrimaryAt(ts, 2, fl) == Ok((Id(ts[2]), 3));
    }
    assert ExprAt(ts, 4, p2 + 1, fl) == Ok((c, 5)) by {
      assert PrimaryAt(ts, 4, fl) == Ok((c, 5));
      assert BinaryTail(ts, 5, p2 + 1, ts[4].loc.start, c, fl) == Ok((c, 5));
    }
    assert BinaryTail(ts, 3, 0, ts[0].loc.start, ab, fl)
      == BinaryTail(ts, 5, 0, ts[0].loc.start, BinaryOp(ab, op2, c, Span(ts[0].loc.start, ts[4].loc.end)), fl);
    assert PrimaryAt(ts, 0, fl) == Ok((Id(ts[0]), 1));
  }

  // ----- Addresses -----

  /** `[ x ]`: an address with no offset. */
  lemma AddressWithoutOffset(ts: seq<T.Token>, fl: FloatReader)
    requires |ts| == 4 && ts[0].kind == T.LBracket && ts[1].kind == T.Identifier
    requires ts[2].kind == T.RBracket && ts[3].kind == T.Eof
    ensures PrimaryAt(ts, 0, fl) == Ok((AddressExpr(Id(ts[1]), None), 3))
  {
    assert ExprAt(ts, 1, 0, fl) == Ok((Id(ts[1]), 2)) by {
      assert PrimaryAt(ts, 1, fl) == Ok((Id(ts[1]), 2));
    }
  }

  /** `[ x , y ]`: an address with an offset. */
  lemma AddressWithOffset(ts: seq<T.Token>, fl: FloatReader)
    requires |ts| == 6 && ts[0].kind == T.LBracket && ts[1].kind == T.Identifier && ts[2].kind == T.Comma
    requires ts[3].kind == T.Identifier && ts[4].kind == T.RBracket && ts[5].kind == T.Eof
    ensures PrimaryAt(ts, 0, fl) == Ok((AddressExpr(Id(ts[1]), Some(Id(ts[3]))), 5))
  {
    assert ExprAt(ts, 1, 0, fl) == Ok((Id(ts[1]), 2)) by {
      assert PrimaryAt(ts, 1, fl) == Ok((Id(ts[1]), 2));
    }
    assert ExprAt(ts, 3, 0, fl) == Ok((Id(ts[3]), 4)) by {
      assert PrimaryAt(ts, 3, fl) == Ok((Id(ts[3]), 4));
    }
  }

  /** `[ x` at the end of the input: the missing `]` is reported against the token found instead. */
  lemma AddressUnclosed(ts: seq<T.Token>, fl: FloatReader)
    requires |ts| == 3 && ts[0].kind == T.LBracket && ts[1].kind == T.Identifier && ts[2].kind == T.Eof
    ensures PrimaryAt(ts, 0, fl) == Err(Expected("]", ts[2]))
  {
    assert ExprAt(ts, 1, 0, fl) == Ok((Id(ts[1]), 2)) by {
      assert PrimaryAt(ts, 1, fl) == Ok((Id(ts[1]), 2));
    }
  }

  // ----- Statements -----

  /** An identifier starts a statement only as a label, that is, when a colon follows it. */
  lemma LabelIff(ts: seq<T.Token>, i: nat, fl: FloatReader)
    requires Wf(ts) && i < |ts| && ts[i].kind == T.Identifier
    ensures StatementAt(ts, i, fl).Ok? <==> ts[i + 1].kind == T.Colon
    ensures ts[i + 1].kind == T.Colon ==>
      StatementAt(ts, i, fl) == Ok((Label(ts[i].literal, Span(ts[i].loc.start, ts[i + 1].loc.end)), i + 2))
    ensures ts[i + 1].kind != T.Colon ==> StatementAt(ts, i, fl) == Err(UnexpectedToken(ts[i]))
  {
    NotLast(ts, i);
  }

  /** `.section` accepts exactly the names `text` and `data`, written in lower case. */
  lemma SectionIff(ts: seq<T.Token>, i: nat, fl: FloatReader)
    requires Wf(ts) && i < |ts| && ts[i].kind == T.KwDirective(K.KwSection)
    ensures StatementAt(ts, i, fl).Ok? <==> ts[i + 1].kind == T.SectionName && ts[i + 1].literal in {"text", "data"}
    ensures !ts[i + 1].kind.SectionName? ==>
      StatementAt(ts, i, fl) == Err(Expected("section name (text or data)", ts[i + 1]))
  {
    NotLast(ts, i);
  }

  /**
   * The lexer classifies a section name in any letter case, but the parser
   * takes only the lower-case spellings: `TEXT` is a section-name token
   * that `.section` rejects.
   */
  lemma UppercaseSectionNameRejected(ts: seq<T.Token>, i: nat, fl: FloatReader)
    requires Wf(ts) && i < |ts| && ts[i].kind == T.KwDirective(K.KwSection)
    requires ts[i + 1] == T.Token(T.LookupIdent("TEXT"), "TEXT", ts[i + 1].loc)
    ensures ts[i + 1].kind == T.SectionName
    ensures StatementAt(ts, i, fl) == Err(UnexpectedToken(ts[i + 1]))
  {
    T.LookupSectionName("TEXT");
    assert Imm.Lower("TEXT") == "text";
  }

  /** A register token names a register only when its text is that register's exact name. */
  lemma RegisterOperandIff(ts: seq<T.Token>, i: nat, fl: FloatReader, r: Regs.Register)
    requires Wf(ts) && i < |ts| && ts[i].kind == T.Register
    ensures PrimaryAt(ts, i, fl) == Ok((RegisterExpr(r), i + 1)) <==> Regs.RegisterName(r) == ts[i].literal
    ensures PrimaryAt(ts, i, fl).Err? ==> PrimaryAt(ts, i, fl) == Err(UnexpectedToken(ts[i]))
  {
    Regs.RegisterFromNameSpec(ts[i].literal, r);
  }

  /**
   * The lexer classifies `Q0` as a register, since it looks registers up
   * in lower case, but no register is named `Q0`: the parser rejects it.
   */
  lemma UppercaseRegisterRejected(ts: seq<T.Token>, i: nat, fl: FloatReader)
    requires Wf(ts) && i < |ts| && ts[i] == T.Token(T.LookupIdent("Q0"), "Q0", ts[i].loc)
    ensures ts[i].kind == T.Register
    ensures PrimaryAt(ts, i, fl) == Err(UnexpectedToken(ts[i]))
  {
    assert Imm.Lower("Q0") == "q0";
    assert Regs.RegisterName(Regs.Banked(Regs.QBank, 0)) == "q0";
    T.LookupRegister("Q0");
    NoRegisterQ0();
  }

  /** Register names are lower case: `Q0` names none. */
  lemma NoRegisterQ0()
    ensures Regs.RegisterFromName("Q0") == None
  {
  }

  /** `push` takes a leading size only when the token after it is a data size. */
  lemma PushWithSize(ts: seq<T.Token>, i: nat, fl: FloatReader, size: Imm.DataSize)
    requires Wf(ts) && i + 3 < |ts| && ts[i].kind == T.KwMnemonic(K.KwPush)
    requires ts[i + 1].kind == T.DataSize && Imm.SizeFromName(ts[i + 1].literal) == Some(size)
    requires ts[i + 2].kind == T.Identifier && OperatorOf(ts[i + 3].kind).None?
    ensures StatementAt(ts, i, fl)
      == Ok((Push(Some(DataSizeExpr(size)), Id(ts[i + 2]), Span(ts[i].loc.start, ts[i + 2].loc.end)), i + 3))
  {
    assert ExprAt(ts, i + 1, 0, fl) == Ok((DataSizeExpr(size), i + 2)) by {
      assert PrimaryAt(ts, i + 1, fl) == Ok((DataSizeExpr(size), i + 2));
    }
    assert ExprAt(ts, i + 2, 0, fl) == Ok((Id(ts[i + 2]), i + 3)) by {
      assert PrimaryAt(ts, i + 2, fl) == Ok((Id(ts[i + 2]), i + 3));
    }
  }

  /** Without a data size after `push`, the operand is parsed at once and there is no size. */
  lemma PushWithoutSize(ts: seq<T.Token>, i: nat, fl: FloatReader)
    requires Wf(ts) && i + 2 < |ts| && ts[i].kind == T.KwMnemonic(K.KwPush)
    requires ts[i + 1].kind == T.Identifier && OperatorOf(ts[i + 2].kind).None?
    ensures StatementAt(ts, i, fl)
      == Ok((Push(None, Id(ts[i + 1]), Span(ts[i].loc.start, ts[i + 1].loc.end)), i + 2))
  {
    assert ExprAt(ts, i + 1, 0, fl) == Ok((Id(ts[i + 1]), i + 2)) by {
      assert PrimaryAt(ts, i + 1, fl) == Ok((Id(ts[i + 1]), i + 2));
    }
  }

  /** Every list of `db` values separated by commas is read whole, in order. */
  lemma {:induction false} DbIdentifierList(ts: seq<T.Token>, i: nat, n: nat, fl: FloatReader)
    requires Wf(ts) && n >= 1 && i + 2 * n <= |ts|
    requires forall k :: 0 <= k < n ==> ts[i + 2 * k].kind == T.Identifier
    requires forall k :: 0 <= k < n - 1 ==> ts[i + 2 * k + 1].kind == T.Comma
    requires ts[i + 2 * n - 1].kind != T.Comma && OperatorOf(ts[i + 2 * n - 1].kind).None?
    ensures DbListAt(ts, i, fl) == Ok((seq(n, k requires 0 <= k < n => Id(ts[i + 2 * k])), i + 2 * n - 1))
    decreases n
  {
    assert ts[i + 2 * 0].kind == T.Identifier;
    assert ExprAt(ts, i, 0, fl) == Ok((Id(ts[i]), i + 1)) by {
      assert PrimaryAt(ts, i, fl) == Ok((Id(ts[i]), i + 1));
      if n > 1 {
        assert ts[i + 2 * 0 + 1].kind == T.Comma;
      }
    }
    if n > 1 {
      assert ts[i + 2 * 0 + 1].kind == T.Comma;
      DbListShift(ts, i, n);
      DbIdentifierList(ts, i + 2, n - 1, fl);
      IdsCons(ts, i, n);
    } else {
      assert seq(n, k requires 0 <= k < n => Id(ts[i + 2 * k])) == [Id(ts[i])];
    }
  }

  /** The values of a list of `n` are the first one and then the values of the list of `n - 1` after it. */
  lemma IdsCons(ts: seq<T.Token>, i: nat, n: nat)
    requires n > 1 && i + 2 * n <= |ts|
    ensures seq(n, k requires 0 <= k < n => Id(ts[i + 2 * k]))
      == [Id(ts[i])] + seq(n - 1, k requires 0 <= k < n - 1 => Id(ts[i + 2 + 2 * k]))
  {
    var rest := seq(n - 1, k requires 0 <= k < n - 1 => Id(ts[i + 2 + 2 * k]));
    forall k | 1 <= k < n
      ensures rest[k - 1] == Id(ts[i + 2 * k])
    {
      assert i + 2 + 2 * (k - 1) == i + 2 * k;
    }
  }

  /** The list after its first value and comma alternates the same way. */
  lemma DbListShift(ts: seq<T.Token>, i: nat, n: nat)
    requires n > 1 && i + 2 * n <= |ts|
    requires forall k :: 0 <= k < n ==> ts[i + 2 * k].kind == T.Identifier
    requires forall k :: 0 <= k < n - 1 ==> ts[i + 2 * k + 1].kind == T.Comma
    ensures forall k :: 0 <= k < n - 1 ==> ts[i + 2 + 2 * k].kind == T.Identifier
    ensures forall k :: 0 <= k < n - 2 ==> ts[i + 2 + 2 * k + 1].kind == T.Comma
  {
    forall k | 0 <= k < n - 1
      ensures ts[i + 2 + 2 * k].kind == T.Identifier
    {
      assert ts[i + 2 * (k + 1)].kind == T.Identifier;
    }
    forall k | 0 <= k < n - 2
      ensures ts[i + 2 + 2 * k + 1].kind == T.Comma
    {
      assert ts[i + 2 * (k + 1) + 1].kind == T.Comma;
    }
  }

  // ----- Integer literals -----

  /** The digit of value `d`, in lower case. */
  function DigitChar(d: nat): (c: char)
    requires d < 36
    ensures c != '+' && c != '-'
  {
    if d < 10 then ('0' as int + d) as char else ('a' as int + d - 10) as char
  }

  /** A digit reads back as its value in any radix that has it. */
  lemma DigitCharValue(d: nat, radix: nat)
    requires 2 <= radix <= 36 && d < radix
    ensures DigitValue(DigitChar(d), radix) == Some(d)
  {
  }

  /** Euclidean division by a radix: the quotient and remainder rebuild `n`, and the quotient is smaller. */
  lemma DivMod(n: nat, radix: nat)
    requires radix >= 2
    ensures n == (n / radix) * radix + n % radix && n % radix < radix
    ensures n >= radix ==> n / radix < n
  {
  }

  /** The numeral of `n` in `radix`, most significant digit first, with no leading zeros. */
  function ToDigits(n: nat, radix: nat): (s: string)
    requires 2 <= radix <= 36
    ensures |s| > 0 && s[0] != '+' && s[0] != '-'
    decreases n
  {
    if n < radix then [DigitChar(n)]
    else
      DivMod(n, radix);
      ToDigits(n / radix, radix) + [DigitChar(n % radix)]
  }

  /** Reading a numeral gives back the number it was written from. */
  lemma {:induction false} DigitsRoundTrip(n: nat, radix: nat)
    requires 2 <= radix <= 36
    ensures DigitsValue(ToDigits(n, radix), radix) == Some(n)
    decreases n
  {
    var s := ToDigits(n, radix);
    if n < radix {
      DigitCharValue(n, radix);
      assert s[..0] == [];
    } else {
      var q, d := n / radix, n % radix;
      DivMod(n, radix);
      DigitsRoundTrip(q, radix);
      DigitCharValue(d, radix);
      assert s == ToDigits(q, radix) + [DigitChar(d)];
      assert s[..|s| - 1] == ToDigits(q, radix);
      assert s[|s| - 1] == DigitChar(d);
      assert DigitsValue(s, radix) == Some(q * radix + d);
      assert q * radix + d == n;
    }
  }

  /** A character that is not a digit of the radix makes the whole numeral unreadable. */
  lemma {:induction false} BadDigitRejected(s: string, radix: nat, k: nat)
    requires 2 <= radix <= 36 && k < |s| && DigitValue(s[k], radix).None?
    ensures DigitsValue(s, radix).None?
    decreases |s|
  {
    if k < |s| - 1 {
      var front := s[..|s| - 1];
      assert front[k] == s[k];
      BadDigitRejected(front, radix, k);
    }
  }

  /**
   * `from_str_radix` reads a numeral with or without a sign; a value
   * outside i64 is rejected.
   */
  lemma FromStrRadixNumeral(n: nat, radix: nat)
    requires 2 <= radix <= 36
    ensures FromStrRadix(ToDigits(n, radix), radix) == if n <= I64_MAX then Some(n as int) else None
    ensures FromStrRadix("+" + ToDigits(n, radix), radix) == if n <= I64_MAX then Some(n as int) else None
    ensures FromStrRadix("-" + ToDigits(n, radix), radix) == if n <= -I64_MIN then Some(-(n as int)) else None
  {
    var s := ToDigits(n, radix);
    DigitsRoundTrip(n, radix);
    assert ("+" + s)[1..] == s;
    assert ("-" + s)[1..] == s;
  }

  /** The radix a prefixed integer token is read in. */
  function RadixOf(k: T.TokenKind): nat
  {
    if k == T.Hexadecimal then 16 else if k == T.Binary then 2 else if k == T.Octal then 8 else 10
  }

  /**
   * An integer token of any radix, written with the numeral of `n` after
   * its two-character prefix (or alone, for a decimal), is the literal `n`
   * when `n` fits in i64 and is rejected otherwise.
   */
  lemma IntegerToken(ts: seq<T.Token>, i: nat, fl: FloatReader, n: nat)
    requires Wf(ts) && i < |ts|
    requires ts[i].kind in {T.Integer, T.Hexadecimal, T.Binary, T.Octal}
    requires ts[i].kind == T.Integer ==> ts[i].literal == ToDigits(n, 10)
    requires ts[i].kind != T.Integer ==> |ts[i].literal| >= 2 && ts[i].literal[2..] == ToDigits(n, RadixOf(ts[i].kind))
    ensures n <= I64_MAX ==> PrimaryAt(ts, i, fl) == Ok((IntegerLiteral(n), i + 1))
    ensures n > I64_MAX ==> PrimaryAt(ts, i, fl) == Err(UnexpectedToken(ts[i]))
  {
    FromStrRadixNumeral(n, RadixOf(ts[i].kind));
  }

  /**
   * A prefixed token with a character that is not a digit of its radix is
   * rejected, except for a sign straight after the prefix, which
   * `from_str_radix` reads as a sign.
   */
  lemma BadDigitToken(ts: seq<T.Token>, i: nat, fl: FloatReader, k: nat)
    requires Wf(ts) && i < |ts| && ts[i].kind in {T.Hexadecimal, T.Binary, T.Octal}
    requires 2 <= k < |ts[i].literal| && DigitValue(ts[i].literal[k], RadixOf(ts[i].kind)).None?
    requires k == 2 ==> ts[i].literal[k] != '+' && ts[i].literal[k] != '-'
    ensures PrimaryAt(ts, i, fl) == Err(UnexpectedToken(ts[i]))
  {
    var lit := ts[i].literal;
    var digits := lit[2..];
    assert digits[k - 2] == lit[k];
    if digits[0] == '+' || digits[0] == '-' {
      if k > 2 {
        assert digits[1..][k - 3] == lit[k];
        BadDigitRejected(digits[1..], RadixOf(ts[i].kind), k - 3);
      }
    } else {
      BadDigitRejected(digits, RadixOf(ts[i].kind), k - 2);
    }
  }

  // ----- Spans and source order -----

  /** Token start offsets increase strictly along the sequence. */
  predicate StartsIncrease(ts: seq<T.Token>)
  {
    forall k :: 0 <= k < |ts| - 1 ==> ts[k].loc.start < ts[k + 1].loc.start
  }

  lemma {:induction false} StartsIncreaseFar(ts: seq<T.Token>, a: nat, b: nat)
    requires StartsIncrease(ts) && a < b < |ts|
    ensures ts[a].loc.start < ts[b].loc.start
    decreases b - a
  {
    if a + 1 < b {
      StartsIncreaseFar(ts, a + 1, b);
    }
  }

  /**
   * When token starts increase, a parsed program's statements start at or
   * after the first token and in strictly increasing order.
   */
  lemma {:induction false} ProgramInSourceOrder(ts: seq<T.Token>, i: nat, fl: FloatReader)
    requires Wf(ts) && i < |ts| && StartsIncrease(ts) && ProgramAt(ts, i, fl).Ok?
    ensures var ss := ProgramAt(ts, i, fl).value;
      (forall a :: 0 <= a < |ss| ==> ts[i].loc.start <= ss[a].span.start)
      && (forall a :: 0 <= a < |ss| - 1 ==> ss[a].span.start < ss[a + 1].span.start)
    decreases |ts| - i
  {
    if ts[i].kind != T.Eof {
      var (s, j) := StatementAt(ts, i, fl).value;
      ProgramInSourceOrder(ts, j, fl);
      StartsIncreaseFar(ts, i, j);
      var rest := ProgramAt(ts, j, fl).value;
      assert ProgramAt(ts, i, fl).value == [s] + rest;
    }
  }

  /**
   * The parse of a lexed text: the lexer's tokens are well formed for the
   * parser, and the statements come out in the order of the text.
   */
  lemma LexedProgramInSourceOrder(input: string, fl: FloatReader)
    ensures Wf(Lexing.Tokenize(input, 0))
    ensures var ss := ProgramAt(Lexing.Tokenize(input, 0), 0, fl);
      ss.Ok? ==> forall a :: 0 <= a < |ss.value| - 1 ==> ss.value[a].span.start < ss.value[a + 1].span.start
  {
    LexerProperties.TokenizeEndsWithEof(input, 0);
    LexerProperties.TokenizeStartsIncrease(input, 0);
    var ts := Lexing.Tokenize(input, 0);
    if ProgramAt(ts, 0, fl).Ok? {
      ProgramInSourceOrder(ts, 0, fl);
    }
  }

  // ----- The error of `expect_cur` -----

  /**
   * As written, `expect_cur` reports the token after the one that is not
   * of the expected kind: in `mov q0 1` the missing comma is blamed on the
   * end of the input rather than on `1`. The corrected `ExpectAt` names
   * the offending token itself.
   */
  lemma ExpectBlamesFollowingToken(ts: seq<T.Token>, j: nat, kind: T.TokenKind)
    requires Wf(ts) && j < |ts| && kind != T.Eof && ts[j].kind != kind && StartsIncrease(ts)
    ensures ExpectAtAsWritten(ts, j, kind) == Err(UnexpectedToken(PeekAt(ts, j)))
    ensures j + 1 < |ts| ==> ExpectAtAsWritten(ts, j, kind) == Err(UnexpectedToken(ts[j + 1]))
    ensures ExpectAtAsWritten(ts, j, kind) != Err(UnexpectedToken(ts[j]))
    ensures ExpectAt(ts, j, kind) == Err(UnexpectedToken(ts[j]))
  {
  }

  /**
   * `mov q0` with the comma missing: the current token is the final `Eof`
   * at 6..7, and as written the error names the fresh `Eof` at 7..8.
   */
  lemma MissingCommaAtEnd()
    ensures var ts := [T.Token(T.KwMnemonic(K.KwMov), "mov", NewSpan(0, 3)),
                       T.Token(T.Register, "q0", NewSpan(4, 6)),
                       T.Token(T.Eof, "", NewSpan(6, 7))];
            ExpectAtAsWritten(ts, 2, T.Comma) == Err(UnexpectedToken(T.Token(T.Eof, "", NewSpan(7, 8))))
            && ExpectAt(ts, 2, T.Comma) == Err(UnexpectedToken(T.Token(T.Eof, "", NewSpan(6, 7))))
  {
  }
}
