/**
 * Tokens and the keyword table (src/lexer/token.rs): what a word of
 * source text is, once the lexer has cut it out.
 */
module Tokens {
  import opened Wrappers
  import opened Spans
  import Imm = Immediates
  import Regs = Registers
  import opened Keywords

  /** `TokenKind`; the keyword kinds of the source are gathered under the last two. */
  datatype TokenKind =
    | Eof | Illegal
    | Identifier | Register | Integer | Hexadecimal | Binary | Octal | Float | String | DataSize | SectionName
    | Colon | Comma | Plus | Minus | Asterisk | Slash | Pipe | Ampersand | Caret
    | LParen | RParen | LBracket | RBracket
    | KwDirective(d: Directive) | KwMnemonic(m: Mnemonic)

  /** A token: its kind, its text (a string literal's decoded contents) and where it came from. */
  datatype Token = Token(kind: TokenKind, literal: string, loc: Span)

  const SizeWords: set<string> := {"byte", "word", "dword", "qword", "float", "double"}

  /**
   * The whole table, looked up with an already lower-cased word. Only the
   * directives start with `#` or `.`, so such a word is looked up among them
   * alone; the other entries are tried in turn, which finds what the
   * source's single hash map finds because no word is in two of them.
   */
  function Lookup(w: string): (r: Option<TokenKind>)
    ensures r.Some? ==> r.value !in {Identifier, Eof, Illegal, String}
  {
    if |w| > 0 && (w[0] == '#' || w[0] == '.') then
      (match DirectiveNamed(w)
       case Some(d) => Some(KwDirective(d))
       case None => None)
    else if MnemonicNamed(w).Some? then Some(KwMnemonic(MnemonicNamed(w).value))
    else if w == "text" || w == "data" then Some(SectionName)
    else if w in SizeWords then Some(DataSize)
    else if Regs.RegisterFromName(w).Some? then Some(Register)
    else None
  }

  /** `lookup_ident`: the word is lower-cased, then looked up; a miss is an identifier. */
  function LookupIdent(ident: string): (k: TokenKind)
    ensures k != Eof && k != Illegal && k != String
  {
    match Lookup(Imm.Lower(ident))
    case Some(k) => k
    case None => Identifier
  }

  /** Letter case never matters to the lookup. */
  lemma LookupIgnoresCase(s: string)
    ensures LookupIdent(Imm.Lower(s)) == LookupIdent(s)
  {
    Imm.LowerIdempotent(s);
  }

  /**
   * A word is a given directive exactly when its lower-case form is that
   * directive's spelling, prefix included: `.section` is the directive,
   * `section` is not.
   */
  lemma LookupDirective(s: string, d: Directive)
    ensures LookupIdent(s) == KwDirective(d) <==> Imm.Lower(s) == DirectiveSpelling(d)
  {
    var w := Imm.Lower(s);
    DirectiveFound(d);
    if LookupIdent(s) == KwDirective(d) {
      DirectiveSpelt(w);
    }
  }

  /** A word is a given mnemonic exactly when its lower-case form is that mnemonic's spelling. */
  lemma LookupMnemonic(s: string, m: Mnemonic)
    ensures LookupIdent(s) == KwMnemonic(m) <==> Imm.Lower(s) == MnemonicSpelling(m)
  {
    var w := Imm.Lower(s);
    if w == MnemonicSpelling(m) {
      MnemonicFound(m);
      MnemonicShape(w);
    }
    if LookupIdent(s) == KwMnemonic(m) {
      MnemonicSpelt(w);
    }
  }

  /** The register names are none of the other words of the table. */
  lemma RegisterNotWord(r: Regs.Register)
    ensures var w := Regs.RegisterName(r);
      |w| > 0 && w[0] != '#' && w[0] != '.' && MnemonicNamed(w).None?
      && w != "text" && w != "data" && w !in SizeWords
  {
    var w := Regs.RegisterName(r);
    if r.Banked? {
      var t := Regs.IndexName(r.n);
      assert w[|w| - 1] == t[|t| - 1];
      if MnemonicNamed(w).Some? {
        MnemonicShape(w);
      }
    }
  }

  /** A word is a register token exactly when its lower-case form names a register. */
  lemma LookupRegister(s: string)
    ensures LookupIdent(s) == Register <==> exists r :: Regs.RegisterName(r) == Imm.Lower(s)
  {
    var w := Imm.Lower(s);
    if LookupIdent(s) == Register {
      var r := Regs.RegisterFromName(w).value;
      assert Regs.RegisterName(r) == w;
    }
    if r :| Regs.RegisterName(r) == w {
      RegisterNotWord(r);
      Regs.RegisterNameRoundTrip(r);
    }
  }

  /** A word is a section name exactly when its lower-case form is `text` or `data`. */
  lemma LookupSectionName(s: string)
    ensures LookupIdent(s) == SectionName <==> Imm.Lower(s) in {"text", "data"}
  {
    var w := Imm.Lower(s);
    assert MnemonicNamed("text").None? && MnemonicNamed("data").None?;
  }

  /**
   * A word is a data-size token exactly when the parser's `DataSize`
   * conversion accepts it, so that conversion never fails on a token the
   * lexer classified as a size.
   */
  lemma LookupDataSize(s: string)
    ensures LookupIdent(s) == DataSize <==> Imm.SizeFromName(s).Some?
  {
    var w := Imm.Lower(s);
    assert Imm.SizeFromName(s).Some? <==> w in SizeWords;
    assert forall x | x in SizeWords :: MnemonicNamed(x).None?;
  }

  /** `source_span`: offset at the start, length up to the end. */
  function SourceSpan(t: Token): (r: (nat, nat))
    requires t.loc.start <= t.loc.end
    ensures r.0 == t.loc.start && r.0 + r.1 == t.loc.end
  {
    ToSourceSpan(t.loc)
  }

  /** `Display`: "EOF" for the end, a string literal between double quotes, any other literal as it is. */
  function Display(t: Token): (r: string)
    ensures t.kind == Eof ==> r == "EOF"
    ensures t.kind == String ==> |r| == |t.literal| + 2 && r[0] == '"' && r[|r| - 1] == '"' && r[1..|r| - 1] == t.literal
    ensures t.kind != Eof && t.kind != String ==> r == t.literal
  {
    if t.kind == Eof then "EOF"
    else if t.kind == String then "\"" + t.literal + "\""
    else t.literal
  }
}
