/**
 * What the lexer of src/lexer/mod.rs promises about the tokens it cuts:
 * where a loop stops, how string escapes decode, how numbers are
 * classified, what a comment swallows, and the shape of the token stream.
 */
module LexerProperties {
  import opened Wrappers
  import opened Spans
  import opened Tokens
  import opened Lexing

  /** A class loop stops exactly at the first character outside the class. */
  lemma {:induction false} ScanWhileStops(input: string, p: nat, e: nat, cl: CharClass)
    requires p <= e
    requires forall i :: p <= i < e ==> InClass(CharAt(input, i), cl)
    requires !InClass(CharAt(input, e), cl)
    ensures ScanWhile(input, p, cl) == e
    decreases e - p
  {
    if p < e {
      ScanWhileStops(input, p + 1, e, cl);
    }
  }

  /** Skipping whitespace stops exactly at the first character that is not whitespace. */
  lemma {:induction false} SkipSpaceStops(input: string, p: nat, e: nat)
    requires p <= e
    requires forall i :: p <= i < e ==> IsWhitespace(CharAt(input, i))
    requires !IsWhitespace(CharAt(input, e))
    ensures SkipSpace(input, p) == e
    decreases e - p
  {
    if p < e {
      SkipSpaceStops(input, p + 1, e);
    }
  }

  /** Input that is whitespace from `p` to its end yields `Eof`, one character wide, just past the end. */
  lemma EndIsEof(input: string, p: nat)
    requires forall i :: p <= i < |input| ==> IsWhitespace(input[i])
    ensures var q := if p <= |input| then |input| else p;
      Scan(input, p) == (Token(Eof, "", Span(q, q + 1)), q + 1)
  {
    if p <= |input| {
      SkipSpaceStops(input, p, |input|);
    }
  }

  /**
   * A comment runs from its `;` up to the next newline or the end of the
   * input, and scanning goes on from there as though it were not there.
   */
  lemma CommentToLineEnd(input: string, q: nat, e: nat)
    requires q < e <= |input| && input[q] == ';'
    requires forall i :: q < i < e ==> input[i] != '\n' && input[i] != '\0'
    requires e == |input| || input[e] == '\n'
    ensures Scan(input, q) == Scan(input, e)
  {
    SkipSpaceStops(input, q, q);
    ScanWhileStops(input, q + 1, e, NotNewline);
  }

  /** The characters no token starts with: the lexer turns each into an `Illegal` token of its own. */
  predicate IllegalChar(c: char)
  {
    c != '\0' && !IsWhitespace(c) && Punctuator(c).None? && c != '#' && c != '.' && c != '"' && c != ';'
    && !IsDigit(c) && !IsLetter(c) && c != '_'
  }

  /** An `Illegal` token is one character wide and holds that character, which no token may start with. */
  lemma {:induction false} IllegalIsOneChar(input: string, p: nat)
    ensures var t := Scan(input, p).0;
      t.kind == Illegal ==>
        t.loc.start < |input| && t.loc.end == t.loc.start + 1
        && t.literal == [input[t.loc.start]] && IllegalChar(input[t.loc.start])
    decreases |input| + 1 - p
  {
    var q := SkipSpace(input, p);
    var c := CharAt(input, q);
    if c == ';' {
      IllegalIsOneChar(input, ScanWhile(input, q + 1, NotNewline));
    }
  }

  /** The source text of one character, written with the escapes the lexer knows. */
  function EscapeChar(c: char): (r: string)
    ensures 1 <= |r| <= 2
  {
    match c
    case '\n' => "\\n"
    case '\r' => "\\r"
    case '\t' => "\\t"
    case '\\' => "\\\\"
    case '"' => "\\\""
    case _ => [c]
  }

  /** The source text of a string's contents, each character written as `EscapeChar` writes it. */
  function Escape(s: string): (r: string)
    ensures |r| >= |s|
  {
    if s == [] then [] else EscapeChar(s[0]) + Escape(s[1..])
  }

  /** The escape of one character, followed by more text, is read back as that character. */
  lemma EscapeCharRead(input: string, i: nat, c: char)
    requires c != '\0'
    requires i + |EscapeChar(c)| <= |input|
    requires input[i..i + |EscapeChar(c)|] == EscapeChar(c)
    ensures var rest := StringBody(input, i + |EscapeChar(c)|, false);
      StringBody(input, i, false) == ([c] + rest.0, rest.1)
  {
    var ec := EscapeChar(c);
    assert input[i] == ec[0] by {
      assert input[i..i + |ec|][0] == input[i];
    }
    if |ec| == 2 {
      assert input[i + 1] == ec[1] by {
        assert input[i..i + |ec|][1] == input[i + 1];
      }
      assert StringBody(input, i, false) == StringBody(input, i + 1, true);
    }
  }

  /** Dropping the first character of a text free of NUL leaves a text free of NUL. */
  lemma NoNulTail(s: string)
    requires s != [] && '\0' !in s
    ensures s[0] != '\0' && '\0' !in s[1..]
  {
    assert s[0] in s;
    assert forall x | x in s[1..] :: x in s;
  }

  /** Text known to be `a + b` at position `i` holds `a` at `i` and `b` right after it. */
  lemma SplitAt(input: string, i: nat, a: string, b: string)
    requires i + |a| + |b| <= |input|
    requires input[i..i + |a| + |b|] == a + b
    ensures input[i..i + |a|] == a && input[i + |a|..i + |a| + |b|] == b
  {
    var all := input[i..i + |a| + |b|];
    assert input[i..i + |a|] == all[..|a|];
    assert input[i + |a|..i + |a| + |b|] == all[|a|..];
  }

  /** An escaped text never holds an unescaped closing quote or a NUL, so the body loop reads it back. */
  lemma {:induction false} EscapeRoundTrip(input: string, i: nat, s: string)
    requires '\0' !in s
    requires i + |Escape(s)| < |input|
    requires input[i..i + |Escape(s)|] == Escape(s)
    requires input[i + |Escape(s)|] == '"'
    ensures StringBody(input, i, false) == (s, i + |Escape(s)|)
    decreases s
  {
    if s == [] {
      assert CharAt(input, i) == '"';
    } else {
      var c, t := s[0], s[1..];
      var n := |EscapeChar(c)|;
      assert Escape(s) == EscapeChar(c) + Escape(t);
      SplitAt(input, i, EscapeChar(c), Escape(t));
      NoNulTail(s);
      EscapeCharRead(input, i, c);
      EscapeRoundTrip(input, i + n, t);
      var rest := StringBody(input, i + n, false);
      assert rest == (t, i + |Escape(s)|);
      assert [c] + t == s;
      assert StringBody(input, i, false) == ([c] + rest.0, rest.1);
    }
  }

  /**
   * A string literal written with the escapes reads back as the string it
   * was written from; the token spans both quotes and the cursor is left
   * just past the closing one.
   */
  lemma StringLiteralRoundTrip(input: string, q: nat, s: string)
    requires '\0' !in s
    requires q + |Escape(s)| + 2 <= |input|
    requires input[q] == '"' && input[q + 1..q + 1 + |Escape(s)|] == Escape(s) && input[q + 1 + |Escape(s)|] == '"'
    ensures var n := |Escape(s)| + 2;
      Scan(input, q) == (Token(String, s, Span(q, q + n)), q + n)
  {
    EscapeRoundTrip(input, q + 1, s);
    SkipSpaceStops(input, q, q);
  }

  /** A string with no closing quote runs to the end of the input; the lexer raises no error. */
  lemma {:induction false} UnterminatedStringBody(input: string, i: nat, escaped: bool)
    requires i <= |input|
    requires forall k :: i <= k < |input| ==> input[k] != '"' && input[k] != '\0'
    ensures StringBody(input, i, escaped).1 == |input|
    decreases |input| - i
  {
    if i < |input| {
      UnterminatedStringBody(input, i + 1, input[i] == '\\' && !escaped);
    }
  }

  /**
   * An unterminated string's token spans one past the end of the input,
   * the cursor stops at the end, and the next token is `Eof`.
   */
  lemma UnterminatedString(input: string, q: nat)
    requires q < |input| && input[q] == '"'
    requires forall k :: q < k < |input| ==> input[k] != '"' && input[k] != '\0'
    ensures ScanString(input, q).0.loc == Span(q, |input| + 1)
    ensures ScanString(input, q).1 == |input|
    ensures Scan(input, |input|).0.kind == Eof
  {
    UnterminatedStringBody(input, q + 1, false);
    EndIsEof(input, |input|);
  }

  /** A non-empty run of decimal digits. */
  predicate IsDecimal(s: string)
  {
    |s| > 0 && forall i :: 0 <= i < |s| ==> IsDigit(s[i])
  }

  /** The kind a number literal's own text calls for: its prefix, else a decimal point, else an integer. */
  function NumberKind(lit: string): TokenKind
  {
    if |lit| >= 2 && lit[0] == '0' && (lit[1] == 'x' || lit[1] == 'X') then Hexadecimal
    else if |lit| >= 2 && lit[0] == '0' && (lit[1] == 'b' || lit[1] == 'B') then Binary
    else if |lit| >= 2 && lit[0] == '0' && (lit[1] == 'o' || lit[1] == 'O') then Octal
    else if '.' in lit then Float
    else Integer
  }

  /**
   * A number token is the text it spans, and its kind is the one that
   * text calls for: a radix prefix decides, else a decimal point makes a
   * float.
   */
  lemma NumberClassified(input: string, q: nat)
    requires q < |input| && IsDigit(input[q])
    ensures var (t, e) := ScanNumber(input, q);
      t.loc == Span(q, e) && t.literal == input[q..e] && t.kind == NumberKind(t.literal)
  {
    var (t, e) := ScanNumber(input, q);
    var lit := input[q..e];
    var next := CharAt(input, q + 1);
    if input[q] == '0' && (next == 'x' || next == 'X' || next == 'b' || next == 'B' || next == 'o' || next == 'O') {
      assert lit[0] == '0' && lit[1] == next;
    } else {
      var d := ScanWhile(input, q, Digits);
      assert d > q;
      if |lit| >= 2 {
        assert lit[1] == input[q + 1];
      }
      if t.kind == Float {
        assert lit[d - q] == '.';
      } else {
        assert e == d;
        forall k | 0 <= k < |lit|
          ensures lit[k] != '.'
        {
          assert lit[k] == CharAt(input, q + k);
        }
      }
    }
  }

  /** A stretch of digits, cut out of the input, is a decimal numeral. */
  lemma DigitsSlice(input: string, a: nat, b: nat)
    requires a < b <= |input|
    requires forall i :: a <= i < b ==> IsDigit(CharAt(input, i))
    ensures IsDecimal(input[a..b])
  {
    forall k | 0 <= k < b - a
      ensures IsDigit(input[a..b][k])
    {
      assert input[a..b][k] == CharAt(input, a + k);
    }
  }

  /**
   * Numbers are cut as long as they can be: an integer is all digits and
   * is followed neither by a digit nor by a point and a digit; a float is
   * digits, a point and digits, and is followed by no digit.
   */
  lemma DecimalIsMaximal(input: string, q: nat)
    requires q < |input| && IsDigit(input[q])
    ensures var (t, e) := ScanNumber(input, q);
      (t.kind == Integer ==>
        IsDecimal(t.literal) && !IsDigit(CharAt(input, e))
        && !(CharAt(input, e) == '.' && IsDigit(CharAt(input, e + 1))))
      && (t.kind == Float ==>
        !IsDigit(CharAt(input, e))
        && exists k :: 0 < k < |t.literal| - 1 && IsDecimal(t.literal[..k]) && t.literal[k] == '.' && IsDecimal(t.literal[k + 1..]))
  {
    var (t, e) := ScanNumber(input, q);
    var d := ScanWhile(input, q, Digits);
    if t.kind == Integer {
      DigitsSlice(input, q, e);
    }
    if t.kind == Float {
      var lit := t.literal;
      var k := d - q;
      assert lit[..k] == input[q..d];
      assert lit[k + 1..] == input[d + 1..e];
      DigitsSlice(input, q, d);
      DigitsSlice(input, d + 1, e);
      assert lit[k] == '.';
    }
  }

  /** No punctuator is whitespace, so a punctuator is read where the cursor stands. */
  lemma PunctuatorNotSpace(c: char)
    requires Punctuator(c).Some?
    ensures !IsWhitespace(c) && c != '\0'
  {
  }

  /** The token a punctuator at `i` makes: its kind, the character itself, and a span of one. */
  function PunctuatorToken(input: string, i: nat): Token
    requires i < |input| && Punctuator(input[i]).Some?
  {
    Token(Punctuator(input[i]).value, [input[i]], Span(i, i + 1))
  }

  /** A punctuator is read where the cursor stands, and the cursor moves one past it. */
  lemma ScanPunctuator(input: string, p: nat)
    requires p < |input| && Punctuator(input[p]).Some?
    ensures Scan(input, p) == (PunctuatorToken(input, p), p + 1)
  {
    PunctuatorNotSpace(input[p]);
    SkipSpaceStops(input, p, p);
  }

  /** One punctuator token per character from `p` on. */
  function PunctuatorTokens(input: string, p: nat): (ts: seq<Token>)
    requires p <= |input|
    requires forall i :: p <= i < |input| ==> Punctuator(input[i]).Some?
    ensures |ts| == |input| - p
    ensures forall i :: p <= i < |input| ==> ts[i - p] == PunctuatorToken(input, i)
    decreases |input| - p
  {
    if p == |input| then [] else [PunctuatorToken(input, p)] + PunctuatorTokens(input, p + 1)
  }

  /**
   * Input made of punctuators alone gives one token per character, each
   * spanning just that character, and then `Eof` one past the end.
   */
  lemma {:induction false} PunctuatorsTokenize(input: string, p: nat)
    requires p <= |input|
    requires forall i :: p <= i < |input| ==> Punctuator(input[i]).Some?
    ensures Tokenize(input, p) == PunctuatorTokens(input, p) + [Token(Eof, "", Span(|input|, |input| + 1))]
    decreases |input| - p
  {
    if p == |input| {
      EndIsEof(input, p);
    } else {
      ScanPunctuator(input, p);
      PunctuatorsTokenize(input, p + 1);
      var eof := Token(Eof, "", Span(|input|, |input| + 1));
      assert Tokenize(input, p) == [PunctuatorToken(input, p)] + (PunctuatorTokens(input, p + 1) + [eof]);
    }
  }

  /** The token stream ends with its only `Eof`. */
  lemma {:induction false} TokenizeEndsWithEof(input: string, p: nat)
    ensures var ts := Tokenize(input, p);
      ts[|ts| - 1].kind == Eof && forall k :: 0 <= k < |ts| - 1 ==> ts[k].kind != Eof
    decreases |input| + 1 - p
  {
    var (t, next) := Scan(input, p);
    if t.kind != Eof {
      TokenizeEndsWithEof(input, next);
      var rest := Tokenize(input, next);
      var ts := Tokenize(input, p);
      assert ts == [t] + rest;
      assert forall k :: 0 < k < |ts| ==> ts[k] == rest[k - 1];
    }
  }

  /** The tokens start at strictly increasing positions, from where the cursor began on. */
  lemma {:induction false} TokenizeStartsIncrease(input: string, p: nat)
    ensures var ts := Tokenize(input, p);
      p <= ts[0].loc.start && forall k :: 0 <= k < |ts| - 1 ==> ts[k].loc.start < ts[k + 1].loc.start
    decreases |input| + 1 - p
  {
    var (t, next) := Scan(input, p);
    if t.kind != Eof {
      TokenizeStartsIncrease(input, next);
      var rest := Tokenize(input, next);
      var ts := Tokenize(input, p);
      assert ts == [t] + rest;
      assert forall k :: 0 < k < |ts| ==> ts[k] == rest[k - 1];
    }
  }
}
