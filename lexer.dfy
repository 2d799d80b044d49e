/**
 * The lexer (src/lexer/mod.rs): a cursor over the source characters that
 * cuts out one token per call.
 *
 * `Scan(input, p)` is what one call of `next_token` does when the cursor
 * stands at `p`: the token it returns and the position it leaves the
 * cursor at. The class `Lexer` below is the cursor itself, and each of its
 * methods is proved to do what the matching function describes.
 */
module Lexing {
  import opened Wrappers
  import opened Spans
  import opened Tokens

  /** `chars().nth(i).unwrap_or('\0')`: past the end the lexer sees NUL. */
  function CharAt(input: string, i: nat): char
  {
    if i < |input| then input[i] else '\0'
  }

  /** `char::is_whitespace`: the Unicode White_Space characters. */
  predicate IsWhitespace(c: char)
  {
    c == ' ' || ('\t' <= c <= '\r') || c == '\U{0085}' || c == '\U{00A0}' || c == '\U{1680}'
    || ('\U{2000}' <= c <= '\U{200A}') || c == '\U{2028}' || c == '\U{2029}' || c == '\U{202F}'
    || c == '\U{205F}' || c == '\U{3000}'
  }

  predicate IsDigit(c: char) { '0' <= c <= '9' }

  predicate IsHexDigit(c: char) { IsDigit(c) || 'a' <= c <= 'f' || 'A' <= c <= 'F' }

  /** `char::is_alphabetic`, for the ASCII letters. */
  predicate IsLetter(c: char) { 'a' <= c <= 'z' || 'A' <= c <= 'Z' }

  /** The characters a `while` loop of the lexer runs over. */
  datatype CharClass = Digits | HexDigits | BinDigits | OctDigits | WordChars | NotNewline

  predicate InClass(c: char, cl: CharClass)
  {
    match cl
    case Digits => IsDigit(c)
    case HexDigits => IsHexDigit(c)
    case BinDigits => c == '0' || c == '1'
    case OctDigits => '0' <= c <= '7'
    case WordChars => IsLetter(c) || IsDigit(c) || c == '_'
    case NotNewline => c != '\n' && c != '\0'
  }

  /** No class contains NUL, so every loop stops at the end of the input. */
  lemma NulInNoClass(cl: CharClass)
    ensures !InClass('\0', cl)
  {
  }

  /** `skip_whitespace`: the first position from `p` on that is not whitespace. */
  function SkipSpace(input: string, p: nat): (q: nat)
    ensures p <= q && !IsWhitespace(CharAt(input, q))
    ensures forall i :: p <= i < q ==> IsWhitespace(CharAt(input, i))
    ensures p <= |input| ==> q <= |input|
    decreases |input| - p
  {
    if IsWhitespace(CharAt(input, p)) then SkipSpace(input, p + 1) else p
  }

  /** A `while` loop over a character class: the first position from `p` on outside the class. */
  function ScanWhile(input: string, p: nat, cl: CharClass): (q: nat)
    ensures p <= q && !InClass(CharAt(input, q), cl)
    ensures forall i :: p <= i < q ==> InClass(CharAt(input, i), cl)
    ensures p <= |input| ==> q <= |input|
    decreases |input| - p
  {
    if InClass(CharAt(input, p), cl) then ScanWhile(input, p + 1, cl) else p
  }

  /** The single-character punctuators and their kinds. */
  function Punctuator(c: char): Option<TokenKind>
  {
    match c
    case ',' => Some(Comma)
    case ':' => Some(Colon)
    case '+' => Some(Plus)
    case '-' => Some(Minus)
    case '*' => Some(Asterisk)
    case '/' => Some(Slash)
    case '|' => Some(Pipe)
    case '&' => Some(Ampersand)
    case '^' => Some(Caret)
    case '(' => Some(LParen)
    case ')' => Some(RParen)
    case '[' => Some(LBracket)
    case ']' => Some(RBracket)
    case _ => None
  }

  /** The token for the word `input[start..end]`, its kind looked up in the keyword table. */
  function WordToken(input: string, start: nat, end: nat): Token
    requires start <= end <= |input|
  {
    Token(LookupIdent(input[start..end]), input[start..end], Span(start, end))
  }

  /** `read_identifier` and `read_directive`: a word runs from `start` over the word characters from `from` on. */
  function ScanWord(input: string, start: nat, from: nat): (r: (Token, nat))
    requires start <= from <= |input|
    ensures r.1 == ScanWhile(input, from, WordChars) && r.1 <= |input|
  {
    var e := ScanWhile(input, from, WordChars);
    (WordToken(input, start, e), e)
  }

  /** A prefixed literal (`0x`, `0b`, `0o`): the digits of the class after the two-character prefix. */
  function PrefixedNumber(input: string, start: nat, cl: CharClass, kind: TokenKind): (r: (Token, nat))
    requires start + 2 <= |input|
    ensures start + 2 <= r.1 <= |input|
  {
    var e := ScanWhile(input, start + 2, cl);
    (Token(kind, input[start..e], Span(start, e)), e)
  }

  /** `read_number`, from a digit at `start`. */
  function ScanNumber(input: string, start: nat): (r: (Token, nat))
    requires start < |input| && IsDigit(input[start])
    ensures start < r.1 <= |input|
  {
    var next := CharAt(input, start + 1);
    if input[start] == '0' && (next == 'x' || next == 'X') then PrefixedNumber(input, start, HexDigits, Hexadecimal)
    else if input[start] == '0' && (next == 'b' || next == 'B') then PrefixedNumber(input, start, BinDigits, Binary)
    else if input[start] == '0' && (next == 'o' || next == 'O') then PrefixedNumber(input, start, OctDigits, Octal)
    else
      var e := ScanWhile(input, start, Digits);
      if CharAt(input, e) == '.' && IsDigit(CharAt(input, e + 1)) then
        var f := ScanWhile(input, e + 1, Digits);
        (Token(Float, input[start..f], Span(start, f)), f)
      else
        (Token(Integer, input[start..e], Span(start, e)), e)
  }

  /** The character an escape sequence `\c` stands for: the two characters themselves when unknown. */
  function Unescape(c: char): string
  {
    match c
    case 'n' => "\n"
    case 'r' => "\r"
    case 't' => "\t"
    case '\\' => "\\"
    case '"' => "\""
    case _ => ['\\', c]
  }

  /**
   * The loop of `read_string` from position `i`: the decoded text up to
   * the closing quote or the end of the input, and the position where it
   * stopped. `escaped` says that the previous character was a backslash.
   */
  function StringBody(input: string, i: nat, escaped: bool): (r: (string, nat))
    ensures i <= r.1 && (CharAt(input, r.1) == '\0' || CharAt(input, r.1) == '"')
    ensures i <= |input| ==> r.1 <= |input|
    decreases |input| - i
  {
    var c := CharAt(input, i);
    if c == '\0' then ("", i)
    else if escaped then
      var rest := StringBody(input, i + 1, false);
      (Unescape(c) + rest.0, rest.1)
    else if c == '\\' then StringBody(input, i + 1, true)
    else if c == '"' then ("", i)
    else
      var rest := StringBody(input, i + 1, false);
      ([c] + rest.0, rest.1)
  }

  /**
   * `read_string`, from the opening quote at `start`: the span runs to just
   * past the stopping position, and the cursor moves past the closing quote
   * if there is one.
   */
  function ScanString(input: string, start: nat): (r: (Token, nat))
    ensures start < r.1
    ensures start < |input| ==> r.1 <= |input|
  {
    var (text, stop) := StringBody(input, start + 1, false);
    (Token(String, text, Span(start, stop + 1)), if CharAt(input, stop) == '"' then stop + 1 else stop)
  }

  /**
   * `next_token` with the cursor at `p`: the token, and where the cursor is
   * left. A comment is skipped to the end of its line and scanning starts
   * over from there.
   */
  function Scan(input: string, p: nat): (r: (Token, nat))
    ensures p <= r.0.loc.start < r.1
    ensures r.0.kind != Eof ==> r.1 <= |input|
    decreases |input| + 1 - p
  {
    var q := SkipSpace(input, p);
    var c := CharAt(input, q);
    if c == '\0' then (Token(Eof, "", Span(q, q + 1)), q + 1)
    else if Punctuator(c).Some? then (Token(Punctuator(c).value, [c], Span(q, q + 1)), q + 1)
    else if c == '#' || c == '.' then ScanWord(input, q, q + 1)
    else if c == '"' then ScanString(input, q)
    else if c == ';' then Scan(input, ScanWhile(input, q + 1, NotNewline))
    else if IsDigit(c) then ScanNumber(input, q)
    else if IsLetter(c) || c == '_' then ScanWord(input, q, q)
    else (Token(Illegal, [c], Span(q, q + 1)), q + 1)
  }

  /** The tokens from `p` on, up to and including the first `Eof`: what the iterator yields, then its end. */
  function Tokenize(input: string, p: nat): (ts: seq<Token>)
    ensures |ts| > 0
    decreases |input| + 1 - p
  {
    var (t, next) := Scan(input, p);
    if t.kind == Eof then [t] else [t] + Tokenize(input, next)
  }

  /** The cursor of `Lexer`: `ch` is the character at `pos`, and `readPos` is one past it. */
  class Lexer {
    const input: string
    var pos: nat
    var readPos: nat
    var ch: char

    ghost predicate Valid()
      reads this
    {
      readPos == pos + 1 && ch == CharAt(input, pos)
    }

    /** `Lexer::new`: the cursor is put on the first character. */
    constructor(input: string)
      ensures Valid() && this.input == input && pos == 0
    {
      this.input := input;
      pos := 0;
      readPos := 0;
      ch := '\0';
      new;
      ReadChar();
    }

    /** `read_char`: the cursor moves to `readPos`. */
    method ReadChar()
      modifies this
      ensures pos == old(readPos) && readPos == pos + 1 && ch == CharAt(input, pos)
    {
      ch := CharAt(input, readPos);
      pos := readPos;
      readPos := readPos + 1;
    }

    /** `peek_char`: the character after the cursor. */
    function PeekChar(): char
      reads this
    {
      CharAt(input, readPos)
    }

    /** One of the lexer's `while` loops: the cursor moves over the characters of the class. */
    method ReadWhile(cl: CharClass)
      requires Valid()
      modifies this
      ensures Valid() && pos == ScanWhile(input, old(pos), cl)
    {
      while InClass(ch, cl)
        invariant Valid() && ScanWhile(input, pos, cl) == ScanWhile(input, old(pos), cl)
        decreases |input| - pos
      {
        NulInNoClass(cl);
        ReadChar();
      }
    }

    /** `skip_whitespace`. */
    method SkipWhitespace()
      requires Valid()
      modifies this
      ensures Valid() && pos == SkipSpace(input, old(pos))
    {
      while IsWhitespace(ch)
        invariant Valid() && SkipSpace(input, pos) == SkipSpace(input, old(pos))
        decreases |input| - pos
      {
        ReadChar();
      }
    }

    /**
     * `read_number`. The source writes the decimal case twice (for a
     * leading `0` not followed by a prefix letter, and for other digits);
     * both copies are the same and appear here once.
     */
    method ReadNumber() returns (t: Token)
      requires Valid() && pos < |input| && IsDigit(ch)
      modifies this
      ensures Valid() && (t, pos) == ScanNumber(input, old(pos))
    {
      var next := PeekChar();
      if ch == '0' && (next == 'x' || next == 'X') {
        t := ReadPrefixed(HexDigits, Hexadecimal);
      } else if ch == '0' && (next == 'b' || next == 'B') {
        t := ReadPrefixed(BinDigits, Binary);
      } else if ch == '0' && (next == 'o' || next == 'O') {
        t := ReadPrefixed(OctDigits, Octal);
      } else {
        var start := pos;
        ReadWhile(Digits);
        if ch == '.' && IsDigit(PeekChar()) {
          ReadChar();
          ReadWhile(Digits);
          t := Token(Float, input[start..pos], Span(start, pos));
        } else {
          t := Token(Integer, input[start..pos], Span(start, pos));
        }
      }
    }

    /** The three prefixed branches of `read_number`: past the prefix, then over the digits of the class. */
    method ReadPrefixed(cl: CharClass, kind: TokenKind) returns (t: Token)
      requires Valid() && pos + 2 <= |input|
      modifies this
      ensures Valid() && (t, pos) == PrefixedNumber(input, old(pos), cl, kind)
    {
      var start := pos;
      ReadChar();
      ReadChar();
      ReadWhile(cl);
      t := Token(kind, input[start..pos], Span(start, pos));
    }

    /** `read_identifier`. */
    method ReadIdentifier() returns (t: Token)
      requires Valid() && pos <= |input|
      modifies this
      ensures Valid() && (t, pos) == ScanWord(input, old(pos), old(pos))
    {
      var start := pos;
      ReadWhile(WordChars);
      t := Token(LookupIdent(input[start..pos]), input[start..pos], Span(start, pos));
    }

    /** `read_directive`: the prefix character, then the word characters. */
    method ReadDirective() returns (t: Token)
      requires Valid() && pos < |input|
      modifies this
      ensures Valid() && (t, pos) == ScanWord(input, old(pos), old(pos) + 1)
    {
      var start := pos;
      ReadChar();
      ReadWhile(WordChars);
      t := Token(LookupIdent(input[start..pos]), input[start..pos], Span(start, pos));
    }

    /** `read_string`. */
    method ReadString() returns (t: Token)
      requires Valid()
      modifies this
      ensures Valid() && (t, pos) == ScanString(input, old(pos))
    {
      var start := pos;
      ReadChar();
      var result := "";
      var escaped := false;
      while true
        invariant Valid() && start < pos
        invariant result + StringBody(input, pos, escaped).0 == StringBody(input, start + 1, false).0
        invariant StringBody(input, pos, escaped).1 == StringBody(input, start + 1, false).1
        decreases |input| - pos
      {
        if ch == '\0' {
          break;
        }
        if escaped {
          result := result + Unescape(ch);
          escaped := false;
        } else if ch == '\\' {
          escaped := true;
        } else if ch == '"' {
          break;
        } else {
          result := result + [ch];
        }
        ReadChar();
      }
      assert StringBody(input, pos, escaped) == ("", pos);
      assert result + "" == result;
      var end := readPos;
      if ch == '"' {
        ReadChar();
      }
      t := Token(String, result, Span(start, end));
    }

    /** `next_token`. */
    method NextToken() returns (t: Token)
      requires Valid()
      modifies this
      ensures Valid() && (t, pos) == Scan(input, old(pos))
      decreases |input| + 1 - pos, 1
    {
      SkipWhitespace();
      var start := pos;
      if ch == '\0' {
        t := Token(Eof, "", Span(start, readPos));
        ReadChar();
      } else if Punctuator(ch).Some? {
        t := Token(Punctuator(ch).value, [ch], Span(start, readPos));
        ReadChar();
      } else if ch == '#' || ch == '.' {
        t := ReadDirective();
      } else if ch == '"' {
        t := ReadString();
      } else if ch == ';' {
        t := SkipComment();
      } else if IsDigit(ch) {
        t := ReadNumber();
      } else if IsLetter(ch) || ch == '_' {
        t := ReadIdentifier();
      } else {
        t := Token(Illegal, [ch], Span(start, readPos));
        ReadChar();
      }
    }

    /** `skip_comment`: past the `;` to the end of the line, then the next token. */
    method SkipComment() returns (t: Token)
      requires Valid() && pos < |input|
      modifies this
      ensures Valid() && (t, pos) == Scan(input, ScanWhile(input, old(pos) + 1, NotNewline))
      decreases |input| + 1 - pos, 0
    {
      ReadChar();
      ReadWhile(NotNewline);
      t := NextToken();
    }

    /** `Iterator::next`: the next token, or `None` once the input is used up. */
    method Next() returns (r: Option<Token>)
      requires Valid()
      modifies this
      ensures Valid() && pos == Scan(input, old(pos)).1
      ensures r == (if Scan(input, old(pos)).0.kind == Eof then None else Some(Scan(input, old(pos)).0))
    {
      var t := NextToken();
      if t.kind == Eof {
        return None;
      }
      r := Some(t);
    }
  }
}
