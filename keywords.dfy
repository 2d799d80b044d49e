/**
 * The keywords of the assembler (the keyword half of the table in
 * src/lexer/token.rs): directives and mnemonics, each with its one
 * lower-case spelling. Directive words keep their `#` or `.` prefix.
 */
module Keywords {
  import opened Wrappers

  /** The directives: preprocessor ones spelt with `#`, assembler ones with `.`. */
  datatype Directive =
    | KwError | KwDefine | KwInclude | KwIfDef | KwIfNDef | KwElse | KwEndIf
    | KwSection | KwEntry | KwAscii | KwAsciz

  /** The instruction mnemonics, with `db` and `resb`. */
  datatype Mnemonic =
    | KwNop | KwMov | KwLdr | KwStr | KwPush | KwPop | KwAdd | KwSub | KwMul | KwDiv
    | KwAnd | KwOr | KwXor | KwShl | KwShr | KwCmp | KwJmp | KwJeq | KwJne | KwJlt
    | KwJgt | KwJle | KwJge | KwCall | KwRet | KwInc | KwDec | KwSyscall | KwHlt
    | KwDb | KwResb

  function DirectiveSpelling(d: Directive): string
  {
    match d
    case KwError => "#error"
    case KwDefine => "#define"
    case KwInclude => "#include"
    case KwIfDef => "#ifdef"
    case KwIfNDef => "#ifndef"
    case KwElse => "#else"
    case KwEndIf => "#endif"
    case KwSection => ".section"
    case KwEntry => ".entry"
    case KwAscii => ".ascii"
    case KwAsciz => ".asciz"
  }

  function MnemonicSpelling(m: Mnemonic): string
  {
    match m
    case KwNop => "nop"
    case KwMov => "mov"
    case KwLdr => "ldr"
    case KwStr => "str"
    case KwPush => "push"
    case KwPop => "pop"
    case KwAdd => "add"
    case KwSub => "sub"
    case KwMul => "mul"
    case KwDiv => "div"
    case KwAnd => "and"
    case KwOr => "or"
    case KwXor => "xor"
    case KwShl => "shl"
    case KwShr => "shr"
    case KwCmp => "cmp"
    case KwJmp => "jmp"
    case KwJeq => "jeq"
    case KwJne => "jne"
    case KwJlt => "jlt"
    case KwJgt => "jgt"
    case KwJle => "jle"
    case KwJge => "jge"
    case KwCall => "call"
    case KwRet => "ret"
    case KwInc => "inc"
    case KwDec => "dec"
    case KwSyscall => "syscall"
    case KwHlt => "hlt"
    case KwDb => "db"
    case KwResb => "resb"
  }

  /** The directive entries of the table. */
  function DirectiveNamed(w: string): Option<Directive>
  {
    match w
    case "#error" => Some(KwError)
    case "#define" => Some(KwDefine)
    case "#include" => Some(KwInclude)
    case "#ifdef" => Some(KwIfDef)
    case "#ifndef" => Some(KwIfNDef)
    case "#else" => Some(KwElse)
    case "#endif" => Some(KwEndIf)
    case ".section" => Some(KwSection)
    case ".entry" => Some(KwEntry)
    case ".ascii" => Some(KwAscii)
    case ".asciz" => Some(KwAsciz)
    case _ => None
  }

  /**
   * The mnemonic entries of the table. The source keeps the table in a hash
   * map; here the three-letter mnemonics are told apart letter by letter,
   * which finds the same entry.
   */
  function MnemonicNamed(w: string): Option<Mnemonic>
  {
    if |w| == 3 then ThreeLetter(w[0], w[1], w[2])
    else
      match w
      case "or" => Some(KwOr)
      case "db" => Some(KwDb)
      case "push" => Some(KwPush)
      case "call" => Some(KwCall)
      case "resb" => Some(KwResb)
      case "syscall" => Some(KwSyscall)
      case _ => None
  }

  function ThreeLetter(a: char, b: char, c: char): Option<Mnemonic>
  {
    match (a, b, c)
    case ('n', 'o', 'p') => Some(KwNop)
    case ('m', 'o', 'v') => Some(KwMov)
    case ('l', 'd', 'r') => Some(KwLdr)
    case ('s', 't', 'r') => Some(KwStr)
    case ('p', 'o', 'p') => Some(KwPop)
    case ('a', 'd', 'd') => Some(KwAdd)
    case ('s', 'u', 'b') => Some(KwSub)
    case ('m', 'u', 'l') => Some(KwMul)
    case ('d', 'i', 'v') => Some(KwDiv)
    case ('a', 'n', 'd') => Some(KwAnd)
    case ('x', 'o', 'r') => Some(KwXor)
    case ('s', 'h', 'l') => Some(KwShl)
    case ('s', 'h', 'r') => Some(KwShr)
    case ('c', 'm', 'p') => Some(KwCmp)
    case ('j', 'm', 'p') => Some(KwJmp)
    case ('j', 'e', 'q') => Some(KwJeq)
    case ('j', 'n', 'e') => Some(KwJne)
    case ('j', 'l', 't') => Some(KwJlt)
    case ('j', 'g', 't') => Some(KwJgt)
    case ('j', 'l', 'e') => Some(KwJle)
    case ('j', 'g', 'e') => Some(KwJge)
    case ('r', 'e', 't') => Some(KwRet)
    case ('i', 'n', 'c') => Some(KwInc)
    case ('d', 'e', 'c') => Some(KwDec)
    case ('h', 'l', 't') => Some(KwHlt)
    case _ => None
  }

  /** Every directive is in the table under its spelling, which starts with its prefix. */
  lemma DirectiveFound(d: Directive)
    ensures DirectiveNamed(DirectiveSpelling(d)) == Some(d)
    ensures var w := DirectiveSpelling(d); |w| > 0 && (w[0] == '#' || w[0] == '.')
  {
  }

  /** A directive entry is found only under its own spelling. */
  lemma DirectiveSpelt(w: string)
    requires DirectiveNamed(w).Some?
    ensures DirectiveSpelling(DirectiveNamed(w).value) == w
  {
  }

  /** Every mnemonic is in the table under its spelling. */
  lemma MnemonicFound(m: Mnemonic)
    ensures MnemonicNamed(MnemonicSpelling(m)) == Some(m)
  {
  }

  /** A mnemonic entry is found only under its own spelling. */
  lemma MnemonicSpelt(w: string)
    requires MnemonicNamed(w).Some?
    ensures MnemonicSpelling(MnemonicNamed(w).value) == w
  {
    if |w| == 3 {
      ThreeLetterSpelt(w[0], w[1], w[2]);
      assert w == [w[0], w[1], w[2]];
    }
  }

  lemma ThreeLetterSpelt(a: char, b: char, c: char)
    requires ThreeLetter(a, b, c).Some?
    ensures MnemonicSpelling(ThreeLetter(a, b, c).value) == [a, b, c]
  {
  }

  /** No word ending in a digit (a numbered register's name, say) is a mnemonic, nor one starting with a directive prefix. */
  lemma MnemonicShape(w: string)
    requires MnemonicNamed(w).Some?
    ensures |w| > 0 && 'a' <= w[0] <= 'z' && 'a' <= w[|w| - 1] <= 'z'
  {
  }
}
