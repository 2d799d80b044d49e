/**
 * The assembler (src/compiler/mod.rs): one pass over the statements that
 * appends each statement's bytes to the current section and records
 * labels and fixups, a pass that patches every fixup with the address of
 * its label, and the output layout: the entry address, then the text
 * section, then the data section.
 */
module Compiler {
  import opened Wrappers
  import opened Bits
  import opened Immediates
  import opened Registers
  import opened Machine
  import opened Encoding
  import opened Ast
  import opened Lowering
  import Opcodes
  import Bytecode

  /** A section and an offset inside it: where a label points and where a fixup writes. */
  type Place = (Bytecode.Section, nat)

  /** A fixup: the width to write and the label whose address goes there. */
  datatype Fixup = Fixup(size: DataSize, target: string)

  /** `Entry`: a fixed address, or a label resolved after the first pass. */
  datatype EntryPoint = EntryAddress(addr: u64) | EntryLabel(target: string)

  /** Everything the first pass builds: the two sections, the labels, the fixups, the current section and the entry. */
  datatype AsmState = AsmState(
    text: seq<byte>,
    data: seq<byte>,
    labels: map<string, Place>,
    fixups: map<Place, Fixup>,
    section: Bytecode.Section,
    entry: EntryPoint)

  /** `Compiler::new`: empty sections, no labels or fixups, text current, entry address 0. */
  function Initial(): AsmState
  {
    AsmState([], [], map[], map[], Bytecode.Text, EntryAddress(0))
  }

  function Sec(text: seq<byte>, data: seq<byte>, sec: Bytecode.Section): seq<byte>
  {
    if sec == Bytecode.Text then text else data
  }

  function SectionBytes(st: AsmState, sec: Bytecode.Section): seq<byte>
  {
    Sec(st.text, st.data, sec)
  }

  function Current(st: AsmState): seq<byte>
  {
    SectionBytes(st, st.section)
  }

  /** Bytes appended to the current section; nothing else changes. */
  function Append(st: AsmState, bs: seq<byte>): AsmState
  {
    if st.section == Bytecode.Text then st.(text := st.text + bs) else st.(data := st.data + bs)
  }

  /**
   * An instruction's bytes appended to the current section; a hole in them
   * becomes a fixup keyed by its offset in the section (the offset the
   * source reads with `len` just before it extends the placeholder).
   */
  function Emit(st: AsmState, l: Lowered): AsmState
  {
    var next := Append(st, Encode(l.instr));
    match l.hole
    case None => next
    case Some(h) => next.(fixups := st.fixups[(st.section, |Current(st)| + h.at) := Fixup(h.size, h.target)])
  }

  /** What an instruction statement compiles to; `None` for the directives. */
  function Instruction(stmt: Statement): (r: Option<Result<Lowered, CompileError>>)
    ensures r.Some? ==> !stmt.Label? && !stmt.Entry?
  {
    match stmt
    case Nop(_) => Some(Ok(Lowered(INop, None)))
    case Mov(d, s, _) => Some(LowerMov(d, s))
    case Ldr(r, a, _) => Some(LowerLoadStore(r, a, true))
    case Str(r, a, _) => Some(LowerLoadStore(r, a, false))
    case Push(size, e, _) => Some(LowerPush(size, e))
    case Pop(size, e, _) => Some(LowerPop(size, e))
    case Add(d, l, r, _) => Some(LowerArith(Opcodes.Add, d, l, r))
    case Sub(d, l, r, _) => Some(LowerArith(Opcodes.Sub, d, l, r))
    case Mul(d, l, r, _) => Some(LowerArith(Opcodes.Mul, d, l, r))
    case Div(d, l, r, _) => Some(LowerArith(Opcodes.Div, d, l, r))
    case And(d, l, r, _) => Some(LowerBitwise(Logic(Opcodes.And), d, l, r))
    case Or(d, l, r, _) => Some(LowerBitwise(Logic(Opcodes.Or), d, l, r))
    case Xor(d, l, r, _) => Some(LowerBitwise(Logic(Opcodes.Xor), d, l, r))
    case Shl(d, l, r, _) => Some(LowerBitwise(ShiftBy(Opcodes.Shl), d, l, r))
    case Shr(d, l, r, _) => Some(LowerBitwise(ShiftBy(Opcodes.Shr), d, l, r))
    case Cmp(l, r, _) => Some(LowerCmp(l, r))
    case Jmp(e, _) => Some(LowerJump(Opcodes.Always, "JMP", e))
    case Jeq(e, _) => Some(LowerJump(Opcodes.IfEq, "JEQ", e))
    case Jne(e, _) => Some(LowerJump(Opcodes.IfNe, "JNE", e))
    case Jlt(e, _) => Some(LowerJump(Opcodes.IfLt, "JLT", e))
    case Jgt(e, _) => Some(LowerJump(Opcodes.IfGt, "JGT", e))
    case Jle(e, _) => Some(LowerJump(Opcodes.IfLe, "JLE", e))
    case Jge(e, _) => Some(LowerJump(Opcodes.IfGe, "JGE", e))
    case Call(e, _) => Some(LowerCall(e))
    case Ret(_) => Some(Ok(Lowered(IRet, None)))
    case Inc(e, _) => Some(LowerIncDec(e, true))
    case Dec(e, _) => Some(LowerIncDec(e, false))
    case Syscall(_) => Some(Ok(Lowered(ISyscall, None)))
    case Hlt(_) => Some(Ok(Lowered(IHlt, None)))
    case _ => None
  }

  /** Everything an instruction statement can emit is decodable and has a well-placed hole. */
  lemma InstructionSound(stmt: Statement)
    requires Instruction(stmt).Some? && Instruction(stmt).value.Ok?
    ensures Sound(Instruction(stmt).value.value)
  {
  }

  // ---- strings and `db`

  /** The UTF-8 bytes of one character (`str::bytes`). */
  function Utf8Char(c: char): (bs: seq<byte>)
    ensures 1 <= |bs| <= 4
    ensures |bs| == 1 <==> (c as int) < 0x80
  {
    var n := c as int;
    if n < 0x80 then [n]
    else if n < 0x800 then [0xC0 + n / 0x40, 0x80 + n % 0x40]
    else if n < 0x1_0000 then [0xE0 + n / 0x1000, 0x80 + n / 0x40 % 0x40, 0x80 + n % 0x40]
    else [0xF0 + n / 0x4_0000, 0x80 + n / 0x1000 % 0x40, 0x80 + n / 0x40 % 0x40, 0x80 + n % 0x40]
  }

  /** The code point a well-formed UTF-8 sequence of one to four bytes spells. */
  function CodePoint(bs: seq<byte>): int
    requires 1 <= |bs| <= 4
  {
    var b := seq(|bs|, i requires 0 <= i < |bs| => bs[i] as int);
    if |bs| == 1 then b[0]
    else if |bs| == 2 then (b[0] - 0xC0) * 0x40 + (b[1] - 0x80)
    else if |bs| == 3 then ((b[0] - 0xE0) * 0x40 + (b[1] - 0x80)) * 0x40 + (b[2] - 0x80)
    else (((b[0] - 0xF0) * 0x40 + (b[1] - 0x80)) * 0x40 + (b[2] - 0x80)) * 0x40 + (b[3] - 0x80)
  }

  /** Decoding a character's UTF-8 bytes gives the character back, and the first byte tells the length. */
  lemma Utf8CharRoundTrip(c: char)
    ensures CodePoint(Utf8Char(c)) == c as int
    ensures var b := Utf8Char(c)[0];
      && (b < 0x80 <==> |Utf8Char(c)| == 1)
      && (0xC0 <= b < 0xE0 <==> |Utf8Char(c)| == 2)
      && (0xE0 <= b < 0xF0 <==> |Utf8Char(c)| == 3)
      && (0xF0 <= b <==> |Utf8Char(c)| == 4)
  {
    var n := c as int;
    if n >= 0x1_0000 {
      var q := n / 0x40;
      var q2 := q / 0x40;
      assert n == q * 0x40 + n % 0x40;
      assert q == q2 * 0x40 + q % 0x40;
      assert q2 == (q2 / 0x40) * 0x40 + q2 % 0x40;
      assert n / 0x1000 == q2 by { DivDiv(n, 0x40, 0x40); }
      assert n / 0x4_0000 == q2 / 0x40 by { DivDiv(n, 0x1000, 0x40); DivDiv(n, 0x40, 0x40); }
    } else if n >= 0x800 {
      var q := n / 0x40;
      assert n == q * 0x40 + n % 0x40;
      assert q == (q / 0x40) * 0x40 + q % 0x40;
      assert n / 0x1000 == q / 0x40 by { DivDiv(n, 0x40, 0x40); }
    }
  }

  /** Dividing twice is dividing by the product. */
  lemma DivDiv(n: nat, a: nat, b: nat)
    requires a > 0 && b > 0
    ensures n / a / b == n / (a * b)
  {
    var q := n / a / b;
    var r := n / a % b;
    assert n / a == q * b + r;
    assert n == (q * b + r) * a + n % a;
    assert n == q * (a * b) + (r * a + n % a);
    assert r * a + n % a < a * b by {
      assert r * a <= (b - 1) * a;
    }
    DivModUnique(n, a * b, q, r * a + n % a);
  }

  /** A string's UTF-8 bytes, character by character. */
  function Utf8(s: string): seq<byte>
  {
    if s == [] then [] else Utf8Char(s[0]) + Utf8(s[1..])
  }

  /** The bytes of a concatenation are the concatenation of the bytes. */
  lemma {:induction false} Utf8Concat(s: string, t: string)
    ensures Utf8(s + t) == Utf8(s) + Utf8(t)
  {
    if s == [] {
      assert s + t == t;
    } else {
      assert (s + t)[0] == s[0];
      assert (s + t)[1..] == s[1..] + t;
      Utf8Concat(s[1..], t);
      calc {
        Utf8(s + t);
        Utf8Char(s[0]) + Utf8(s[1..] + t);
        Utf8Char(s[0]) + (Utf8(s[1..]) + Utf8(t));
      }
    }
  }

  /** An ASCII string is one byte per character, the character's code. */
  lemma {:induction false} AsciiBytes(s: string)
    requires forall i :: 0 <= i < |s| ==> (s[i] as int) < 0x80
    ensures |Utf8(s)| == |s|
    ensures forall i :: 0 <= i < |s| ==> Utf8(s)[i] == s[i] as int
  {
    if s != [] {
      AsciiBytes(s[1..]);
    }
  }

  /** One `db` value: an integer's low byte (`as u8`) or a string's bytes. */
  function DbItem(e: Expression): Result<seq<byte>, CompileError>
  {
    match e
    case IntegerLiteral(v) => Ok([v % 0x100])
    case StringLiteral(s) => Ok(Utf8(s))
    case _ => Err(InvalidExpression("DB"))
  }

  /** The bytes of a `db` list, or the error of its first value that is neither. */
  function DbBytes(values: seq<Expression>): Result<seq<byte>, CompileError>
  {
    if values == [] then Ok([])
    else
      var init :- DbBytes(values[..|values| - 1]);
      var last :- DbItem(values[|values| - 1]);
      Ok(init + last)
  }

  /** `integer as u8` is the low byte of the integer's two's-complement bits. */
  lemma DbIntegerByte(v: i64)
    ensures DbItem(IntegerLiteral(v)) == Ok([Truncate(I64Bits(v), 1)])
  {
    TruncatedBits(v, 1);
  }

  /** Once a prefix of a `db` list fails, the whole list fails with the same error. */
  lemma {:induction false} DbPrefixError(values: seq<Expression>, i: nat)
    requires i <= |values| && DbBytes(values[..i]).Err?
    ensures DbBytes(values) == DbBytes(values[..i])
    decreases |values| - i
  {
    if i < |values| {
      assert values[..i + 1][..i] == values[..i];
      DbPrefixError(values, i + 1);
    } else {
      assert values[..i] == values;
    }
  }

  // ---- the first pass

  /** One statement of the first pass, as `compile`'s loop body does it. */
  function Advance(st: AsmState, stmt: Statement): Result<AsmState, CompileError>
  {
    match Instruction(stmt)
    case Some(lowered) =>
      var l :- lowered;
      Ok(Emit(st, l))
    case None => Directive(st, stmt)
  }

  /** The statements that are not instructions. */
  function Directive(st: AsmState, stmt: Statement): Result<AsmState, CompileError>
  {
    if stmt.Section? then Ok(SectionStep(st, stmt.sectionType))
    else if stmt.Entry? then EntryStep(st, stmt.target)
    else if stmt.Ascii? || stmt.Asciz? then StringStep(st, stmt.text, stmt.Asciz?)
    else if stmt.Label? then Ok(LabelStep(st, stmt.name))
    else if stmt.Db? then DbStep(st, stmt.values)
    else if stmt.Resb? then ResbStep(st, stmt.count)
    else Err(UnsupportedOperation(stmt))
  }

  function SectionStep(st: AsmState, t: SectionType): AsmState
  {
    st.(section := if t == SectionType.Text then Bytecode.Text else Bytecode.Data)
  }

  /** `.entry`: an integer (its two's-complement bits) or a label. */
  function EntryStep(st: AsmState, e: Expression): Result<AsmState, CompileError>
  {
    if e.IntegerLiteral? then Ok(st.(entry := EntryAddress(I64Bits(e.value))))
    else if e.Identifier? then Ok(st.(entry := EntryLabel(e.name)))
    else Err(InvalidOperands(".ENTRY"))
  }

  /** `.ascii` and `.asciz` (which adds a zero byte); both report a bad operand as `.ENTRY`'s. */
  function StringStep(st: AsmState, e: Expression, terminated: bool): Result<AsmState, CompileError>
  {
    if !e.StringLiteral? then Err(InvalidOperands(".ENTRY"))
    else if terminated then Ok(Append(st, Utf8(e.chars) + [0]))
    else Ok(Append(st, Utf8(e.chars)))
  }

  /** A label points at the current offset of the current section; a later definition replaces an earlier one. */
  function LabelStep(st: AsmState, name: string): AsmState
  {
    st.(labels := st.labels[name := (st.section, |Current(st)|)])
  }

  function DbStep(st: AsmState, values: seq<Expression>): Result<AsmState, CompileError>
  {
    var bs :- DbBytes(values);
    Ok(Append(st, bs))
  }

  /** `resb n`: n zero bytes; a negative count makes the allocation fail. */
  function ResbStep(st: AsmState, e: Expression): Result<AsmState, CompileError>
  {
    if !e.IntegerLiteral? then Err(InvalidExpression("RESB"))
    else if e.value < 0 then Err(CapacityOverflow)
    else Ok(Append(st, seq(e.value, _ => 0)))
  }

  /** A method's outcome `r` and new state `now` are those of the step `want`. */
  predicate Reflects(r: Result<(), CompileError>, want: Result<AsmState, CompileError>, now: AsmState)
  {
    && (r.Ok? <==> want.Ok?)
    && (want.Ok? ==> now == want.value)
    && (want.Err? ==> r == Err(want.error))
  }

  /** The first pass over a list of statements, stopping at the first error. */
  function Assemble(st: AsmState, stmts: seq<Statement>): Result<AsmState, CompileError>
    decreases |stmts|
  {
    if stmts == [] then Ok(st)
    else
      var next :- Advance(st, stmts[0]);
      Assemble(next, stmts[1..])
  }

  // ---- where labels point and where fixups write

  /** `absolute_pos`: a text offset as is, a data offset after the whole text section. */
  function Address(st: AsmState, p: Place): nat
  {
    if p.0 == Bytecode.Text then p.1 else |st.text| + p.1
  }

  /** The error the fixup pass raises for a fixup: an undefined label first, then a float width. */
  function FixupError(st: AsmState, f: Fixup): Option<CompileError>
  {
    if f.target !in st.labels then Some(UndefinedLabel(f.target))
    else if !f.size.IsInteger() then Some(InvalidDataSize("FIXUP"))
    else None
  }

  predicate Resolves(st: AsmState)
  {
    forall k :: k in st.fixups ==> FixupError(st, st.fixups[k]).None?
  }

  function FixupWidth(st: AsmState, k: Place): nat
    requires k in st.fixups
  {
    SizeInBytes(st.fixups[k].size)
  }

  /** The address a resolvable fixup writes. */
  function FixupValue(st: AsmState, k: Place): nat
    requires k in st.fixups && FixupError(st, st.fixups[k]).None?
  {
    Address(st, st.labels[st.fixups[k].target])
  }

  /** Byte `i` of section `sec` lies in the place fixup `k` writes. */
  predicate InHole(st: AsmState, k: Place, sec: Bytecode.Section, i: int)
  {
    k in st.fixups && k.0 == sec && k.1 <= i < k.1 + FixupWidth(st, k)
  }

  /** Every fixup's place lies inside its section, and no two places overlap. */
  predicate Placed(st: AsmState)
  {
    && (forall k :: k in st.fixups ==> k.1 + FixupWidth(st, k) <= |SectionBytes(st, k.0)|)
    && (forall k1, k2 :: k1 in st.fixups && k2 in st.fixups && k1 != k2 && k1.0 == k2.0 ==>
          k1.1 + FixupWidth(st, k1) <= k2.1 || k2.1 + FixupWidth(st, k2) <= k1.1)
  }

  predicate Covered(st: AsmState, done: set<Place>, sec: Bytecode.Section, i: int)
  {
    exists k: Place :: k in done && InHole(st, k, sec, i)
  }

  /**
   * `text` and `data` are the sections of `st` with the fixups in `done`
   * written: each one's place holds its label's address, truncated to its
   * width, little-endian; every byte outside those places is unchanged.
   */
  predicate Patched(st: AsmState, done: set<Place>, text: seq<byte>, data: seq<byte>)
  {
    && |text| == |st.text| && |data| == |st.data|
    && (forall k: Place :: k in done ==>
          && k in st.fixups && FixupError(st, st.fixups[k]).None?
          && k.1 + FixupWidth(st, k) <= |Sec(text, data, k.0)|
          && Sec(text, data, k.0)[k.1..k.1 + FixupWidth(st, k)]
             == LittleEndian(Truncate(FixupValue(st, k), FixupWidth(st, k)), FixupWidth(st, k)))
    && (forall sec, i :: 0 <= i < |SectionBytes(st, sec)| && !Covered(st, done, sec, i) ==>
          Sec(text, data, sec)[i] == SectionBytes(st, sec)[i])
  }

  /** The entry's error: an entry label that was never defined. */
  function EntryError(st: AsmState): Option<CompileError>
  {
    match st.entry
    case EntryAddress(_) => None
    case EntryLabel(name) => if name in st.labels then None else Some(UndefinedLabel(name))
  }

  /** The entry address written at the head of the output. */
  function EntryValue(st: AsmState): u64
    requires EntryError(st).None?
  {
    Pow256Values();
    match st.entry
    case EntryAddress(a) => a
    case EntryLabel(name) => Truncate(Address(st, st.labels[name]), 8)
  }

  /**
   * The output of the fixup pass and the layout, given the first pass's
   * state: success exactly when every fixup and the entry resolve, and
   * then eight bytes of entry address, the patched text and the patched
   * data; otherwise the error of one fixup (the map's order decides
   * which) or of the entry.
   */
  predicate CompiledFrom(st: AsmState, out: Result<seq<byte>, CompileError>)
  {
    && (out.Ok? <==> Resolves(st) && EntryError(st).None?)
    && (out.Ok? && Resolves(st) && EntryError(st).None? ==>
          && |out.value| == 8 + |st.text| + |st.data|
          && out.value[..8] == LittleEndian(EntryValue(st), 8)
          && Patched(st, st.fixups.Keys, out.value[8..8 + |st.text|], out.value[8 + |st.text|..]))
    && (out.Err? ==>
          || (exists k :: k in st.fixups && FixupError(st, st.fixups[k]) == Some(out.error))
          || (Resolves(st) && EntryError(st) == Some(out.error)))
  }

  // ---- what the first pass keeps

  /** Appending keeps every fixup's place inside its section and apart from the others. */
  lemma AppendKeepsPlaced(st: AsmState, bs: seq<byte>)
    requires Placed(st)
    ensures Placed(Append(st, bs))
  {
    var next := Append(st, bs);
    forall k: Place | k in next.fixups
      ensures k.1 + FixupWidth(next, k) <= |SectionBytes(next, k.0)|
    {
      assert |SectionBytes(st, k.0)| <= |SectionBytes(next, k.0)|;
    }
  }

  /** An emitted hole lies past every earlier fixup of its section. */
  lemma EmitKeepsPlaced(st: AsmState, l: Lowered)
    requires Placed(st) && Sound(l)
    ensures Placed(Emit(st, l))
  {
    var bs := Encode(l.instr);
    if l.hole.Some? {
      var h := l.hole.value;
      HoleInside(l);
      AppendHoleKeepsPlaced(st, bs, h.at, Fixup(h.size, h.target));
    } else {
      AppendKeepsPlaced(st, bs);
    }
  }

  /** Bytes appended with a fixup inside them keep the fixups placed. */
  lemma AppendHoleKeepsPlaced(st: AsmState, bs: seq<byte>, at: nat, f: Fixup)
    requires Placed(st) && at + SizeInBytes(f.size) <= |bs|
    ensures Placed(Append(st, bs).(fixups := st.fixups[(st.section, |Current(st)| + at) := f]))
  {
    var next := Append(st, bs);
    AppendKeepsPlaced(st, bs);
    assert |SectionBytes(next, st.section)| == |Current(st)| + |bs|;
    forall k: Place | k in next.fixups && k.0 == st.section
      ensures k.1 + FixupWidth(next, k) <= |Current(st)|
    {
      assert FixupWidth(next, k) == FixupWidth(st, k);
    }
    AddKeepsPlaced(next, (st.section, |Current(st)| + at), f, |Current(st)|);
  }

  /** A fixup added past the end of every earlier one of its section, and inside the section. */
  lemma AddKeepsPlaced(st: AsmState, kn: Place, f: Fixup, end: nat)
    requires Placed(st)
    requires forall k :: k in st.fixups && k.0 == kn.0 ==> k.1 + FixupWidth(st, k) <= end
    requires end <= kn.1 && kn.1 + SizeInBytes(f.size) <= |SectionBytes(st, kn.0)|
    ensures Placed(st.(fixups := st.fixups[kn := f]))
  {
    var next := st.(fixups := st.fixups[kn := f]);
    assert kn !in st.fixups;
    forall k: Place | k in next.fixups
      ensures k.1 + FixupWidth(next, k) <= |SectionBytes(next, k.0)|
    {
      if k != kn {
        assert next.fixups[k] == st.fixups[k];
      }
    }
    forall k1: Place, k2: Place | k1 in next.fixups && k2 in next.fixups && k1 != k2 && k1.0 == k2.0
      ensures k1.1 + FixupWidth(next, k1) <= k2.1 || k2.1 + FixupWidth(next, k2) <= k1.1
    {
      if k1 == kn {
        assert k2.1 + FixupWidth(st, k2) <= end;
      } else if k2 == kn {
        assert k1.1 + FixupWidth(st, k1) <= end;
      } else {
        assert next.fixups[k1] == st.fixups[k1] && next.fixups[k2] == st.fixups[k2];
      }
    }
  }

  /** Every statement keeps the fixups placed. */
  lemma StepKeepsPlaced(st: AsmState, stmt: Statement)
    requires Placed(st) && Advance(st, stmt).Ok?
    ensures Placed(Advance(st, stmt).value)
  {
    if Instruction(stmt).Some? {
      InstructionSound(stmt);
      EmitKeepsPlaced(st, Instruction(stmt).value.value);
    } else {
      DirectiveKeepsPlaced(st, stmt);
    }
  }

  lemma DirectiveKeepsPlaced(st: AsmState, stmt: Statement)
    requires Placed(st) && Directive(st, stmt).Ok?
    ensures Placed(Directive(st, stmt).value)
  {
    if stmt.Ascii? || stmt.Asciz? {
      var e := stmt.text;
      if stmt.Asciz? {
        AppendKeepsPlaced(st, Utf8(e.chars) + [0]);
      } else {
        AppendKeepsPlaced(st, Utf8(e.chars));
      }
    } else if stmt.Db? {
      AppendKeepsPlaced(st, DbBytes(stmt.values).value);
    } else if stmt.Resb? {
      AppendKeepsPlaced(st, seq(stmt.count.value, _ => 0));
    }
  }

  /**
   * From an empty start, every fixup the first pass records lies inside
   * its section and no two overlap, so the fixup pass can write them all
   * in any order.
   */
  lemma {:induction false} AssembleKeepsPlaced(st: AsmState, stmts: seq<Statement>)
    requires Placed(st) && Assemble(st, stmts).Ok?
    ensures Placed(Assemble(st, stmts).value)
    decreases |stmts|
  {
    if stmts != [] {
      StepKeepsPlaced(st, stmts[0]);
      AssembleKeepsPlaced(Advance(st, stmts[0]).value, stmts[1..]);
    }
  }

  /** Some statement of the list is `name:`. */
  predicate Defines(stmts: seq<Statement>, name: string)
  {
    exists i :: 0 <= i < |stmts| && stmts[i].Label? && stmts[i].name == name
  }

  /** Only a label statement adds a label. */
  lemma StepLabels(st: AsmState, stmt: Statement, name: string)
    requires Advance(st, stmt).Ok?
    ensures name in Advance(st, stmt).value.labels <==> name in st.labels || (stmt.Label? && stmt.name == name)
  {
    var lowered := Instruction(stmt);
    if lowered.None? {
      DirectiveLabels(st, stmt, name);
    } else {
      assert Advance(st, stmt) == Ok(Emit(st, lowered.value.value));
    }
  }

  lemma DirectiveLabels(st: AsmState, stmt: Statement, name: string)
    requires Directive(st, stmt).Ok?
    ensures name in Directive(st, stmt).value.labels <==> name in st.labels || (stmt.Label? && stmt.name == name)
  {
  }

  /**
   * A name is a label after the first pass exactly when it was one before
   * or some statement defines it: an `UndefinedLabel` error means no
   * statement does.
   */
  lemma {:induction false} AssembleLabels(st: AsmState, stmts: seq<Statement>, name: string)
    requires Assemble(st, stmts).Ok?
    ensures name in Assemble(st, stmts).value.labels <==> name in st.labels || Defines(stmts, name)
    decreases |stmts|
  {
    if stmts != [] {
      var next := Advance(st, stmts[0]).value;
      StepLabels(st, stmts[0], name);
      AssembleLabels(next, stmts[1..], name);
      if Defines(stmts[1..], name) {
        var i :| 0 <= i < |stmts[1..]| && stmts[1..][i].Label? && stmts[1..][i].name == name;
        assert stmts[i + 1] == stmts[1..][i];
      }
      if Defines(stmts, name) && !(stmts[0].Label? && stmts[0].name == name) {
        var i :| 0 <= i < |stmts| && stmts[i].Label? && stmts[i].name == name;
        assert stmts[1..][i - 1] == stmts[i];
      }
    }
  }

  /** Without an `.entry` statement the entry is never changed. */
  lemma {:induction false} AssembleKeepsEntry(st: AsmState, stmts: seq<Statement>)
    requires Assemble(st, stmts).Ok?
    requires forall i :: 0 <= i < |stmts| ==> !stmts[i].Entry?
    ensures Assemble(st, stmts).value.entry == st.entry
    decreases |stmts|
  {
    if stmts != [] {
      assert !stmts[0].Entry?;
      var next := Advance(st, stmts[0]).value;
      assert next.entry == st.entry by {
        if Instruction(stmts[0]).None? {
          match stmts[0]
          case Db(values, _) =>
          case _ =>
        }
      }
      assert forall i :: 0 <= i < |stmts[1..]| ==> stmts[1..][i] == stmts[i + 1];
      AssembleKeepsEntry(next, stmts[1..]);
    }
  }

  /** A program without `.entry` starts at address 0. */
  lemma DefaultEntry(stmts: seq<Statement>)
    requires Assemble(Initial(), stmts).Ok?
    requires forall i :: 0 <= i < |stmts| ==> !stmts[i].Entry?
    ensures EntryError(Assemble(Initial(), stmts).value).None?
    ensures EntryValue(Assemble(Initial(), stmts).value) == 0
  {
    AssembleKeepsEntry(Initial(), stmts);
  }

  // ---- the fixup pass

  /** Before the fixup pass nothing is patched. */
  lemma PatchedNone(st: AsmState)
    ensures Patched(st, {}, st.text, st.data)
  {
    forall sec, i | 0 <= i < |SectionBytes(st, sec)|
      ensures Sec(st.text, st.data, sec)[i] == SectionBytes(st, sec)[i]
    {
    }
  }

  /** Once every fixup is patched, every fixup resolves. */
  lemma PatchedAll(st: AsmState, done: set<Place>, text: seq<byte>, data: seq<byte>)
    requires Patched(st, done, text, data)
    requires forall k: Place :: k in st.fixups ==> k in done
    ensures done == st.fixups.Keys && Resolves(st)
  {
  }

  /**
   * Writing one more resolvable fixup into sections patched for `done`
   * gives sections patched for `done` and that fixup: places do not
   * overlap, so the earlier writes survive.
   */
  lemma PatchStep(st: AsmState, done: set<Place>, text: seq<byte>, data: seq<byte>, k: Place, text2: seq<byte>, data2: seq<byte>)
    requires Placed(st) && Patched(st, done, text, data)
    requires k in st.fixups && k !in done && FixupError(st, st.fixups[k]).None?
    requires k.1 + FixupWidth(st, k) <= |Sec(text, data, k.0)|
    requires Sec(text2, data2, k.0)
             == Bytecode.Overwrite(Sec(text, data, k.0), k.1,
                  LittleEndian(Truncate(FixupValue(st, k), FixupWidth(st, k)), FixupWidth(st, k)))
    requires forall sec :: sec != k.0 ==> Sec(text2, data2, sec) == Sec(text, data, sec)
    ensures Patched(st, done + {k}, text2, data2)
  {
    var w := FixupWidth(st, k);
    var bs := LittleEndian(Truncate(FixupValue(st, k), w), w);
    var before := Sec(text, data, k.0);
    var other := if k.0 == Bytecode.Text then Bytecode.Data else Bytecode.Text;
    assert Sec(text2, data2, other) == Sec(text, data, other);
    assert |text2| == |text| && |data2| == |data|;
    forall k2: Place | k2 in done + {k}
      ensures k2 in st.fixups && FixupError(st, st.fixups[k2]).None?
      ensures k2.1 + FixupWidth(st, k2) <= |Sec(text2, data2, k2.0)|
      ensures Sec(text2, data2, k2.0)[k2.1..k2.1 + FixupWidth(st, k2)]
              == LittleEndian(Truncate(FixupValue(st, k2), FixupWidth(st, k2)), FixupWidth(st, k2))
    {
      if k2 != k && k2.0 == k.0 {
        Bytecode.OverwriteOutside(before, k.1, bs, k2.1, FixupWidth(st, k2));
      }
    }
    forall sec, i | 0 <= i < |SectionBytes(st, sec)| && !Covered(st, done + {k}, sec, i)
      ensures Sec(text2, data2, sec)[i] == SectionBytes(st, sec)[i]
    {
      assert !InHole(st, k, sec, i) by {
        assert k in done + {k};
      }
      CoveredGrows(st, done, k, sec, i);
    }
  }

  lemma CoveredGrows(st: AsmState, done: set<Place>, k: Place, sec: Bytecode.Section, i: int)
    ensures Covered(st, done, sec, i) ==> Covered(st, done + {k}, sec, i)
  {
    if Covered(st, done, sec, i) {
      var k1: Place :| k1 in done && InHole(st, k1, sec, i);
      assert k1 in done + {k};
    }
  }

  /**
   * Sections patched for the same fixups are the same sections, so the
   * order in which the fixup pass takes the fixups (a hash map's drain
   * order) does not change the output.
   */
  lemma PatchedUnique(st: AsmState, done: set<Place>, text1: seq<byte>, data1: seq<byte>, text2: seq<byte>, data2: seq<byte>)
    requires Patched(st, done, text1, data1) && Patched(st, done, text2, data2)
    ensures text1 == text2 && data1 == data2
  {
    forall sec, i | 0 <= i < |SectionBytes(st, sec)|
      ensures Sec(text1, data1, sec)[i] == Sec(text2, data2, sec)[i]
    {
      if Covered(st, done, sec, i) {
        var k: Place :| k in done && InHole(st, k, sec, i);
        var w := FixupWidth(st, k);
        assert Sec(text1, data1, sec)[i] == Sec(text1, data1, sec)[k.1..k.1 + w][i - k.1];
        assert Sec(text2, data2, sec)[i] == Sec(text2, data2, sec)[k.1..k.1 + w][i - k.1];
      }
    }
    assert forall i :: 0 <= i < |text1| ==> text1[i] == Sec(text1, data1, Bytecode.Text)[i];
    assert forall i :: 0 <= i < |data1| ==> data1[i] == Sec(text1, data1, Bytecode.Data)[i];
    assert forall i :: 0 <= i < |text1| ==> text1[i] == text2[i];
    assert forall i :: 0 <= i < |data1| ==> data1[i] == data2[i];
  }

  /** Appending twice is appending the concatenation. */
  lemma AppendTwice(st: AsmState, a: seq<byte>, b: seq<byte>)
    ensures Append(Append(st, a), b) == Append(st, a + b)
  {
    if st.section == Bytecode.Text {
      assert st.text + a + b == st.text + (a + b);
    } else {
      assert st.data + a + b == st.data + (a + b);
    }
  }

  /**
   * `Compiler`: the statements, the output buffer, the labels and fixups
   * found so far, the current section and the entry. Its methods are
   * proved against the first-pass functions above.
   */
  class Compiler {
    var program: seq<Statement>
    const bytecode: Bytecode.Bytecode
    var labels: map<string, Place>
    var fixups: map<Place, Fixup>
    var currentSection: Bytecode.Section
    var entry: EntryPoint

    /** The state the first-pass functions talk about. */
    function Snapshot(): AsmState
      reads this, bytecode
    {
      AsmState(bytecode.text, bytecode.data, labels, fixups, currentSection, entry)
    }

    /** The fixups recorded so far lie inside their sections and do not overlap. */
    predicate Valid()
      reads this, bytecode
    {
      Placed(Snapshot())
    }

    /** `Compiler::new` (the capacity hints are not modelled). */
    constructor(program: seq<Statement>)
      ensures this.program == program && Snapshot() == Initial() && Valid()
      ensures fresh(bytecode)
    {
      this.program := program;
      bytecode := new Bytecode.Bytecode();
      labels := map[];
      fixups := map[];
      currentSection := Bytecode.Text;
      entry := EntryAddress(0);
    }

    /**
     * The bytes of one compiled instruction, pushed to the current section;
     * a label operand's hole is recorded as a fixup at its offset.
     */
    method EmitLowered(l: Lowered)
      modifies this, bytecode
      ensures Snapshot() == Emit(old(Snapshot()), l)
      ensures program == old(program)
    {
      if l.hole.Some? {
        var offset := bytecode.Len(currentSection);
        fixups := fixups[(currentSection, offset + l.hole.value.at) := Fixup(l.hole.value.size, l.hole.value.target)];
      }
      bytecode.Extend(currentSection, Encode(l.instr));
    }

    /** The `db` loop: each value's bytes in turn, stopping at the first value that is neither an integer nor a string. */
    method CompileDb(values: seq<Expression>) returns (r: Result<(), CompileError>)
      modifies bytecode
      ensures Reflects(r, DbStep(old(Snapshot()), values), Snapshot())
    {
      ghost var st := Snapshot();
      var i := 0;
      while i < |values|
        invariant 0 <= i <= |values|
        invariant DbBytes(values[..i]).Ok?
        invariant Snapshot() == Append(st, DbBytes(values[..i]).value)
      {
        assert values[..i + 1][..i] == values[..i];
        var item := values[i];
        ghost var before := DbBytes(values[..i]).value;
        if item.IntegerLiteral? {
          bytecode.Push(currentSection, item.value % 0x100);
        } else if item.StringLiteral? {
          bytecode.Extend(currentSection, Utf8(item.chars));
        } else {
          DbPrefixError(values, i + 1);
          return Err(InvalidExpression("DB"));
        }
        AppendTwice(st, before, DbItem(item).value);
        i := i + 1;
      }
      assert values[..i] == values;
      r := Ok(());
    }

    method CompileEntry(e: Expression) returns (r: Result<(), CompileError>)
      modifies this
      ensures program == old(program)
      ensures Reflects(r, EntryStep(old(Snapshot()), e), Snapshot())
    {
      if e.IntegerLiteral? {
        entry := EntryAddress(I64Bits(e.value));
        r := Ok(());
      } else if e.Identifier? {
        entry := EntryLabel(e.name);
        r := Ok(());
      } else {
        r := Err(InvalidOperands(".ENTRY"));
      }
    }

    method CompileString(e: Expression, terminated: bool) returns (r: Result<(), CompileError>)
      modifies bytecode
      ensures Reflects(r, StringStep(old(Snapshot()), e, terminated), Snapshot())
    {
      if !e.StringLiteral? {
        return Err(InvalidOperands(".ENTRY"));
      }
      ghost var st := Snapshot();
      bytecode.Extend(currentSection, Utf8(e.chars));
      if terminated {
        bytecode.Push(currentSection, 0);
        AppendTwice(st, Utf8(e.chars), [0]);
      }
      r := Ok(());
    }

    method CompileLabel(name: string)
      modifies this
      ensures program == old(program)
      ensures Snapshot() == LabelStep(old(Snapshot()), name)
    {
      var offset := bytecode.Len(currentSection);
      labels := labels[name := (currentSection, offset)];
    }

    method CompileResb(e: Expression) returns (r: Result<(), CompileError>)
      modifies bytecode
      ensures Reflects(r, ResbStep(old(Snapshot()), e), Snapshot())
    {
      if !e.IntegerLiteral? {
        r := Err(InvalidExpression("RESB"));
      } else if e.value < 0 {
        r := Err(CapacityOverflow);
      } else {
        bytecode.Extend(currentSection, seq(e.value, _ => 0));
        r := Ok(());
      }
    }

    /** The directives of `compile`'s loop: sections, the entry, strings, labels, `db` and `resb`. */
    method CompileDirective(stmt: Statement) returns (r: Result<(), CompileError>)
      modifies this, bytecode
      ensures program == old(program)
      ensures Reflects(r, Directive(old(Snapshot()), stmt), Snapshot())
    {
      if stmt.Section? {
        currentSection := if stmt.sectionType == SectionType.Text then Bytecode.Text else Bytecode.Data;
        r := Ok(());
      } else if stmt.Entry? {
        r := CompileEntry(stmt.target);
      } else if stmt.Ascii? || stmt.Asciz? {
        r := CompileString(stmt.text, stmt.Asciz?);
      } else if stmt.Label? {
        CompileLabel(stmt.name);
        r := Ok(());
      } else if stmt.Db? {
        r := CompileDb(stmt.values);
      } else if stmt.Resb? {
        r := CompileResb(stmt.count);
      } else {
        r := Err(UnsupportedOperation(stmt));
      }
    }

    /** One iteration of `compile`'s loop. */
    method CompileStatement(stmt: Statement) returns (r: Result<(), CompileError>)
      modifies this, bytecode
      ensures program == old(program)
      ensures Reflects(r, Advance(old(Snapshot()), stmt), Snapshot())
    {
      var lowered := Instruction(stmt);
      if lowered.Some? {
        if lowered.value.Err? {
          return Err(lowered.value.error);
        }
        EmitLowered(lowered.value.value);
        return Ok(());
      }
      r := CompileDirective(stmt);
    }

    /**
     * One fixup of the drain: its label's address, truncated to its width
     * and written at its place; or the error for it.
     */
    method Patch(ghost st: AsmState, ghost done: set<Place>, k: Place, f: Fixup) returns (err: Option<CompileError>)
      requires Placed(st) && Patched(st, done, bytecode.text, bytecode.data)
      requires k in st.fixups && k !in done && f == st.fixups[k] && labels == st.labels
      modifies bytecode
      ensures err == FixupError(st, f)
      ensures err.None? ==> Patched(st, done + {k}, bytecode.text, bytecode.data)
    {
      if f.target !in labels {
        return Some(UndefinedLabel(f.target));
      }
      var (section, position) := labels[f.target];
      var address := if section == Bytecode.Text then position else bytecode.Len(Bytecode.Text) + position;
      if !f.size.IsInteger() {
        return Some(InvalidDataSize("FIXUP"));
      }
      var n := SizeInBytes(f.size);
      ghost var text, data := bytecode.text, bytecode.data;
      assert n == FixupWidth(st, k) && address == FixupValue(st, k);
      assert bytecode.Contents(k.0) == Sec(text, data, k.0);
      assert k.1 + n <= |SectionBytes(st, k.0)| == |Sec(text, data, k.0)|;
      bytecode.WriteAt(k.0, k.1, n, Truncate(address, n));
      assert Sec(bytecode.text, bytecode.data, k.0) == bytecode.Contents(k.0);
      PatchStep(st, done, text, data, k, bytecode.text, bytecode.data);
      err := None;
    }

    /**
     * The fixup pass: drains the fixups in an unspecified order (a hash
     * map's), writing each one's label address truncated to its width,
     * and stops at the first fixup whose label is undefined or whose
     * width is a float's.
     */
    method ResolveFixups() returns (r: Result<(), CompileError>)
      requires Valid()
      modifies this, bytecode
      ensures program == old(program) && fixups == map[]
      ensures labels == old(labels) && currentSection == old(currentSection) && entry == old(entry)
      ensures r.Ok? <==> Resolves(old(Snapshot()))
      ensures r.Ok? ==> Patched(old(Snapshot()), old(fixups).Keys, bytecode.text, bytecode.data)
      ensures r.Err? ==> exists k :: k in old(fixups) && FixupError(old(Snapshot()), old(fixups)[k]) == Some(r.error)
    {
      ghost var st := Snapshot();
      var pending := fixups;
      fixups := map[];
      r := Drain(st, pending);
    }

    /** The drain loop of the fixup pass, over the fixups taken out of the compiler. */
    method Drain(ghost st: AsmState, fixupsTaken: map<Place, Fixup>) returns (r: Result<(), CompileError>)
      requires Placed(st) && fixupsTaken == st.fixups && labels == st.labels
      requires bytecode.text == st.text && bytecode.data == st.data
      modifies bytecode
      ensures r.Ok? <==> Resolves(st)
      ensures r.Ok? ==> Patched(st, st.fixups.Keys, bytecode.text, bytecode.data)
      ensures r.Err? ==> exists k :: k in st.fixups && FixupError(st, st.fixups[k]) == Some(r.error)
    {
      var pending := fixupsTaken;
      ghost var done: set<Place> := {};
      PatchedNone(st);
      while pending != map[]
        invariant forall k: Place :: k in pending <==> k in st.fixups && k !in done
        invariant forall k: Place :: k in pending ==> pending[k] == st.fixups[k]
        invariant Patched(st, done, bytecode.text, bytecode.data)
        decreases |pending|
      {
        var k: Place :| k in pending;
        var f := pending[k];
        pending := pending - {k};
        var err := Patch(st, done, k, f);
        if err.Some? {
          assert FixupError(st, st.fixups[k]) == Some(err.value);
          return Err(err.value);
        }
        done := done + {k};
      }
      PatchedAll(st, done, bytecode.text, bytecode.data);
      r := Ok(());
    }

    /**
     * What follows the first pass: the fixup pass, the entry, and the
     * output: the entry address as eight little-endian bytes, then the
     * text and data sections.
     */
    method Link() returns (r: Result<seq<byte>, CompileError>)
      requires Valid()
      modifies this, bytecode
      ensures program == old(program)
      ensures CompiledFrom(old(Snapshot()), r)
    {
      ghost var st := Snapshot();
      var resolved := ResolveFixups();
      if resolved.Err? {
        return Err(resolved.error);
      }
      var start: u64;
      match entry {
        case EntryAddress(a) =>
          start := a;
        case EntryLabel(name) =>
          if name !in labels {
            return Err(UndefinedLabel(name));
          }
          var (section, position) := labels[name];
          Pow256Values();
          start := Truncate(if section == Bytecode.Text then position else bytecode.Len(Bytecode.Text) + position, 8);
      }
      var body := bytecode.Finalize();
      r := Ok(LittleEndian(start, 8) + body);
      assert r.value[8..8 + |st.text|] == bytecode.text && r.value[8 + |st.text|..] == bytecode.data;
    }

    /**
     * `compile`: the first pass over the statements (taken out of the
     * compiler), then the fixup pass and the output layout.
     */
    method Compile() returns (r: Result<seq<byte>, CompileError>)
      requires Valid()
      modifies this, bytecode
      ensures program == []
      ensures var first := Assemble(old(Snapshot()), old(program));
        && (first.Err? ==> r == Err(first.error))
        && (first.Ok? ==> CompiledFrom(first.value, r))
    {
      var stmts := program;
      program := [];
      ghost var st0 := Snapshot();
      var i := 0;
      while i < |stmts|
        invariant 0 <= i <= |stmts|
        invariant program == [] && Valid()
        invariant Assemble(st0, stmts) == Assemble(Snapshot(), stmts[i..])
      {
        assert stmts[i..][0] == stmts[i] && stmts[i..][1..] == stmts[i + 1..];
        ghost var before := Snapshot();
        var step := CompileStatement(stmts[i]);
        if step.Err? {
          return Err(step.error);
        }
        StepKeepsPlaced(before, stmts[i]);
        i := i + 1;
      }
      r := Link();
    }
  }
}
