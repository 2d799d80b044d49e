/**
 * Operand widths and typed immediate values (src/parser/immediate.rs).
 *
 * Float and Double immediates carry their IEEE-754 bit pattern; the model
 * moves those bits exactly but does not interpret them, so a conversion
 * that needs floating-point arithmetic yields None.
 */
module Immediates {
  import opened Wrappers
  import opened Bits

  datatype DataSize = Byte | Word | DWord | QWord | Float | Double {
    predicate IsInteger() { this in {Byte, Word, DWord, QWord} }
  }

  /** `DataSize::size_in_bytes`. */
  function SizeInBytes(s: DataSize): (n: nat)
    ensures n in {1, 2, 4, 8}
    ensures s.IsInteger() ==> n == Pow256Width(s)
  {
    match s
    case Byte => 1
    case Word => 2
    case DWord => 4
    case QWord => 8
    case Float => 4
    case Double => 8
  }

  /**
   * The byte count of an integer width, derived from the range of its Rust
   * type: the smallest n with 256^n values (an independent definition of
   * the table above).
   */
  function Pow256Width(s: DataSize): (n: nat)
    requires s.IsInteger()
    ensures Pow256(n) == RangeOf(s)
  {
    Pow256Values();
    match s
    case Byte => 1
    case Word => 2
    case DWord => 4
    case QWord => 8
  }

  /** The number of values of the unsigned Rust type of an integer width. */
  function RangeOf(s: DataSize): nat
    requires s.IsInteger()
  {
    match s
    case Byte => 0x100
    case Word => 0x1_0000
    case DWord => 0x1_0000_0000
    case QWord => 0x1_0000_0000_0000_0000
  }

  /** `DataSize as u8`: the enum discriminant. */
  function SizeCode(s: DataSize): (b: byte)
    ensures b <= 5
  {
    match s
    case Byte => 0
    case Word => 1
    case DWord => 2
    case QWord => 3
    case Float => 4
    case Double => 5
  }

  /** `TryFrom<u8> for DataSize`. */
  function SizeFromCode(b: byte): (r: Option<DataSize>)
    ensures r.Some? <==> b <= 5
    ensures r.Some? ==> SizeCode(r.value) == b
  {
    match b
    case 0 => Some(Byte)
    case 1 => Some(Word)
    case 2 => Some(DWord)
    case 3 => Some(QWord)
    case 4 => Some(Float)
    case 5 => Some(Double)
    case _ => None
  }

  lemma SizeCodeRoundTrip(s: DataSize)
    ensures SizeFromCode(SizeCode(s)) == Some(s)
  {
  }

  /** The canonical (lower-case) name of a size. */
  function SizeName(s: DataSize): string
  {
    match s
    case Byte => "byte"
    case Word => "word"
    case DWord => "dword"
    case QWord => "qword"
    case Float => "float"
    case Double => "double"
  }

  /** ASCII lower-casing of one character. */
  function LowerChar(c: char): (r: char)
    ensures 'A' <= c <= 'Z' ==> r as int == c as int + 32
    ensures !('A' <= c <= 'Z') ==> r == c
  {
    if 'A' <= c <= 'Z' then (c as int + 32) as char else c
  }

  /** `str::to_lowercase` restricted to ASCII. */
  function Lower(s: string): (r: string)
    ensures |r| == |s|
    ensures forall i :: 0 <= i < |s| ==> r[i] == LowerChar(s[i])
  {
    if s == [] then [] else [LowerChar(s[0])] + Lower(s[1..])
  }

  /** `TryFrom<&str> for DataSize`: the size names, in any letter case. */
  function SizeFromName(s: string): (r: Option<DataSize>)
  {
    match Lower(s)
    case "byte" => Some(Byte)
    case "word" => Some(Word)
    case "dword" => Some(DWord)
    case "qword" => Some(QWord)
    case "float" => Some(Float)
    case "double" => Some(Double)
    case _ => None
  }

  /** A name is accepted exactly when its lower-case form is a size's name. */
  lemma SizeFromNameSpec(s: string, d: DataSize)
    ensures SizeFromName(s) == Some(d) <==> Lower(s) == SizeName(d)
  {
  }

  lemma SizeFromNameRejects(s: string)
    ensures SizeFromName(s) == None <==> forall d: DataSize :: Lower(s) != SizeName(d)
  {
    if SizeFromName(s) == None {
      forall d: DataSize ensures Lower(s) != SizeName(d) {
        SizeFromNameSpec(s, d);
      }
    } else {
      SizeFromNameSpec(s, SizeFromName(s).value);
    }
  }

  /** Lower-casing first changes nothing: the lookup ignores letter case. */
  lemma {:induction false} LowerIdempotent(s: string)
    ensures Lower(Lower(s)) == Lower(s)
  {
    if s != [] {
      LowerIdempotent(s[1..]);
    }
  }

  /** A typed immediate; floats hold their IEEE-754 bits. */
  datatype Immediate =
    | ByteImm(b: byte)
    | WordImm(w: u16)
    | DWordImm(d: u32)
    | QWordImm(q: u64)
    | FloatImm(fbits: u32)
    | DoubleImm(dbits: u64)
  {
    predicate IsInteger() { !FloatImm? && !DoubleImm? }

    /** The unsigned value held by an integer immediate. */
    function Value(): nat
      requires IsInteger()
    {
      match this
      case ByteImm(v) => v
      case WordImm(v) => v
      case DWordImm(v) => v
      case QWordImm(v) => v
    }
  }

  /** `Immediate::size`: the width a value carries. */
  function ImmSize(imm: Immediate): (s: DataSize)
    ensures s.IsInteger() <==> imm.IsInteger()
    ensures imm.IsInteger() ==> imm.Value() < Pow256(SizeInBytes(s))
  {
    Pow256Values();
    match imm
    case ByteImm(_) => Byte
    case WordImm(_) => Word
    case DWordImm(_) => DWord
    case QWordImm(_) => QWord
    case FloatImm(_) => Float
    case DoubleImm(_) => Double
  }

  /**
   * The immediate of width `s` whose low bytes are those of `v`: how the
   * VM builds a value it has read `SizeInBytes(s)` bytes for.
   */
  function OfSize(s: DataSize, v: nat): (imm: Immediate)
    requires v < Pow256(SizeInBytes(s))
    ensures ImmSize(imm) == s
  {
    Pow256Values();
    match s
    case Byte => ByteImm(v)
    case Word => WordImm(v)
    case DWord => DWordImm(v)
    case QWord => QWordImm(v)
    case Float => FloatImm(v)
    case Double => DoubleImm(v)
  }

  /** The bit pattern an immediate stores in memory, `SizeInBytes(ImmSize(imm))` bytes wide. */
  function Pattern(imm: Immediate): (v: nat)
    ensures v < Pow256(SizeInBytes(ImmSize(imm)))
    ensures OfSize(ImmSize(imm), v) == imm
  {
    Pow256Values();
    match imm
    case ByteImm(v) => v
    case WordImm(v) => v
    case DWordImm(v) => v
    case QWordImm(v) => v
    case FloatImm(v) => v
    case DoubleImm(v) => v
  }

  /** An integer cast `as uN` for an n-byte target: truncation; None for a float source. */
  function AsUnsigned(imm: Immediate, n: nat): (r: Option<nat>)
    ensures r.Some? <==> imm.IsInteger()
    ensures imm.IsInteger() ==> r.value == Truncate(imm.Value(), n)
  {
    if imm.IsInteger() then Some(Truncate(imm.Value(), n)) else None
  }

  /** `Immediate::as_u8`. */
  function AsU8(imm: Immediate): (r: Option<byte>)
    ensures r.Some? <==> imm.IsInteger()
    ensures imm.IsInteger() ==> r.value == imm.Value() % 0x100
  {
    Pow256Values();
    match AsUnsigned(imm, 1)
    case Some(v) => Some(v)
    case None => None
  }

  /** `Immediate::as_u16`. */
  function AsU16(imm: Immediate): (r: Option<u16>)
    ensures r.Some? <==> imm.IsInteger()
    ensures imm.IsInteger() ==> r.value == imm.Value() % 0x1_0000
  {
    Pow256Values();
    match AsUnsigned(imm, 2)
    case Some(v) => Some(v)
    case None => None
  }

  /** `Immediate::as_u32`. */
  function AsU32(imm: Immediate): (r: Option<u32>)
    ensures r.Some? <==> imm.IsInteger()
    ensures imm.IsInteger() ==> r.value == imm.Value() % 0x1_0000_0000
  {
    Pow256Values();
    match AsUnsigned(imm, 4)
    case Some(v) => Some(v)
    case None => None
  }

  /** `Immediate::as_u64`: every integer value already fits, so it is zero-extended. */
  function AsU64(imm: Immediate): (r: Option<u64>)
    ensures r.Some? <==> imm.IsInteger()
    ensures imm.IsInteger() ==> r.value == imm.Value()
  {
    Pow256Values();
    match AsUnsigned(imm, 8)
    case Some(v) => Some(v)
    case None => None
  }

  /** `Immediate::as_usize` (usize is 64 bits wide). */
  function AsUsize(imm: Immediate): (r: Option<u64>)
    ensures r == AsU64(imm)
  {
    AsU64(imm)
  }

  /**
   * `Immediate::as_f32` for the one case that needs no arithmetic: a Float
   * is returned unchanged. Every other source needs a conversion.
   */
  function AsF32Bits(imm: Immediate): (r: Option<u32>)
    ensures r.Some? <==> imm.FloatImm?
    ensures imm.FloatImm? ==> r.value == imm.fbits
  {
    if imm.FloatImm? then Some(imm.fbits) else None
  }

  /** `Immediate::as_f64` for a Double source, which it returns unchanged. */
  function AsF64Bits(imm: Immediate): (r: Option<u64>)
    ensures r.Some? <==> imm.DoubleImm?
    ensures imm.DoubleImm? ==> r.value == imm.dbits
  {
    if imm.DoubleImm? then Some(imm.dbits) else None
  }

  /** Casting down in two steps is casting down once: u16 then u8 is u8. */
  lemma TruncationComposes(imm: Immediate)
    requires imm.IsInteger()
    ensures AsU8(WordImm(AsU16(imm).value)) == AsU8(imm)
    ensures AsU16(DWordImm(AsU32(imm).value)) == AsU16(imm)
    ensures AsU32(QWordImm(AsU64(imm).value)) == AsU32(imm)
  {
    ModOfMod(imm.Value(), 0x100, 0x100);
    ModOfMod(imm.Value(), 0x1_0000, 0x1_0000);
    ModOfMod(imm.Value(), 0x1_0000_0000, 0x1_0000_0000);
  }

  /** Reading back a value built at a width returns its low bytes. */
  lemma OfSizeValue(s: DataSize, v: nat)
    requires s.IsInteger() && v < Pow256(SizeInBytes(s))
    ensures OfSize(s, v).IsInteger() && OfSize(s, v).Value() == v
    ensures AsU64(OfSize(s, v)) == Some(v)
  {
  }

  /**
   * The derived `PartialEq`/`PartialOrd` on Immediate, as CMP uses it:
   * values of different variants compare by variant order (Byte < Word <
   * DWord < QWord < Float < Double) whatever they hold; two integers of the
   * same variant compare by value. Two floats of the same variant need
   * IEEE comparison, which the model leaves out (None).
   * The pair is (equal, less than).
   */
  function Compare(l: Immediate, r: Immediate): (res: Option<(bool, bool)>)
    ensures res.None? <==> (l.FloatImm? && r.FloatImm?) || (l.DoubleImm? && r.DoubleImm?)
    ensures res.Some? ==> (res.value.0 <==> l == r)
    ensures res.Some? && ImmSize(l) == ImmSize(r) ==> (res.value.1 <==> l.Value() < r.Value())
    ensures ImmSize(l) != ImmSize(r) ==> res == Some((false, SizeCode(ImmSize(l)) < SizeCode(ImmSize(r))))
  {
    if ImmSize(l) != ImmSize(r) then
      Some((false, SizeCode(ImmSize(l)) < SizeCode(ImmSize(r))))
    else if l.IsInteger() then
      Some((l.Value() == r.Value(), l.Value() < r.Value()))
    else
      None
  }
}
