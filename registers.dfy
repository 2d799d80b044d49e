/**
 * The register file (src/vm/register.rs): 99 symbolic registers folded onto
 * 16 general-purpose cells, 32 floating-point cells and 3 special cells.
 */
module Registers {
  import opened Wrappers
  import opened Bits
  import opened Immediates

  type RegIndex = n: int | 0 <= n < 16

  /** The six views of a numbered register: b/w/d/q over gpr, ff/dd over fpr. */
  datatype Bank = BBank | WBank | DBank | QBank | FFBank | DDBank

  /** `Register`: a numbered view `Banked(bank, n)` or one of the special registers. */
  datatype Register = Banked(bank: Bank, n: RegIndex) | IP | SP | BP

  /** Position of a bank within each group of six discriminants. */
  function BankOffset(b: Bank): (k: nat)
    ensures k < 6
  {
    match b
    case BBank => 0
    case WBank => 1
    case DBank => 2
    case QBank => 3
    case FFBank => 4
    case DDBank => 5
  }

  function BankAt(k: nat): (b: Bank)
    requires k < 6
    ensures BankOffset(b) == k
  {
    match k
    case 0 => BBank
    case 1 => WBank
    case 2 => DBank
    case 3 => QBank
    case 4 => FFBank
    case 5 => DDBank
  }

  /** `Register as u8`: B0, W0, D0, Q0, FF0, DD0, B1, ... then IP, SP, BP. */
  function RegisterCode(r: Register): (b: byte)
    ensures b <= 0x62
  {
    match r
    case Banked(bank, n) => 6 * n + BankOffset(bank)
    case IP => 0x60
    case SP => 0x61
    case BP => 0x62
  }

  /** `TryFrom<u8> for Register`. */
  function RegisterFromCode(b: byte): (r: Option<Register>)
    ensures r.Some? <==> b <= 0x62
  {
    if b < 0x60 then Some(Banked(BankAt(b % 6), b / 6))
    else if b == 0x60 then Some(IP)
    else if b == 0x61 then Some(SP)
    else if b == 0x62 then Some(BP)
    else None
  }

  /** Decoding inverts encoding. */
  lemma RegisterCodeRoundTrip(r: Register)
    ensures RegisterFromCode(RegisterCode(r)) == Some(r)
  {
    if r.Banked? {
      var b := RegisterCode(r);
      DivModUnique(b, 6, r.n, BankOffset(r.bank));
    }
  }

  /** Every accepted byte is the code of the register it decodes to. */
  lemma RegisterCodeOnto(b: byte)
    requires b <= 0x62
    ensures RegisterCode(RegisterFromCode(b).value) == b
  {
  }

  /** `DataSize::from(Register)` (src/parser/immediate.rs): the width of a register's view. */
  function SizeOf(r: Register): (s: DataSize)
    ensures s.IsInteger() <==> !(r.Banked? && r.bank in {FFBank, DDBank})
  {
    match r
    case Banked(BBank, _) => Byte
    case Banked(WBank, _) => Word
    case Banked(DBank, _) => DWord
    case Banked(QBank, _) => QWord
    case Banked(FFBank, _) => Float
    case Banked(DDBank, _) => Double
    case _ => QWord
  }

  /** The three physical register files. */
  datatype Kind = GeneralPurpose | FloatingPoint | Special

  /** `physical_info`: the cell a register lives in and the view it reads it through. */
  datatype Location = Location(kind: Kind, index: nat)

  function PhysicalInfo(r: Register): (info: (Location, DataSize))
  {
    match r
    case Banked(FFBank, n) => (Location(FloatingPoint, n), Float)
    case Banked(DDBank, n) => (Location(FloatingPoint, 16 + n), Double)
    case Banked(bank, n) =>
      (Location(GeneralPurpose, n),
       match bank case BBank => Byte case WBank => Word case DBank => DWord case _ => QWord)
    case IP => (Location(Special, 0), QWord)
    case SP => (Location(Special, 1), QWord)
    case BP => (Location(Special, 2), QWord)
  }

  function LocationOf(r: Register): Location { PhysicalInfo(r).0 }

  /** The physical-info table and the DataSize table agree on every register's width. */
  lemma ViewIsSize(r: Register)
    ensures PhysicalInfo(r).1 == SizeOf(r)
    ensures LocationOf(r).kind == FloatingPoint <==> !SizeOf(r).IsInteger()
  {
  }

  /**
   * Aliasing: the four integer views of register n share gpr[n]; FFn and
   * DDn live in different fpr cells; registers in different banks of the
   * float file, or with different numbers, never share a cell.
   */
  lemma Aliasing(r1: Register, r2: Register)
    ensures LocationOf(r1) == LocationOf(r2) <==>
      r1 == r2 ||
      (r1.Banked? && r2.Banked? && r1.n == r2.n &&
       r1.bank in {BBank, WBank, DBank, QBank} && r2.bank in {BBank, WBank, DBank, QBank})
  {
  }

  /** The ASCII decimal digit for d. */
  function Digit(d: nat): (c: char)
    requires d < 10
    ensures '0' <= c <= '9'
  {
    ('0' as int + d) as char
  }

  /** The decimal spelling of a register number. */
  function IndexName(n: RegIndex): string
  {
    if n < 10 then [Digit(n)] else ['1', Digit(n - 10)]
  }

  function BankPrefix(b: Bank): string
  {
    match b
    case BBank => "b"
    case WBank => "w"
    case DBank => "d"
    case QBank => "q"
    case FFBank => "ff"
    case DDBank => "dd"
  }

  /** The lower-case assembler name of a register ("b0" ... "dd15", "ip", "sp", "bp"). */
  function RegisterName(r: Register): string
  {
    match r
    case Banked(bank, n) => BankPrefix(bank) + IndexName(n)
    case IP => "ip"
    case SP => "sp"
    case BP => "bp"
  }

  /** A register number spelt in decimal without leading zeros. */
  function ParseIndex(t: string): (r: Option<RegIndex>)
    ensures r.Some? ==> IndexName(r.value) == t
  {
    if |t| == 1 && '0' <= t[0] <= '9' then Some(t[0] as int - '0' as int)
    else if |t| == 2 && t[0] == '1' && '0' <= t[1] <= '5' then Some(10 + (t[1] as int - '0' as int))
    else None
  }

  function WithIndex(bank: Bank, t: string): Option<Register>
  {
    match ParseIndex(t)
    case Some(n) => Some(Banked(bank, n))
    case None => None
  }

  /** `TryFrom<&str> for Register`: exact, case-sensitive match on the names. */
  function RegisterFromName(s: string): (r: Option<Register>)
    ensures r.Some? ==> RegisterName(r.value) == s
  {
    if s == "ip" then Some(IP)
    else if s == "sp" then Some(SP)
    else if s == "bp" then Some(BP)
    else if |s| >= 2 && s[..2] == "ff" then WithIndex(FFBank, s[2..])
    else if |s| >= 2 && s[..2] == "dd" then WithIndex(DDBank, s[2..])
    else if |s| >= 1 && s[0] == 'b' then WithIndex(BBank, s[1..])
    else if |s| >= 1 && s[0] == 'w' then WithIndex(WBank, s[1..])
    else if |s| >= 1 && s[0] == 'd' then WithIndex(DBank, s[1..])
    else if |s| >= 1 && s[0] == 'q' then WithIndex(QBank, s[1..])
    else None
  }

  /** Every register is found under its name; together with the ensures above, an iff. */
  lemma RegisterNameRoundTrip(r: Register)
    ensures RegisterFromName(RegisterName(r)) == Some(r)
  {
    if r.Banked? {
      BankedNameRoundTrip(r.bank, r.n);
    }
  }

  lemma BankedNameRoundTrip(bank: Bank, n: RegIndex)
    ensures RegisterFromName(BankPrefix(bank) + IndexName(n)) == Some(Banked(bank, n))
  {
    var s, p, t := BankPrefix(bank) + IndexName(n), BankPrefix(bank), IndexName(n);
    assert s[|p|..] == t;
    assert ParseIndex(t) == Some(n);
    assert s != "ip" && s != "sp" && s != "bp" by {
      assert s[0] == p[0];
    }
    assert WithIndex(bank, t) == Some(Banked(bank, n));
  }

  lemma RegisterFromNameSpec(s: string, r: Register)
    ensures RegisterFromName(s) == Some(r) <==> RegisterName(r) == s
  {
    if RegisterName(r) == s {
      RegisterNameRoundTrip(r);
    }
  }

  /** The three cell arrays as values. */
  datatype RegFile = RegFile(gpr: seq<u64>, fpr: seq<u64>, special: seq<u64>) {
    ghost predicate Valid() { |gpr| == 16 && |fpr| == 32 && |special| == 3 }

    /** The raw 64-bit contents of a cell. */
    function Cell(loc: Location): u64
      requires Valid()
    {
      match loc.kind
      case GeneralPurpose => if loc.index < 16 then gpr[loc.index] else 0
      case FloatingPoint => if loc.index < 32 then fpr[loc.index] else 0
      case Special => if loc.index < 3 then special[loc.index] else 0
    }
  }

  /** `Registers::new`: every cell zero. */
  function ZeroFile(): (rf: RegFile)
    ensures rf.Valid()
  {
    RegFile(seq(16, _ => 0), seq(32, _ => 0), seq(3, _ => 0))
  }

  /** `Registers::get`: the cell seen through the register's view. */
  function Get(rf: RegFile, r: Register): (imm: Immediate)
    requires rf.Valid()
    ensures ImmSize(imm) == SizeOf(r)
  {
    Pow256Values();
    var cell := rf.Cell(LocationOf(r));
    match SizeOf(r)
    case Byte => ByteImm(cell % 0x100)
    case Word => WordImm(cell % 0x1_0000)
    case DWord => DWordImm(cell % 0x1_0000_0000)
    case QWord => QWordImm(cell)
    case Float => FloatImm(cell % 0x1_0000_0000)
    case Double => DoubleImm(cell)
  }

  /** `(cell & !(m - 1)) | v` for a mask of the low bits below m and a value v < m. */
  function MergeLow(cell: u64, v: nat, m: nat): (r: u64)
    requires m in {0x100, 0x1_0000} && v < m
    ensures r % m == v && r / m == cell / m
  {
    DivModUnique(cell / m * m + v, m, cell / m, v);
    cell / m * m + v
  }

  function WithCell(rf: RegFile, loc: Location, v: u64): (rf': RegFile)
    requires rf.Valid() && loc.index < (if loc.kind == GeneralPurpose then 16 else if loc.kind == FloatingPoint then 32 else 3)
    ensures rf'.Valid()
  {
    match loc.kind
    case GeneralPurpose => rf.(gpr := rf.gpr[loc.index := v])
    case FloatingPoint => rf.(fpr := rf.fpr[loc.index := v])
    case Special => rf.(special := rf.special[loc.index := v])
  }

  /**
   * The new content of a register's cell after writing `imm` through it;
   * None when the write needs a float conversion.
   */
  function NewCell(old_cell: u64, r: Register, imm: Immediate): Option<u64>
  {
    match SizeOf(r)
    case Byte => if imm.IsInteger() then Some(MergeLow(old_cell, AsU8(imm).value, 0x100)) else None
    case Word => if imm.IsInteger() then Some(MergeLow(old_cell, AsU16(imm).value, 0x1_0000)) else None
    case DWord => if imm.IsInteger() then Some(AsU32(imm).value) else None
    case QWord => AsU64(imm)
    case Float => if imm.FloatImm? then Some(AsF32Bits(imm).value) else None
    case Double => AsF64Bits(imm)
  }

  /**
   * `Registers::set`. A byte or word write merges into the low bits of the
   * cell, a dword write zero-extends, a qword write replaces. The source
   * never fails here; None marks a write whose float conversion the model
   * leaves out.
   */
  function Set(rf: RegFile, r: Register, imm: Immediate): (res: Option<RegFile>)
    requires rf.Valid()
    ensures res.Some? ==> res.value.Valid()
    ensures res.Some? <==> (if SizeOf(r).IsInteger() then imm.IsInteger() else ImmSize(imm) == SizeOf(r))
  {
    var loc := LocationOf(r);
    match NewCell(rf.Cell(loc), r, imm)
    case Some(c) => Some(WithCell(rf, loc, c))
    case None => None
  }

  /** A write changes the cell of its register and no other cell. */
  lemma SetFrame(rf: RegFile, r: Register, imm: Immediate, loc: Location)
    requires rf.Valid() && Set(rf, r, imm).Some?
    requires loc != LocationOf(r)
    ensures Set(rf, r, imm).value.Cell(loc) == rf.Cell(loc)
  {
  }

  /** What a write leaves in the cell, view by view. */
  lemma SetCell(rf: RegFile, r: Register, imm: Immediate)
    requires rf.Valid() && Set(rf, r, imm).Some?
    ensures var before, after := rf.Cell(LocationOf(r)), Set(rf, r, imm).value.Cell(LocationOf(r));
      match SizeOf(r)
      case Byte => after % 0x100 == imm.Value() % 0x100 && after / 0x100 == before / 0x100
      case Word => after % 0x1_0000 == imm.Value() % 0x1_0000 && after / 0x1_0000 == before / 0x1_0000
      case DWord => after == imm.Value() % 0x1_0000_0000
      case QWord => after == imm.Value()
      case Float => after == imm.fbits
      case Double => after == imm.dbits
  {
  }

  /** Reading a register after writing it yields the written value cast to the register's width. */
  lemma GetAfterSet(rf: RegFile, r: Register, imm: Immediate)
    requires rf.Valid() && Set(rf, r, imm).Some?
    ensures Get(Set(rf, r, imm).value, r) ==
      if SizeOf(r).IsInteger() then OfSize(SizeOf(r), Truncate(imm.Value(), SizeInBytes(SizeOf(r)))) else imm
  {
    Pow256Values();
    SetCell(rf, r, imm);
    var after := Set(rf, r, imm).value.Cell(LocationOf(r));
    match SizeOf(r)
    case Byte =>
    case Word =>
    case DWord =>
      ModOfMod(imm.Value(), 0x1_0000_0000, 1);
    case QWord =>
    case Float =>
    case Double =>
  }

  /** A write through one register is invisible through every register in another cell. */
  lemma GetOtherAfterSet(rf: RegFile, r: Register, imm: Immediate, r2: Register)
    requires rf.Valid() && Set(rf, r, imm).Some?
    requires LocationOf(r2) != LocationOf(r)
    ensures Get(Set(rf, r, imm).value, r2) == Get(rf, r2)
  {
    SetFrame(rf, r, imm, LocationOf(r2));
  }

  /** A byte write is visible through the wider views of the same register, above bit 7 unchanged. */
  lemma ByteWriteThroughQWord(rf: RegFile, n: RegIndex, imm: Immediate)
    requires rf.Valid() && imm.IsInteger()
    ensures Set(rf, Banked(BBank, n), imm).Some?
    ensures var q := Get(Set(rf, Banked(BBank, n), imm).value, Banked(QBank, n)).q;
      q % 0x100 == imm.Value() % 0x100 && q / 0x100 == rf.gpr[n] / 0x100
  {
    SetCell(rf, Banked(BBank, n), imm);
  }

  /** Every register of a fresh file reads as zero. */
  lemma ZeroFileReadsZero(r: Register)
    ensures Get(ZeroFile(), r) == OfSize(SizeOf(r), 0)
  {
  }

  /**
   * `Registers`: the cells live in three fixed arrays that `set` and the
   * `set_ip`/`set_sp`/`set_bp` shortcuts overwrite in place.
   */
  class RegisterFile {
    const gpr: array<u64>
    const fpr: array<u64>
    const special: array<u64>

    ghost predicate Valid()
    {
      gpr.Length == 16 && fpr.Length == 32 && special.Length == 3
    }

    function Snapshot(): (rf: RegFile)
      reads gpr, fpr, special
      requires Valid()
      ensures rf.Valid()
    {
      RegFile(gpr[..], fpr[..], special[..])
    }

    /** `Registers::new`. */
    constructor ()
      ensures Valid() && Snapshot() == ZeroFile()
      ensures fresh(gpr) && fresh(fpr) && fresh(special)
    {
      gpr := new u64[16](_ => 0);
      fpr := new u64[32](_ => 0);
      special := new u64[3](_ => 0);
    }

    /** `Registers::get`. */
    method Read(r: Register) returns (imm: Immediate)
      requires Valid()
      ensures imm == Get(Snapshot(), r)
    {
      var loc := LocationOf(r);
      var cell: u64;
      match loc.kind {
        case GeneralPurpose => cell := gpr[loc.index];
        case FloatingPoint => cell := fpr[loc.index];
        case Special => cell := special[loc.index];
      }
      Pow256Values();
      match SizeOf(r) {
        case Byte => imm := ByteImm(cell % 0x100);
        case Word => imm := WordImm(cell % 0x1_0000);
        case DWord => imm := DWordImm(cell % 0x1_0000_0000);
        case QWord => imm := QWordImm(cell);
        case Float => imm := FloatImm(cell % 0x1_0000_0000);
        case Double => imm := DoubleImm(cell);
      }
    }

    /** `Registers::set`; `ok` is false only where the model leaves a float conversion out. */
    method Write(r: Register, imm: Immediate) returns (ok: bool)
      requires Valid()
      modifies gpr, fpr, special
      ensures Valid()
      ensures ok == Set(old(Snapshot()), r, imm).Some?
      ensures Snapshot() == if ok then Set(old(Snapshot()), r, imm).value else old(Snapshot())
    {
      var loc := LocationOf(r);
      var cell: u64;
      match loc.kind {
        case GeneralPurpose => cell := gpr[loc.index];
        case FloatingPoint => cell := fpr[loc.index];
        case Special => cell := special[loc.index];
      }
      var next := NewCell(cell, r, imm);
      if next.None? {
        return false;
      }
      match loc.kind {
        case GeneralPurpose => gpr[loc.index] := next.value;
        case FloatingPoint => fpr[loc.index] := next.value;
        case Special => special[loc.index] := next.value;
      }
      ok := true;
    }

    /** `Registers::ip`. */
    function Ip(): (v: u64)
      reads special
      requires Valid()
      ensures Get(Snapshot(), IP) == QWordImm(v)
    {
      special[0]
    }

    function Sp(): (v: u64)
      reads special
      requires Valid()
      ensures Get(Snapshot(), SP) == QWordImm(v)
    {
      special[1]
    }

    function Bp(): (v: u64)
      reads special
      requires Valid()
      ensures Get(Snapshot(), BP) == QWordImm(v)
    {
      special[2]
    }

    /** `set_ip`: the same effect as writing a QWord through IP. */
    method SetIp(v: u64)
      requires Valid()
      modifies special
      ensures Valid() && Ip() == v && special[..] == old(special[..])[0 := v]
      ensures Some(Snapshot()) == Set(old(Snapshot()), IP, QWordImm(v))
    {
      special[0] := v;
    }

    method SetSp(v: u64)
      requires Valid()
      modifies special
      ensures Valid() && Sp() == v && special[..] == old(special[..])[1 := v]
      ensures Some(Snapshot()) == Set(old(Snapshot()), SP, QWordImm(v))
    {
      special[1] := v;
    }

    method SetBp(v: u64)
      requires Valid()
      modifies special
      ensures Valid() && Bp() == v && special[..] == old(special[..])[2 := v]
      ensures Some(Snapshot()) == Set(old(Snapshot()), BP, QWordImm(v))
    {
      special[2] := v;
    }
  }
}
