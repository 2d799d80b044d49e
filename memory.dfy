/** The VM's byte-addressed memory (src/vm/memory.rs). */
module Mem {
  import opened Wrappers
  import opened Bits
  import opened Immediates
  import opened VmErrors

  /** `addr + size_in_bytes(size) > len`: the bounds check both `read` and `write` make first. */
  predicate InBounds(storage: seq<byte>, addr: nat, size: DataSize)
  {
    addr + SizeInBytes(size) <= |storage|
  }

  /** `Memory::read`: the little-endian value of the bytes at addr..addr+n. */
  function Read(storage: seq<byte>, addr: nat, size: DataSize): (r: Result<Immediate, VmError>)
    ensures r.Err? <==> !InBounds(storage, addr, size)
    ensures r.Err? ==> r.error == InstructionPointerOutOfBounds(addr)
    ensures r.Ok? ==> ImmSize(r.value) == size
    ensures r.Ok? ==> Pattern(r.value) == FromLittleEndian(storage[addr..addr + SizeInBytes(size)])
  {
    if !InBounds(storage, addr, size) then Err(InstructionPointerOutOfBounds(addr))
    else Ok(OfSize(size, FromLittleEndian(storage[addr..addr + SizeInBytes(size)])))
  }

  /**
   * The bit pattern `write` stores for `value` at width `size`: the integer
   * casts truncate; a float width stores the bits of a value of the same
   * float variant. Any other pairing needs a float conversion (None).
   */
  function StoredPattern(value: Immediate, size: DataSize): (r: Option<nat>)
    ensures r.Some? ==> r.value < Pow256(SizeInBytes(size))
    ensures ImmSize(value) == size ==> r == Some(Pattern(value))
    ensures size.IsInteger() && value.IsInteger() ==> r == Some(Truncate(value.Value(), SizeInBytes(size)))
  {
    Pow256Values();
    match size
    case Float => if value.FloatImm? then Some(value.fbits) else None
    case Double => if value.DoubleImm? then Some(value.dbits) else None
    case _ => if value.IsInteger() then Some(Truncate(value.Value(), SizeInBytes(size))) else None
  }

  /** `Memory::write`: the bounds check precedes any change; the bytes are the LE encoding. */
  function Written(storage: seq<byte>, addr: nat, value: Immediate, size: DataSize): (r: Result<seq<byte>, VmError>)
    ensures !InBounds(storage, addr, size) ==> r == Err(InstructionPointerOutOfBounds(addr))
    ensures InBounds(storage, addr, size) && StoredPattern(value, size).None? ==> r == Err(FloatNotModelled)
    ensures r.Ok? <==> InBounds(storage, addr, size) && StoredPattern(value, size).Some?
    ensures r.Ok? ==> |r.value| == |storage|
    ensures r.Ok? ==> r.value[addr..addr + SizeInBytes(size)] == LittleEndian(StoredPattern(value, size).value, SizeInBytes(size))
    ensures r.Ok? ==> forall i :: 0 <= i < |storage| && !(addr <= i < addr + SizeInBytes(size)) ==> r.value[i] == storage[i]
  {
    if !InBounds(storage, addr, size) then Err(InstructionPointerOutOfBounds(addr))
    else match StoredPattern(value, size)
      case None => Err(FloatNotModelled)
      case Some(v) =>
        var n := SizeInBytes(size);
        var r := storage[..addr] + LittleEndian(v, n) + storage[addr + n..];
        assert r[addr..addr + n] == LittleEndian(v, n);
        Ok(r)
  }

  /** A successful write followed by a read of the same width returns the stored (truncated) value. */
  lemma ReadAfterWrite(storage: seq<byte>, addr: nat, value: Immediate, size: DataSize)
    requires Written(storage, addr, value, size).Ok?
    ensures Read(Written(storage, addr, value, size).value, addr, size) == Ok(OfSize(size, StoredPattern(value, size).value))
  {
    var n := SizeInBytes(size);
    var v := StoredPattern(value, size).value;
    var w := Written(storage, addr, value, size).value;
    assert w[addr..addr + n] == LittleEndian(v, n);
    DecodeEncode(v, n);
    DivModUnique(v, Pow256(n), 0, v);
    assert Truncate(v, n) == v;
    assert FromLittleEndian(w[addr..addr + n]) == v;
    assert InBounds(w, addr, size);
  }

  /** In particular an integer round trip through memory is truncation to the width. */
  lemma IntegerRoundTrip(storage: seq<byte>, addr: nat, value: Immediate, size: DataSize)
    requires size.IsInteger() && value.IsInteger() && InBounds(storage, addr, size)
    ensures Written(storage, addr, value, size).Ok?
    ensures Read(Written(storage, addr, value, size).value, addr, size).Ok?
    ensures Read(Written(storage, addr, value, size).value, addr, size).value.Value() == Truncate(value.Value(), SizeInBytes(size))
  {
    ReadAfterWrite(storage, addr, value, size);
  }

  /** A write leaves every read of a disjoint range unchanged. */
  lemma ReadDisjointWrite(storage: seq<byte>, addr: nat, value: Immediate, size: DataSize, addr2: nat, size2: DataSize)
    requires Written(storage, addr, value, size).Ok?
    requires addr2 + SizeInBytes(size2) <= addr || addr + SizeInBytes(size) <= addr2
    ensures Read(Written(storage, addr, value, size).value, addr2, size2) == Read(storage, addr2, size2)
  {
    var w := Written(storage, addr, value, size).value;
    var n2 := SizeInBytes(size2);
    if InBounds(storage, addr2, size2) {
      assert forall i :: addr2 <= i < addr2 + n2 ==> w[i] == storage[i];
      assert w[addr2..addr2 + n2] == storage[addr2..addr2 + n2];
    }
  }

  /** `Memory`: a fixed-length byte vector. */
  class Memory {
    const storage: array<byte>

    /** `Memory::new`: `size` zero bytes. */
    constructor (size: u64)
      ensures storage.Length == size
      ensures forall i :: 0 <= i < size ==> storage[i] == 0
      ensures fresh(storage)
    {
      storage := new byte[size](_ => 0);
    }

    /** `Memory::len`. */
    function Len(): (n: nat)
      ensures n == storage.Length
    {
      storage.Length
    }

    /** `Memory::write`, overwriting the slice in place (`copy_from_slice`). */
    method Write(addr: nat, value: Immediate, size: DataSize) returns (r: Result<(), VmError>)
      modifies storage
      ensures var spec := Written(old(storage[..]), addr, value, size);
        (r.Ok? <==> spec.Ok?) &&
        (r.Err? ==> r.error == spec.error && storage[..] == old(storage[..])) &&
        (r.Ok? ==> storage[..] == spec.value)
    {
      if !InBounds(storage[..], addr, size) {
        return Err(InstructionPointerOutOfBounds(addr));
      }
      var pattern := StoredPattern(value, size);
      if pattern.None? {
        return Err(FloatNotModelled);
      }
      var n := SizeInBytes(size);
      var bytes := LittleEndian(pattern.value, n);
      ghost var before := storage[..];
      forall i | addr <= i < addr + n {
        storage[i] := bytes[i - addr];
      }
      ghost var spec := Written(before, addr, value, size).value;
      assert storage[..] == spec by {
        assert forall i :: addr <= i < addr + n ==> spec[i] == spec[addr..addr + n][i - addr];
      }
      r := Ok(());
    }
  }
}
