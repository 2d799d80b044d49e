/**
 * The assembler's output buffer (src/compiler/bytecode.rs): two byte
 * vectors, one per section, that grow at the end and are patched in place
 * with little-endian values.
 */
module Bytecode {
  import opened Bits

  datatype Section = Text | Data

  /** `bs` written over `s` from `offset` on: the length and every other byte are kept. */
  function Overwrite(s: seq<byte>, offset: nat, bs: seq<byte>): (r: seq<byte>)
    requires offset + |bs| <= |s|
    ensures |r| == |s|
    ensures r[offset..offset + |bs|] == bs
    ensures forall i :: 0 <= i < |s| && !(offset <= i < offset + |bs|) ==> r[i] == s[i]
  {
    s[..offset] + bs + s[offset + |bs|..]
  }

  /** A value patched in at `offset` reads back, little-endian, as that value truncated to the width. */
  lemma OverwriteReadsBack(s: seq<byte>, offset: nat, v: nat, n: nat)
    requires offset + n <= |s|
    ensures FromLittleEndian(Overwrite(s, offset, LittleEndian(v, n))[offset..offset + n]) == Truncate(v, n)
  {
    DecodeEncode(v, n);
  }

  /** Overwriting the middle part of a concatenation replaces just that part. */
  lemma OverwriteMiddle(prefix: seq<byte>, mid: seq<byte>, suffix: seq<byte>, bs: seq<byte>)
    requires |bs| == |mid|
    ensures Overwrite(prefix + mid + suffix, |prefix|, bs) == prefix + bs + suffix
  {
    var s := prefix + mid + suffix;
    assert s[..|prefix|] == prefix;
    assert s[|prefix| + |bs|..] == suffix;
  }

  /** A patch leaves a range it does not touch as it was. */
  lemma OverwriteOutside(s: seq<byte>, offset: nat, bs: seq<byte>, at: nat, n: nat)
    requires offset + |bs| <= |s| && at + n <= |s|
    requires at + n <= offset || offset + |bs| <= at
    ensures Overwrite(s, offset, bs)[at..at + n] == s[at..at + n]
  {
    var r := Overwrite(s, offset, bs);
    assert forall j :: at <= j < at + n ==> r[j] == s[j];
    assert r[at..at + n] == s[at..at + n];
  }

  /** Patching twice at the same place keeps only the second value. */
  lemma OverwriteTwice(s: seq<byte>, offset: nat, a: seq<byte>, b: seq<byte>)
    requires offset + |a| <= |s| && |b| == |a|
    ensures Overwrite(Overwrite(s, offset, a), offset, b) == Overwrite(s, offset, b)
  {
    var r1 := Overwrite(Overwrite(s, offset, a), offset, b);
    var r2 := Overwrite(s, offset, b);
    forall i | 0 <= i < |s|
      ensures r1[i] == r2[i]
    {
      if offset <= i < offset + |b| {
        assert r1[i] == r1[offset..offset + |b|][i - offset];
        assert r2[i] == r2[offset..offset + |b|][i - offset];
      }
    }
  }

  class Bytecode {
    var text: seq<byte>
    var data: seq<byte>

    /** The bytes of one section. */
    function Contents(section: Section): seq<byte>
      reads this
    {
      if section == Text then text else data
    }

    /** `Bytecode::new`: both sections empty (the capacity hint is not modelled). */
    constructor()
      ensures text == [] && data == []
    {
      text := [];
      data := [];
    }

    /** `len`: the current length of a section. */
    function Len(section: Section): (n: nat)
      reads this
      ensures n == |Contents(section)|
      ensures section == Data ==> n == |data|
    {
      if section == Text then |text| else |data|
    }

    /** `push`: one byte appended to the chosen section; the other section is untouched. */
    method Push(section: Section, b: byte)
      modifies this
      ensures Contents(section) == old(Contents(section)) + [b]
      ensures section == Text ==> data == old(data)
      ensures section == Data ==> text == old(text)
    {
      if section == Text {
        text := text + [b];
      } else {
        data := data + [b];
      }
    }

    /** `extend`: the bytes appended, in order, to the chosen section only. */
    method Extend(section: Section, bs: seq<byte>)
      modifies this
      ensures Contents(section) == old(Contents(section)) + bs
      ensures section == Text ==> data == old(data)
      ensures section == Data ==> text == old(text)
    {
      if section == Text {
        text := text + bs;
      } else {
        data := data + bs;
      }
    }

    /**
     * `write_u8_at`, `write_u16_at`, `write_u32_at` and `write_u64_at`:
     * the n-byte little-endian form of `value` replaces the bytes at
     * `offset`. The source panics when the range runs past the section's
     * end; the precondition excludes that.
     */
    method WriteAt(section: Section, offset: nat, n: nat, value: nat)
      requires n in {1, 2, 4, 8} && value < Pow256(n)
      requires offset + n <= |Contents(section)|
      modifies this
      ensures Contents(section) == Overwrite(old(Contents(section)), offset, LittleEndian(value, n))
      ensures section == Text ==> data == old(data)
      ensures section == Data ==> text == old(text)
    {
      if section == Text {
        text := Overwrite(text, offset, LittleEndian(value, n));
      } else {
        data := Overwrite(data, offset, LittleEndian(value, n));
      }
    }

    /** `finalize`: the text section followed by the data section. */
    method Finalize() returns (out: seq<byte>)
      ensures out == text + data
      ensures |out| == |text| + |data| && out[..|text|] == text && out[|text|..] == data
    {
      out := text + data;
    }
  }
}
