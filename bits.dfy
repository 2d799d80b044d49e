/**
 * Fixed-width unsigned integers and their little-endian byte encodings,
 * shared by the memory, the register file, the bytecode buffer and the
 * compiler.
 */
module Bits {
  type byte = x: int | 0 <= x < 0x100
  type u16 = x: int | 0 <= x < 0x1_0000
  type u32 = x: int | 0 <= x < 0x1_0000_0000
  type u64 = x: int | 0 <= x < 0x1_0000_0000_0000_0000

  const U64_LIMIT: nat := 0x1_0000_0000_0000_0000
  const I64_MIN: int := -0x8000_0000_0000_0000
  const I64_MAX: int := 0x7FFF_FFFF_FFFF_FFFF

  /** A signed 64-bit integer, as the parser's integer literals hold. */
  type i64 = x: int | I64_MIN <= x <= I64_MAX

  /** 256^n, the number of values that fit in n bytes. */
  function Pow256(n: nat): (r: nat)
    ensures r >= 1
  {
    if n == 0 then 1 else 256 * Pow256(n - 1)
  }

  lemma Pow256Values()
    ensures Pow256(1) == 0x100 && Pow256(2) == 0x1_0000
    ensures Pow256(4) == 0x1_0000_0000 && Pow256(8) == U64_LIMIT
  {
    assert Pow256(1) == 256;
    assert Pow256(2) == 256 * 256;
    assert Pow256(3) == 256 * 256 * 256;
    assert Pow256(4) == 0x1_0000_0000;
    assert Pow256(5) == 0x100_0000_0000;
    assert Pow256(6) == 0x1_0000_0000_0000;
    assert Pow256(7) == 0x100_0000_0000_0000;
  }

  /** `v` truncated to its low `n` bytes, as an `as uN` cast does. */
  function Truncate(v: nat, n: nat): (r: nat)
    ensures r < Pow256(n)
  {
    v % Pow256(n)
  }

  /** The low `n` bytes of `v`, least significant first (`to_le_bytes`). */
  function LittleEndian(v: nat, n: nat): (r: seq<byte>)
    ensures |r| == n
  {
    if n == 0 then [] else [v % 256] + LittleEndian(v / 256, n - 1)
  }

  /** The number whose little-endian bytes are `bs` (`from_le_bytes`). */
  function FromLittleEndian(bs: seq<byte>): (r: nat)
    ensures r < Pow256(|bs|)
  {
    if bs == [] then 0 else bs[0] + 256 * FromLittleEndian(bs[1..])
  }

  /** Division by `m` has a unique quotient and remainder. */
  lemma DivModUnique(v: int, m: int, q: int, s: int)
    requires m > 0 && v == m * q + s && 0 <= s < m
    ensures v / m == q && v % m == s
  {
    var q0, s0 := v / m, v % m;
    var d := q - q0;
    assert m * q - m * q0 == m * d;
    assert m * d == s0 - s;
    if d > 0 {
      MulAtLeast(m, d);
    } else if d < 0 {
      MulAtLeast(m, -d);
    }
  }

  lemma MulAtLeast(m: int, d: int)
    requires m > 0 && d > 0
    ensures m * d >= m
  {
    assert m * d == m * (d - 1) + m;
  }

  /** Splitting a remainder modulo a product of two moduli. */
  lemma ModProduct(v: nat, a: nat, b: nat)
    requires a > 0 && b > 0
    ensures v % (a * b) == v % a + a * ((v / a) % b)
  {
    var q := v / a;
    var inner := q % b;
    assert q == b * (q / b) + inner;
    assert v == a * q + v % a;
    calc {
      v;
      a * (b * (q / b) + inner) + v % a;
      (a * b) * (q / b) + (v % a + a * inner);
    }
    assert a * inner <= a * (b - 1);
    DivModUnique(v, a * b, q / b, v % a + a * inner);
  }

  /** Truncating to a width after truncating to a wider one. */
  lemma ModOfMod(v: nat, a: nat, b: nat)
    requires a > 0 && b > 0
    ensures (v % (a * b)) % a == v % a
  {
    ModProduct(v, a, b);
    DivModUnique(v % (a * b), a, (v / a) % b, v % a);
  }

  /** Decoding an encoding gives back the value truncated to `n` bytes. */
  lemma {:induction false} DecodeEncode(v: nat, n: nat)
    ensures FromLittleEndian(LittleEndian(v, n)) == Truncate(v, n)
  {
    if n > 0 {
      var bs := LittleEndian(v, n);
      assert bs[1..] == LittleEndian(v / 256, n - 1);
      DecodeEncode(v / 256, n - 1);
      ModProduct(v, 256, Pow256(n - 1));
    }
  }

  /** Encoding a decoded byte string gives back the byte string. */
  lemma {:induction false} EncodeDecode(bs: seq<byte>)
    ensures LittleEndian(FromLittleEndian(bs), |bs|) == bs
  {
    if bs != [] {
      var v := FromLittleEndian(bs);
      DivModUnique(v, 256, FromLittleEndian(bs[1..]), bs[0]);
      EncodeDecode(bs[1..]);
    }
  }

  /** Only the low `n` bytes of a value reach its encoding. */
  lemma {:induction false} EncodeTruncated(v: nat, n: nat)
    ensures LittleEndian(Truncate(v, n), n) == LittleEndian(v, n)
  {
    DecodeEncode(v, n);
    EncodeDecode(LittleEndian(v, n));
    DecodeEncode(Truncate(v, n), n);
    assert Truncate(Truncate(v, n), n) == Truncate(v, n);
    EncodeDecode(LittleEndian(Truncate(v, n), n));
  }

  /**
   * The two's-complement bit pattern of a signed 64-bit integer (`i64 as u64`):
   * the value reduced modulo 2^64, whose top bit is set exactly for a negative value.
   */
  function I64Bits(x: int): (r: u64)
    requires I64_MIN <= x <= I64_MAX
    ensures r == x % U64_LIMIT
    ensures x < 0 <==> r > I64_MAX
  {
    if x < 0 then x + U64_LIMIT else x
  }

  /** The signed 64-bit integer with bit pattern `u` (`u64 as i64`). */
  function I64FromBits(u: u64): (r: int)
    ensures I64_MIN <= r <= I64_MAX
    ensures I64Bits(r) == u
  {
    if u > I64_MAX then u - U64_LIMIT else u
  }

  lemma I64BitsInjective(x: int, y: int)
    requires I64_MIN <= x <= I64_MAX && I64_MIN <= y <= I64_MAX
    requires I64Bits(x) == I64Bits(y)
    ensures x == y
  {
  }
}
