/** Octets, fixed-width integers and big-endian encodings (`to_be_bytes` / `from_be_bytes`). */
module Bytes {
  import opened Modular

  type byte = b: int | 0 <= b < 0x100
  type u16 = n: int | 0 <= n < 0x1_0000
  type u32 = n: int | 0 <= n < 0x1_0000_0000
  type u64 = n: int | 0 <= n < 0x1_0000_0000_0000_0000

  const U16_MAX: u16 := 0xFFFF
  const U64_MAX: u64 := 0xFFFF_FFFF_FFFF_FFFF

  function Pow256(n: nat): (r: nat)
    ensures r > 0
  {
    if n == 0 then 1 else 256 * Pow256(n - 1)
  }

  function FromBigEndian(s: seq<byte>): nat {
    if s == [] then 0 else 256 * FromBigEndian(s[..|s| - 1]) + s[|s| - 1]
  }

  lemma {:induction false} FromBigEndianBound(s: seq<byte>)
    ensures FromBigEndian(s) < Pow256(|s|)
  {
    if s != [] {
      FromBigEndianBound(s[..|s| - 1]);
    }
  }

  // Fixed widths, written out so that they stay cheap to reason about.

  function Be16(v: u16): (r: seq<byte>)
    ensures |r| == 2
  {
    [v / 0x100, v % 0x100]
  }

  function FromBe16(s: seq<byte>): (v: u16)
    requires |s| == 2
    ensures Be16(v) == s
  {
    var hi: int := s[0];
    hi * 0x100 + s[1]
  }

  function Be32(v: u32): (r: seq<byte>)
    ensures |r| == 4
  {
    Be16(v / 0x1_0000) + Be16(v % 0x1_0000)
  }

  function FromBe32(s: seq<byte>): (v: u32)
    requires |s| == 4
    ensures Be32(v) == s
  {
    var hi: int := FromBe16(s[..2]);
    var lo: int := FromBe16(s[2..]);
    DivModUnique(hi * 0x1_0000 + lo, 0x1_0000, hi, lo);
    assert s == s[..2] + s[2..];
    hi * 0x1_0000 + lo
  }

  function Be64(v: u64): (r: seq<byte>)
    ensures |r| == 8
  {
    Be32(v / 0x1_0000_0000) + Be32(v % 0x1_0000_0000)
  }

  function FromBe64(s: seq<byte>): (v: u64)
    requires |s| == 8
    ensures Be64(v) == s
  {
    var hi: int := FromBe32(s[..4]);
    var lo: int := FromBe32(s[4..]);
    DivModUnique(hi * 0x1_0000_0000 + lo, 0x1_0000_0000, hi, lo);
    assert s == s[..4] + s[4..];
    hi * 0x1_0000_0000 + lo
  }

  lemma Be16RoundTrip(v: u16)
    ensures FromBe16(Be16(v)) == v
  {
  }

  lemma Be32RoundTrip(v: u32)
    ensures FromBe32(Be32(v)) == v
  {
  }

  lemma Be64RoundTrip(v: u64)
    ensures FromBe64(Be64(v)) == v
  {
  }

  lemma Be64Injective(v: u64, w: u64)
    requires Be64(v) == Be64(w)
    ensures v == w
  {
    Be64RoundTrip(v);
    Be64RoundTrip(w);
  }

  /** Concatenations with equally long heads are equal only part by part. */
  lemma SplitAt<T>(a: seq<T>, b: seq<T>, a': seq<T>, b': seq<T>)
    requires a + b == a' + b'
    requires |a| == |a'| || |b| == |b'|
    ensures a == a' && b == b'
  {
    assert |a| == |a'| by { assert |a + b| == |a' + b'|; }
    assert a == (a + b)[..|a|] && a' == (a' + b')[..|a|];
    assert b == (a + b)[|a|..] && b' == (a' + b')[|a|..];
  }

  /** A concatenation whose cut is known gives its parts back. */
  lemma ConcatParts(a: seq<byte>, b: seq<byte>, a': seq<byte>, b': seq<byte>)
    requires a + b == a' + b' && (|a| == |a'| || |b| == |b'|)
    ensures a == a' && b == b'
  {
    assert a == (a + b)[..|a|] && b == (a + b)[|a|..];
    assert a' == (a' + b')[..|a|] && b' == (a' + b')[|a|..];
  }
}
