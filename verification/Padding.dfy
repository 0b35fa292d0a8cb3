/** ISO 7816-4 padding of plaintexts to a multiple of a block size. */
module Padding {
  import opened Core
  import opened Bytes
  import opened Modular

  const PADDING_BLOCK_SIZE: nat := 256

  function Zeros(n: nat): (z: seq<byte>)
    ensures |z| == n && forall i :: 0 <= i < n ==> z[i] == 0
  {
    seq(n, _ => 0)
  }

  /** s is x, the delimiter 0x80, and nothing but zero bytes. */
  ghost predicate IsPaddingOf(s: seq<byte>, x: seq<byte>) {
    |s| > |x| && s == x + [0x80] + Zeros(|s| - |x| - 1)
  }

  function PaddedLength(len: nat, block: nat): nat
    requires block > 0
  {
    (len / block + 1) * block
  }

  /** The padded length is the least multiple of the block that is longer than the input. */
  lemma PaddedLengthIsLeast(len: nat, block: nat, other: nat)
    requires block > 0
    ensures PaddedLength(len, block) % block == 0
    ensures len < PaddedLength(len, block) <= len + block
    ensures other % block == 0 && other > len ==> other >= PaddedLength(len, block)
  {
    var q := len / block;
    assert len == q * block + len % block;
    assert PaddedLength(len, block) == q * block + block;
    MultipleModulo(q + 1, block);
    if other % block == 0 && other > len {
      var k := other / block;
      assert other == k * block;
      if k <= q {
        MulMonotone(k, q, block);
        assert false;
      }
      MulMonotone(q + 1, k, block);
    }
  }

  function Pad(x: seq<byte>, block: nat): (s: seq<byte>)
    requires block > 0
    ensures |s| == PaddedLength(|x|, block) && IsPaddingOf(s, x)
  {
    PaddedLengthIsLeast(|x|, block, 0);
    x + [0x80] + Zeros(PaddedLength(|x|, block) - |x| - 1)
  }

  /** What the backward scan finds. */
  function Unpad(s: seq<byte>): Result<seq<byte>> {
    if s == [] then Err(MessageParsing)
    else if s[|s| - 1] == 0x80 then Ok(s[..|s| - 1])
    else if s[|s| - 1] == 0x00 then Unpad(s[..|s| - 1])
    else Err(MessageParsing)
  }

  method PadPlaintext(x: seq<byte>, block: nat) returns (out: seq<byte>)
    requires block > 0
    ensures out == Pad(x, block)
    ensures |out| % block == 0 && |x| < |out| <= |x| + block
  {
    PaddedLengthIsLeast(|x|, block, 0);
    var paddedLen := (|x| / block + 1) * block;
    out := [];
    out := out + x;
    out := out + [0x80];
    while |out| < paddedLen
      invariant |x| < |out| <= paddedLen
      invariant out == x + [0x80] + Zeros(|out| - |x| - 1)
    {
      out := out + [0x00];
    }
  }

  method UnpadPlaintext(padded: seq<byte>) returns (r: Result<seq<byte>>)
    ensures r == Unpad(padded)
    ensures r.Ok? ==> IsPaddingOf(padded, r.value)
    ensures r.Err? ==> forall x :: !IsPaddingOf(padded, x)
  {
    UnpadMeaning(padded);
    var i := |padded|;
    assert padded[..i] == padded;
    while i > 0
      invariant 0 <= i <= |padded|
      invariant Unpad(padded[..i]) == Unpad(padded)
    {
      i := i - 1;
      assert padded[..i + 1][..i] == padded[..i];
      if padded[i] == 0x80 {
        return Ok(padded[..i]);
      } else if padded[i] != 0x00 {
        return Err(MessageParsing);
      }
    }
    r := Err(MessageParsing);
  }

  /** Unpadding accepts s exactly when s is x ++ 0x80 ++ zeros, and then returns that x. */
  lemma {:induction false} UnpadAccepts(s: seq<byte>, x: seq<byte>)
    ensures Unpad(s) == Ok(x) <==> IsPaddingOf(s, x)
  {
    if s != [] {
      var t := s[..|s| - 1];
      assert s == t + [s[|s| - 1]];
      UnpadAccepts(t, x);
      if |x| + 1 < |s| {
        assert IsPaddingOf(s, x) <==> IsPaddingOf(t, x) && s[|s| - 1] == 0 by {
          if IsPaddingOf(s, x) {
            assert t == x + [0x80] + Zeros(|t| - |x| - 1);
          }
          if IsPaddingOf(t, x) && s[|s| - 1] == 0 {
            assert s == x + [0x80] + Zeros(|s| - |x| - 1);
          }
        }
      } else if |x| + 1 == |s| {
        assert IsPaddingOf(s, x) <==> s == x + [0x80];
      }
    }
  }

  lemma UnpadMeaning(s: seq<byte>)
    ensures Unpad(s).Ok? ==> IsPaddingOf(s, Unpad(s).value)
    ensures Unpad(s).Err? ==> forall x :: !IsPaddingOf(s, x)
  {
    if Unpad(s).Ok? {
      UnpadAccepts(s, Unpad(s).value);
    } else {
      forall x ensures !IsPaddingOf(s, x) { UnpadAccepts(s, x); }
    }
  }

  /** Unpadding undoes padding for every input and every block size. */
  lemma UnpadOfPad(x: seq<byte>, block: nat)
    requires block > 0
    ensures Unpad(Pad(x, block)) == Ok(x)
  {
    UnpadAccepts(Pad(x, block), x);
  }
}
