/** Rust strings, given by their UTF-8 bytes: well-formedness, trimming, digits and the
    bytewise order. */
module Text {
  import opened Bytes

  predicate Cont(b: byte) {
    0x80 <= b <= 0xBF
  }

  /** Length of the well-formed character at the head of s, or 0 if there is none
      (Table 3-7 of the Unicode Standard). */
  function CharLen(s: seq<byte>): (n: nat)
    ensures n <= |s|
  {
    if s == [] then 0
    else if s[0] <= 0x7F then 1
    else if 0xC2 <= s[0] <= 0xDF then
      if |s| >= 2 && Cont(s[1]) then 2 else 0
    else if 0xE0 <= s[0] <= 0xEF then
      if |s| >= 3 && Cont(s[1]) && Cont(s[2])
         && (s[0] == 0xE0 ==> s[1] >= 0xA0) && (s[0] == 0xED ==> s[1] <= 0x9F) then 3 else 0
    else if 0xF0 <= s[0] <= 0xF4 then
      if |s| >= 4 && Cont(s[1]) && Cont(s[2]) && Cont(s[3])
         && (s[0] == 0xF0 ==> s[1] >= 0x90) && (s[0] == 0xF4 ==> s[1] <= 0x8F) then 4 else 0
    else 0
  }

  predicate ValidUtf8(s: seq<byte>)
    decreases |s|
  {
    s == [] || (CharLen(s) > 0 && ValidUtf8(s[CharLen(s)..]))
  }

  /** A string is the sequence of its UTF-8 bytes. */
  type Str = seq<byte>

  predicate Ascii(s: seq<byte>) {
    forall i :: 0 <= i < |s| ==> s[i] <= 0x7F
  }

  lemma {:induction false} AsciiIsUtf8(s: seq<byte>)
    requires Ascii(s)
    ensures ValidUtf8(s)
    decreases |s|
  {
    if s != [] {
      AsciiIsUtf8(s[1..]);
    }
  }

  /** Length of the white-space character (Unicode White_Space) at the head of s, or 0. */
  function WhiteLen(s: seq<byte>): (n: nat)
    ensures n <= |s|
  {
    if |s| >= 1 && (0x09 <= s[0] <= 0x0D || s[0] == 0x20) then 1
    else if |s| >= 2 && s[0] == 0xC2 && (s[1] == 0x85 || s[1] == 0xA0) then 2
    else if |s| >= 3
         && (|| (s[0] == 0xE1 && s[1] == 0x9A && s[2] == 0x80)
             || (s[0] == 0xE2 && s[1] == 0x80 && (0x80 <= s[2] <= 0x8A || s[2] == 0xA8 || s[2] == 0xA9 || s[2] == 0xAF))
             || (s[0] == 0xE2 && s[1] == 0x81 && s[2] == 0x9F)
             || (s[0] == 0xE3 && s[1] == 0x80 && s[2] == 0x80)) then 3
    else 0
  }

  function TrimStart(s: seq<byte>): seq<byte>
    decreases |s|
  {
    if WhiteLen(s) == 0 then s else TrimStart(s[WhiteLen(s)..])
  }

  function TrimEnd(s: seq<byte>): seq<byte>
    decreases |s|
  {
    if |s| >= 1 && WhiteLen(s[|s| - 1..]) == 1 then TrimEnd(s[..|s| - 1])
    else if |s| >= 2 && WhiteLen(s[|s| - 2..]) == 2 then TrimEnd(s[..|s| - 2])
    else if |s| >= 3 && WhiteLen(s[|s| - 3..]) == 3 then TrimEnd(s[..|s| - 3])
    else s
  }

  /** Without leading and trailing white space. */
  function Trim(s: seq<byte>): seq<byte> {
    TrimEnd(TrimStart(s))
  }

  predicate IsHexDigit(b: byte) {
    0x30 <= b <= 0x39 || 0x41 <= b <= 0x46 || 0x61 <= b <= 0x66
  }

  predicate AllHex(s: seq<byte>) {
    forall i :: 0 <= i < |s| ==> IsHexDigit(s[i])
  }

  function HexDigit(d: int): (b: byte)
    requires 0 <= d < 16
    ensures IsHexDigit(b)
  {
    if d < 10 then 0x30 + d else 0x61 + (d - 10)
  }

  function HexValue(b: byte): (d: int)
    requires IsHexDigit(b)
    ensures 0 <= d < 16
  {
    if b <= 0x39 then b - 0x30 else if b <= 0x46 then b - 0x41 + 10 else b - 0x61 + 10
  }

  /** ASCII capitals in lower case. */
  function Lower(b: byte): byte {
    if 0x41 <= b <= 0x5A then b + 0x20 else b
  }

  function Lowered(s: Str): Str {
    seq(|s|, i requires 0 <= i < |s| => Lower(s[i]))
  }

  /** Two lower-case hexadecimal digits per byte. */
  function HexEncode(s: seq<byte>): (r: Str)
    ensures |r| == 2 * |s| && Ascii(r) && AllHex(r)
  {
    if s == [] then []
    else [HexDigit(s[0] / 16), HexDigit(s[0] % 16)] + HexEncode(s[1..])
  }

  /** Decimal digits of v, most significant first, no leading zero. */
  function Decimal(v: nat): (r: seq<byte>)
    ensures |r| >= 1 && forall i :: 0 <= i < |r| ==> 0x30 <= r[i] <= 0x39
  {
    if v < 10 then [0x30 + v] else Decimal(v / 10) + [0x30 + v % 10]
  }

  lemma {:induction false} DecimalInjective(v: nat, w: nat)
    requires Decimal(v) == Decimal(w)
    ensures v == w
  {
    var dv, dw := Decimal(v), Decimal(w);
    assert dv[|dv| - 1] == 0x30 + v % 10 && dw[|dw| - 1] == 0x30 + w % 10;
    if v >= 10 && w >= 10 {
      assert Decimal(v / 10) == dv[..|dv| - 1] && Decimal(w / 10) == dw[..|dw| - 1];
      DecimalInjective(v / 10, w / 10);
    }
  }

  /** Bytewise lexicographic order (`str::cmp`), strict part. */
  predicate Less(a: seq<byte>, b: seq<byte>)
    decreases |a|
  {
    b != [] && (a == [] || a[0] < b[0] || (a[0] == b[0] && Less(a[1..], b[1..])))
  }

  lemma LessIrreflexive(a: seq<byte>)
    ensures !Less(a, a)
    decreases |a|
  {
  }

  lemma {:induction false} LessTransitive(a: seq<byte>, b: seq<byte>, c: seq<byte>)
    requires Less(a, b) && Less(b, c)
    ensures Less(a, c)
    decreases |a|
  {
    if a != [] && a[0] == b[0] && b[0] == c[0] {
      LessTransitive(a[1..], b[1..], c[1..]);
    }
  }

  lemma {:induction false} LessTotal(a: seq<byte>, b: seq<byte>)
    ensures Less(a, b) || a == b || Less(b, a)
    decreases |a|
  {
    if a != [] && b != [] && a[0] == b[0] {
      LessTotal(a[1..], b[1..]);
      assert a == [a[0]] + a[1..] && b == [b[0]] + b[1..];
    }
  }
}
