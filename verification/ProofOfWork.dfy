/** The registration proof of work: find the least counter whose digest starts with the
    requested number of zero bits. */
module ProofOfWork {
  import opened Core
  import opened Bytes
  import opened Modular
  import opened Text

  const MAX_BITS: byte := 26

  function Pow2(n: nat): (r: nat)
    ensures r > 0
  {
    if n == 0 then 1 else 2 * Pow2(n - 1)
  }

  /** Bitwise and. */
  function And(a: nat, b: nat): nat {
    if a == 0 || b == 0 then 0 else 2 * And(a / 2, b / 2) + (if a % 2 == 1 && b % 2 == 1 then 1 else 0)
  }

  /** All ones shifted left in a byte; what is shifted out is lost. */
  function Mask(r: nat): nat
    requires 1 <= r <= 7
  {
    0xFF * Pow2(8 - r) % 0x100
  }

  predicate MaskedZero(b: byte, r: nat)
    requires 1 <= r <= 7
  {
    And(b, Mask(r)) == 0
  }

  /** The byte-and-mask test, for a bit count that fits a byte. */
  predicate HasLeadingZeroBits(s: seq<byte>, bits: byte) {
    if bits == 0 then true
    else
      var full, rest := bits / 8, bits % 8;
      && |s| >= full
      && (forall i :: 0 <= i < full ==> s[i] == 0)
      && (rest == 0 || (|s| > full && MaskedZero(s[full], rest)))
  }

  // ------------------------------------------------------------ the test is a numeric bound

  lemma SmallPowers()
    ensures Pow2(1) == 2 && Pow2(2) == 4 && Pow2(3) == 8 && Pow2(4) == 16 && Pow2(5) == 32 && Pow2(6) == 64
            && Pow2(7) == 128
    ensures Pow2(8) == 256
  {
  }

  lemma {:induction false} AndOnes(a: nat, r: nat)
    requires a < Pow2(r)
    ensures And(a, Pow2(r) - 1) == a
  {
    if a > 0 {
      assert (Pow2(r) - 1) / 2 == Pow2(r - 1) - 1 && (Pow2(r) - 1) % 2 == 1;
      AndOnes(a / 2, r - 1);
    }
  }

  lemma AndEven(a: nat, m: nat)
    ensures And(a, 2 * m) == 2 * And(a / 2, m)
  {
  }

  /** Keeping only bits k and above, of r + k bits, leaves zero exactly for numbers below 2^k. */
  lemma {:induction false} AndHigh(a: nat, r: nat, k: nat, mask: nat, bound: nat)
    requires mask == (Pow2(r) - 1) * Pow2(k) && a < bound == Pow2(r) * Pow2(k)
    ensures And(a, mask) == 0 <==> a < Pow2(k)
    decreases k
  {
    if k == 0 {
      AndOnes(a, r);
    } else {
      var m, b := (Pow2(r) - 1) * Pow2(k - 1), Pow2(r) * Pow2(k - 1);
      Doubled(Pow2(r) - 1, Pow2(k - 1));
      Doubled(Pow2(r), Pow2(k - 1));
      AndEven(a, m);
      AndHigh(a / 2, r, k - 1, m, b);
    }
  }

  lemma Doubled(x: nat, y: nat)
    ensures x * (2 * y) == 2 * (x * y) && x * y >= 0
  {
  }

  /** Masking off the r high bits leaves zero exactly for numbers below 2^(8 - r). */
  lemma MaskMeaning(b: byte, r: nat)
    requires 1 <= r <= 7
    ensures MaskedZero(b, r) <==> b < Pow2(8 - r)
  {
    SmallPowers();
    assert Mask(r) == (Pow2(r) - 1) * Pow2(8 - r) && Pow2(r) * Pow2(8 - r) == 256;
    AndHigh(b, r, 8 - r, Mask(r), 256);
  }

  lemma {:induction false} Pow2Add(a: nat, b: nat)
    ensures Pow2(a + b) == Pow2(a) * Pow2(b)
  {
    if a > 0 {
      Pow2Add(a - 1, b);
      assert Pow2(a + b) == 2 * (Pow2(a - 1) * Pow2(b));
      assert 2 * (Pow2(a - 1) * Pow2(b)) == (2 * Pow2(a - 1)) * Pow2(b);
    }
  }

  lemma {:induction false} Pow2Monotone(a: nat, b: nat)
    requires a <= b
    ensures Pow2(a) <= Pow2(b)
  {
    if a < b { Pow2Monotone(a, b - 1); }
  }

  lemma {:induction false} Pow256IsPow2(n: nat)
    ensures Pow256(n) == Pow2(8 * n)
  {
    if n > 0 {
      Pow256IsPow2(n - 1);
      SmallPowers();
      Pow2Add(8, 8 * (n - 1));
      assert 8 + 8 * (n - 1) == 8 * n;
    }
  }

  lemma Regroup(a: int, p: int, t: int, last: int)
    ensures 256 * (a * p + t) + last == a * (256 * p) + (256 * t + last)
  {
  }

  /** The first byte is the most significant one. */
  lemma {:induction false} HeadValue(s: seq<byte>)
    requires s != []
    ensures FromBigEndian(s) == s[0] * Pow256(|s| - 1) + FromBigEndian(s[1..])
  {
    var init := s[..|s| - 1];
    if |s| == 1 {
      assert init == [] && s[1..] == [];
    } else {
      HeadValue(init);
      assert s[1..][..|s| - 2] == init[1..];
      Regroup(s[0], Pow256(|s| - 2), FromBigEndian(init[1..]), s[|s| - 1]);
    }
  }

  /** s, read as a big-endian number of 8 * |s| bits, has its top `bits` bits zero. */
  ghost predicate BelowTarget(s: seq<byte>, bits: nat) {
    bits <= 8 * |s| && FromBigEndian(s) < Pow2(8 * |s| - bits)
  }

  lemma BelowTargetByte(s: seq<byte>, bits: nat)
    requires s != [] && bits >= 8
    ensures BelowTarget(s, bits) <==> s[0] == 0 && BelowTarget(s[1..], bits - 8)
  {
    var tail := s[1..];
    HeadValue(s);
    FromBigEndianBound(tail);
    Pow256IsPow2(|tail|);
    assert 8 * |s| - bits == 8 * |tail| - (bits - 8);
    if bits <= 8 * |s| && s[0] != 0 {
      Pow2Monotone(8 * |s| - bits, 8 * |tail|);
      MulMonotone(1, s[0], Pow256(|tail|));
    }
  }

  lemma BelowTargetBits(s: seq<byte>, bits: nat)
    requires s != [] && 1 <= bits <= 7
    ensures BelowTarget(s, bits) <==> s[0] < Pow2(8 - bits)
  {
    var tail := s[1..];
    var unit := Pow256(|tail|);
    HeadValue(s);
    FromBigEndianBound(tail);
    Pow256IsPow2(|tail|);
    Pow2Add(8 - bits, 8 * |tail|);
    assert 8 * |s| - bits == (8 - bits) + 8 * |tail|;
    Digit(s[0], FromBigEndian(tail), Pow2(8 - bits), unit);
  }

  /** A leading digit decides a comparison with a multiple of its unit. */
  lemma Digit(head: int, low: int, bound: int, unit: nat)
    requires 0 <= low < unit
    ensures head * unit + low < bound * unit <==> head < bound
  {
    if head < bound {
      MulMonotone(head + 1, bound, unit);
      assert (head + 1) * unit == head * unit + unit;
    } else {
      MulMonotone(bound, head, unit);
    }
  }

  lemma LeadingByte(s: seq<byte>, bits: byte)
    requires s != [] && bits >= 8
    ensures HasLeadingZeroBits(s, bits) <==> s[0] == 0 && HasLeadingZeroBits(s[1..], bits - 8)
  {
  }

  /** The byte-and-mask test is the numeric bound, for every byte string and bit count. */
  lemma {:induction false} LeadingZerosExact(s: seq<byte>, bits: byte)
    ensures HasLeadingZeroBits(s, bits) <==> BelowTarget(s, bits)
    decreases |s|
  {
    FromBigEndianBound(s);
    Pow256IsPow2(|s|);
    if bits == 0 || s == [] {
    } else if bits >= 8 {
      LeadingByte(s, bits);
      BelowTargetByte(s, bits);
      LeadingZerosExact(s[1..], bits - 8);
    } else {
      MaskMeaning(s[0], bits);
      BelowTargetBits(s, bits);
    }
  }

  // ------------------------------------------------------------ the search

  /** Lower-case hexadecimal without leading zeros. */
  function LowerHex(n: nat): (r: Str)
    ensures |r| >= 1
  {
    if n < 16 then [HexDigit(n)] else LowerHex(n / 16) + [HexDigit(n % 16)]
  }

  /** The number that hexadecimal digits stand for. */
  function HexNumber(s: Str): nat
    requires AllHex(s)
  {
    if s == [] then 0 else 16 * HexNumber(s[..|s| - 1]) + HexValue(s[|s| - 1])
  }

  /** The digits are those of n, lower-case, and start with a zero only for zero itself. */
  lemma {:induction false} LowerHexExact(n: nat)
    ensures var r := LowerHex(n);
            AllHex(r) && HexNumber(r) == n && Lowered(r) == r && (r[0] == 0x30 <==> n == 0)
  {
    if n >= 16 {
      LowerHexExact(n / 16);
      var r := LowerHex(n);
      assert r[..|r| - 1] == LowerHex(n / 16);
    }
  }

  datatype RegisterRequest = RegisterRequest(userId: Str, deviceId: Str, x25519: Str, sigPub: Str, pqSigPub: Str)

  /** The parts with a zero byte between neighbours. */
  function JoinNul(parts: seq<seq<byte>>): seq<byte> {
    if parts == [] then []
    else if |parts| == 1 then parts[0]
    else parts[0] + ([0] + JoinNul(parts[1..]))
  }

  function PowParts(r: RegisterRequest, nonce: Str): seq<seq<byte>> {
    [[0x72, 0x65, 0x67, 0x69, 0x73, 0x74, 0x65, 0x72], r.userId, r.deviceId, r.x25519, r.sigPub, r.pqSigPub, nonce]
  }

  function PowMessage(r: RegisterRequest, nonce: Str): seq<byte> {
    JoinNul(PowParts(r, nonce))
  }

  /** Counter c solves the request under the digest function. */
  ghost predicate Solves(digest: seq<byte> -> seq<byte>, r: RegisterRequest, bits: nat, c: nat) {
    BelowTarget(digest(PowMessage(r, LowerHex(c))), bits)
  }

  ghost predicate NoneBelow(digest: seq<byte> -> seq<byte>, r: RegisterRequest, bits: nat, c: nat) {
    forall d: nat :: d < c ==> !Solves(digest, r, bits, d)
  }

  /** The least solving 64-bit counter is c. */
  ghost predicate LeastSolution(digest: seq<byte> -> seq<byte>, r: RegisterRequest, bits: nat, c: nat) {
    c <= U64_MAX && Solves(digest, r, bits, c) && NoneBelow(digest, r, bits, c)
  }

  /** The counting loop: the least 64-bit counter that passes the test, if there is one. */
  method LeastCounter(test: nat -> bool) returns (found: Option<nat>)
    ensures found.Some? ==> found.value <= U64_MAX && test(found.value) && forall d: nat :: d < found.value ==> !test(d)
    ensures found.None? ==> forall d: nat :: d <= U64_MAX ==> !test(d)
  {
    var counter: u64 := 0;
    while true
      invariant forall d: nat :: d < counter ==> !test(d)
      decreases U64_MAX - counter
    {
      if test(counter) {
        return Some(counter);
      }
      if counter == U64_MAX {
        return None;
      }
      counter := counter + 1;
    }
  }

  lemma TestIsSolves(digest: seq<byte> -> seq<byte>, r: RegisterRequest, bits: byte, c: nat)
    ensures HasLeadingZeroBits(digest(PowMessage(r, LowerHex(c))), bits) <==> Solves(digest, r, bits, c)
  {
    LeadingZerosExact(digest(PowMessage(r, LowerHex(c))), bits);
  }

  lemma ZeroBits(digest: seq<byte> -> seq<byte>, r: RegisterRequest)
    ensures LeastSolution(digest, r, 0, 0) && LowerHex(0) == [0x30]
  {
    TestIsSolves(digest, r, 0, 0);
  }

  /** The search returns the least solving counter in hexadecimal; it fails exactly when more than
      26 bits are requested or no 64-bit counter solves the request. */
  method SolvePow(digest: seq<byte> -> seq<byte>, r: RegisterRequest, bits: byte) returns (nonce: Result<Str>)
    ensures bits > MAX_BITS ==> nonce.Err?
    ensures bits <= MAX_BITS && nonce.Ok? ==>
              exists c: nat :: LeastSolution(digest, r, bits, c) && nonce.value == LowerHex(c)
    ensures bits <= MAX_BITS && nonce.Err? ==> forall c: nat :: c <= U64_MAX ==> !Solves(digest, r, bits, c)
  {
    if bits == 0 {
      ZeroBits(digest, r);
      return Ok([0x30]);
    }
    if bits > MAX_BITS {
      return Err(PolicyViolation("too many bits"));
    }
    var test := (c: nat) => HasLeadingZeroBits(digest(PowMessage(r, LowerHex(c))), bits);
    var found := LeastCounter(test);
    forall c: nat ensures test(c) <==> Solves(digest, r, bits, c) {
      TestIsSolves(digest, r, bits, c);
    }
    if found.None? {
      return Err(PolicyViolation("nonce space exhausted"));
    }
    assert LeastSolution(digest, r, bits, found.value);
    nonce := Ok(LowerHex(found.value));
  }

  // ------------------------------------------------------------ the message fixes its parts

  predicate NulFree(parts: seq<seq<byte>>) {
    forall i :: 0 <= i < |parts| ==> 0 !in parts[i]
  }

  lemma NulFreePrefix(a: seq<byte>, x: seq<byte>, b: seq<byte>, y: seq<byte>)
    requires 0 !in b && a + ([0] + x) == b + ([0] + y)
    ensures |b| <= |a|
  {
    var s := b + ([0] + y);
    assert forall i :: 0 <= i < |b| ==> s[i] == b[i] && s[i] != 0;
    assert (a + ([0] + x))[|a|] == 0;
  }

  /** Equally many NUL-free parts are determined by their join. */
  lemma {:induction false} JoinNulInjective(a: seq<seq<byte>>, b: seq<seq<byte>>)
    requires |a| == |b| && NulFree(a) && NulFree(b) && JoinNul(a) == JoinNul(b)
    ensures a == b
  {
    if |a| == 1 {
      assert a == [a[0]] && b == [b[0]];
    } else if |a| > 1 {
      var x, y := JoinNul(a[1..]), JoinNul(b[1..]);
      NulFreePrefix(a[0], x, b[0], y);
      NulFreePrefix(b[0], y, a[0], x);
      SplitAt(a[0], [0] + x, b[0], [0] + y);
      SplitAt([0], x, [0], y);
      JoinNulInjective(a[1..], b[1..]);
      assert a == [a[0]] + a[1..] && b == [b[0]] + b[1..];
    }
  }

  /** For NUL-free fields the hashed message determines the request and the nonce. */
  lemma PowMessageInjective(r: RegisterRequest, n: Str, r': RegisterRequest, n': Str)
    requires NulFree(PowParts(r, n)) && NulFree(PowParts(r', n')) && PowMessage(r, n) == PowMessage(r', n')
    ensures r == r' && n == n'
  {
    var a, b := PowParts(r, n), PowParts(r', n');
    JoinNulInjective(a, b);
    assert a[1] == b[1] && a[2] == b[2] && a[3] == b[3] && a[4] == b[4] && a[5] == b[5] && a[6] == b[6];
  }
}
