/** The library routines the messenger calls: Rust's string checks, SHA-256, HKDF,
    ChaCha20-Poly1305, Ed25519 and ML-DSA. They are parameters of the model: a value of type
    `Library` is any family of functions that obeys the laws below, and every theorem holds for
    all of them. Nothing about secrecy or unforgeability is assumed. */
module Library {
  import opened Core
  import opened Bytes
  import opened Text

  datatype Routines = Routines(
    utf8: seq<byte> -> bool,
    trim: Str -> Str,
    sha256: seq<byte> -> seq<byte>,
    hkdf: (seq<byte>, seq<byte>) -> seq<byte>,
    seal: (seq<byte>, seq<byte>, seq<byte>, seq<byte>) -> seq<byte>,
    open: (seq<byte>, seq<byte>, seq<byte>, seq<byte>) -> Option<seq<byte>>,
    edPublic: seq<byte> -> seq<byte>,
    edSign: (seq<byte>, seq<byte>) -> seq<byte>,
    edVerify: (seq<byte>, seq<byte>, seq<byte>) -> bool,
    pqPublic: seq<byte> -> seq<byte>,
    pqSign: (seq<byte>, seq<byte>) -> Option<seq<byte>>,
    pqVerify: (seq<byte>, seq<byte>, seq<byte>) -> bool
  ) {
    /** Nothing is left after trimming. */
    predicate blank(s: Str) {
      trim(s) == []
    }
  }

  /** ASCII is UTF-8, and hexadecimal digits are not white space. */
  ghost predicate StringLaws(l: Routines) {
    && (forall s :: Ascii(s) ==> l.utf8(s))
    && (forall s :: AllHex(s) ==> l.trim(s) == s)
  }

  /** Opening what was sealed under the same key, nonce and associated data gives it back. */
  ghost predicate OpensSealed(l: Routines) {
    forall k, n, a, p :: l.open(k, n, a, l.seal(k, n, a, p)) == Some(p)
  }

  /** Sealing adds a 16-byte tag. */
  ghost predicate TagLength(l: Routines) {
    forall k, n, a, p :: |l.seal(k, n, a, p)| == |p| + 16
  }

  /** A signature made with a secret key verifies under its public key. */
  ghost predicate SignatureLaws(l: Routines) {
    && (forall sk, m :: |l.edSign(sk, m)| == 64 && l.edVerify(l.edPublic(sk), m, l.edSign(sk, m)))
    && (forall sk :: |l.edPublic(sk)| == 32)
    && (forall sk, m :: l.pqSign(sk, m).Some? ==>
                          |l.pqSign(sk, m).value| > 0 && l.pqVerify(l.pqPublic(sk), m, l.pqSign(sk, m).value))
  }

  ghost predicate Lawful(l: Routines) {
    StringLaws(l) && OpensSealed(l) && TagLength(l) && SignatureLaws(l)
  }

  /** A small lawful family, so that the laws are not contradictory. */
  ghost const sample: Routines := Routines(
    s => ValidUtf8(s),
    s => Trim(s),
    s => [],
    (ikm, info) => [],
    (k, n, a, p) => p + seq(16, _ => 0),
    (k, n, a, c) => if |c| >= 16 then Some(c[..|c| - 16]) else None,
    sk => seq(32, _ => 0),
    (sk, m) => seq(64, _ => 0),
    (pk, m, s) => true,
    sk => [],
    (sk, m) => Some([0]),
    (pk, m, s) => true)

  lemma SampleIsLawful()
    ensures Lawful(sample)
  {
    forall s | Ascii(s) ensures sample.utf8(s) { AsciiIsUtf8(s); }
    forall s | AllHex(s) ensures sample.trim(s) == s {
      assert s != [] ==> WhiteLen(s[|s| - 1..]) == 0;
    }
    forall k, n, a, p ensures sample.open(k, n, a, sample.seal(k, n, a, p)) == Some(p) {
      assert (p + seq(16, _ => 0))[..|p|] == p;
    }
  }

  type Library = l: Routines | Lawful(l) ghost witness (SampleIsLawful(); sample)

  /** Any routines whose opening undoes sealing. */
  type Sealing = l: Routines | OpensSealed(l) ghost witness (SampleIsLawful(); sample)

  // ------------------------------------------------------------ routines that bind their inputs

  /** Sealing and key derivation as free constructors: what opens was sealed under that key, nonce and
      associated data; sealings and derived keys determine everything that went in. */
  ghost predicate BindingLaws(l: Routines) {
    && OpensSealed(l)
    && (forall k, n, a, c :: l.open(k, n, a, c).Some? ==> c == l.seal(k, n, a, l.open(k, n, a, c).value))
    && (forall k, n, a, p, k', n', a', p' :: l.seal(k, n, a, p) == l.seal(k', n', a', p') ==>
          k == k' && n == n' && a == a' && p == p')
    && (forall i, x, i', x' :: l.hkdf(i, x) == l.hkdf(i', x') ==> i == i' && x == x')
  }

  /** A self-delimiting encoding. */
  ghost function Delimited(s: seq<byte>): seq<byte> {
    if s == [] then [0] else [1, s[0]] + Delimited(s[1..])
  }

  lemma {:induction false} DelimitedInjective(a: seq<byte>, x: seq<byte>, b: seq<byte>, y: seq<byte>)
    requires Delimited(a) + x == Delimited(b) + y
    ensures a == b && x == y
  {
    var l, r := Delimited(a) + x, Delimited(b) + y;
    assert l[0] == r[0];
    if a == [] {
      assert l[1..] == x && r[1..] == y;
    } else {
      assert l[1] == a[0] && r[1] == b[0];
      assert l[2..] == Delimited(a[1..]) + x && r[2..] == Delimited(b[1..]) + y;
      DelimitedInjective(a[1..], x, b[1..], y);
    }
  }

  ghost function FreeSeal(k: seq<byte>, n: seq<byte>, a: seq<byte>, p: seq<byte>): seq<byte> {
    Delimited(k) + (Delimited(n) + (Delimited(a) + p))
  }

  lemma FreeSealInjective(k: seq<byte>, n: seq<byte>, a: seq<byte>, p: seq<byte>,
                          k': seq<byte>, n': seq<byte>, a': seq<byte>, p': seq<byte>)
    requires FreeSeal(k, n, a, p) == FreeSeal(k', n', a', p')
    ensures k == k' && n == n' && a == a' && p == p'
  {
    DelimitedInjective(k, Delimited(n) + (Delimited(a) + p), k', Delimited(n') + (Delimited(a') + p'));
    DelimitedInjective(n, Delimited(a) + p, n', Delimited(a') + p');
    DelimitedInjective(a, p, a', p');
  }

  ghost const freeSample: Routines := sample.(
    hkdf := (ikm, info) => Delimited(ikm) + info,
    seal := (k, n, a, p) => FreeSeal(k, n, a, p),
    open := (k, n, a, c) =>
      if exists p :: c == FreeSeal(k, n, a, p) then (var p :| c == FreeSeal(k, n, a, p); Some(p)) else None)

  lemma FreeSampleBinds()
    ensures BindingLaws(freeSample)
  {
    forall k, n, a, p ensures freeSample.open(k, n, a, freeSample.seal(k, n, a, p)) == Some(p) {
      var c := FreeSeal(k, n, a, p);
      var q := freeSample.open(k, n, a, c).value;
      FreeSealInjective(k, n, a, p, k, n, a, q);
    }
    forall k, n, a, p, k', n', a', p' | freeSample.seal(k, n, a, p) == freeSample.seal(k', n', a', p')
      ensures k == k' && n == n' && a == a' && p == p'
    {
      FreeSealInjective(k, n, a, p, k', n', a', p');
    }
    forall i, x, i', x' | freeSample.hkdf(i, x) == freeSample.hkdf(i', x') ensures i == i' && x == x' {
      DelimitedInjective(i, x, i', x');
    }
  }

  type Binding = l: Routines | BindingLaws(l) ghost witness (FreeSampleBinds(); freeSample)
}
