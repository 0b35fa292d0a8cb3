/** Diffie-Hellman, the key encapsulation mechanism and the verifier of prekey signatures, as
    parameters with correctness laws. */
module KeyAgreement {
  import opened Core
  import opened Bytes

  datatype KeyRoutines = KeyRoutines(
    dhPublic: seq<byte> -> seq<byte>,
    dh: (seq<byte>, seq<byte>) -> seq<byte>,
    kemSecret: seq<byte> -> bool,
    kemPublic: seq<byte> -> seq<byte>,
    encapsulate: (seq<byte>, seq<byte>) -> Option<(seq<byte>, seq<byte>)>,
    decapsulate: (seq<byte>, seq<byte>) -> Option<seq<byte>>,
    verify: (seq<byte>, seq<byte>, seq<byte>) -> bool)

  ghost predicate DhLaws(k: KeyRoutines) {
    && (forall a, b :: k.dh(a, k.dhPublic(b)) == k.dh(b, k.dhPublic(a)))
    && (forall a, p :: |k.dh(a, p)| == 32)
  }

  /** Decapsulation undoes encapsulation; a well-formed secret key gives some secret for every
      ciphertext, also for one meant for another key; and shared secrets have 32 bytes. */
  ghost predicate KemLaws(k: KeyRoutines) {
    && (forall sk, coins :: k.encapsulate(k.kemPublic(sk), coins).Some? ==>
          var (ct, ss) := k.encapsulate(k.kemPublic(sk), coins).value; k.decapsulate(sk, ct) == Some(ss))
    && (forall sk, pk, coins :: k.kemSecret(sk) && k.encapsulate(pk, coins).Some? ==>
          k.decapsulate(sk, k.encapsulate(pk, coins).value.0).Some?)
    && (forall pk, coins :: k.encapsulate(pk, coins).Some? ==> |k.encapsulate(pk, coins).value.1| == 32)
    && (forall sk, ct :: k.decapsulate(sk, ct).Some? ==> |k.decapsulate(sk, ct).value| == 32)
  }

  ghost const sampleKeys: KeyRoutines := KeyRoutines(
    sk => sk, (a, p) => seq(32, _ => 0), sk => true, sk => sk,
    (pk, coins) => Some((coins, seq(32, _ => 0))), (sk, ct) => Some(seq(32, _ => 0)), (pk, m, s) => true)

  type Keys = k: KeyRoutines | DhLaws(k) && KemLaws(k) ghost witness sampleKeys

  datatype KeyPair = KeyPair(public: seq<byte>, secret: seq<byte>)
}
