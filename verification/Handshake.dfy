/** The hybrid handshake: both sides derive the session key from three or four Diffie-Hellman
    values and a KEM secret, and bind it to the header fields as associated data. */
module Handshake {
  import opened Core
  import opened Bytes
  import opened Text
  import opened Library
  import opened KeyAgreement
  import opened Tlv
  import opened GroupPackages
  import opened Contexts

  // ------------------------------------------------------------ data

  const PROTOCOL_VERSION_V1: u16 := 1
  const INFO_SK := Ascii7("pqmsg-pqxdh-v1")

  datatype KemAlgorithm = MlKem768 | Kyber768

  function SuiteId(kem: KemAlgorithm): u16 {
    match kem
    case MlKem768 => 1
    case Kyber768 => 2
  }

  predicate KnownSuite(id: u16) {
    id == 1 || id == 2
  }

  datatype Bundle = Bundle(
    protocolVersion: u16,
    kem: KemAlgorithm,
    ownerId: Str,
    identityKey: seq<byte>,
    signedPrekey: seq<byte>,
    pqSignedPrekey: seq<byte>,
    spkSignature: seq<byte>,
    pqspkSignature: seq<byte>,
    signatureKey: seq<byte>,
    oneTimePrekey: Option<seq<byte>>)

  datatype InitialMessage = InitialMessage(
    protocolVersion: u16,
    suiteId: u16,
    senderId: Str,
    recipientId: Str,
    ikA: seq<byte>,
    ekA: seq<byte>,
    pqCt: seq<byte>,
    pqRatchetPub: seq<byte>,
    nonce: seq<byte>,
    ciphertext: seq<byte>,
    otpkId: Option<Str>)

  datatype InitiatorOutput = InitiatorOutput(message: InitialMessage, sessionKey: seq<byte>)

  datatype ResponderOutput = ResponderOutput(plaintext: seq<byte>, sessionKey: seq<byte>)

  // ------------------------------------------------------------ message codec

  function HeaderRecords(m: InitialMessage): seq<TlvRecord> {
    [TlvRecord(CriticalType(0x0101), Be16(m.protocolVersion)),
     TlvRecord(CriticalType(0x0109), Be16(m.suiteId)),
     TlvRecord(CriticalType(0x0102), m.senderId),
     TlvRecord(CriticalType(0x0103), m.recipientId),
     TlvRecord(CriticalType(0x0104), m.ikA)]
  }

  function BodyRecords(m: InitialMessage): seq<TlvRecord> {
    [TlvRecord(CriticalType(0x0105), m.ekA),
     TlvRecord(CriticalType(0x0106), m.pqCt),
     TlvRecord(CriticalType(0x010B), m.pqRatchetPub),
     TlvRecord(CriticalType(0x0107), m.nonce),
     TlvRecord(CriticalType(0x0108), m.ciphertext)]
  }

  function MessageRecords(m: InitialMessage): seq<TlvRecord> {
    HeaderRecords(m) + BodyRecords(m) + OptionalRecord(CriticalType(0x010A), m.otpkId)
  }

  const KNOWN: set<u16> :=
    {CriticalType(0x0101), CriticalType(0x0109), CriticalType(0x0102), CriticalType(0x0103), CriticalType(0x0104),
     CriticalType(0x0105), CriticalType(0x0106), CriticalType(0x010B), CriticalType(0x0107), CriticalType(0x0108),
     CriticalType(0x010A)}

  function EncodeMessage(m: InitialMessage): Result<seq<byte>> {
    Encode(MessageRecords(m))
  }

  function RequireText(lib: Routines, rs: seq<TlvRecord>, ty: u16): Result<Str> {
    var v :- Require(rs, ty);
    if lib.utf8(v) then Ok(v) else Err(InvalidUtf8)
  }

  function RequireU16(rs: seq<TlvRecord>, ty: u16): Result<u16> {
    var v :- Require(rs, ty);
    if |v| == 2 then Ok(FromBe16(v)) else Err(InvalidLength)
  }

  function RequireWidth(rs: seq<TlvRecord>, ty: u16, width: nat): Result<seq<byte>> {
    var v :- Require(rs, ty);
    if |v| == width then Ok(v) else Err(InvalidLength)
  }

  function OptionalText(lib: Routines, rs: seq<TlvRecord>, ty: u16): Result<Option<Str>> {
    match Find(rs, ty)
    case None => Ok(None)
    case Some(v) => if lib.utf8(v) then Ok(Some(v)) else Err(InvalidUtf8)
  }

  function MessageOfRecords(lib: Routines, rs: seq<TlvRecord>): Result<InitialMessage> {
    var version :- RequireU16(rs, CriticalType(0x0101));
    var suiteId :- RequireU16(rs, CriticalType(0x0109));
    var senderId :- RequireText(lib, rs, CriticalType(0x0102));
    var recipientId :- RequireText(lib, rs, CriticalType(0x0103));
    var ikA :- RequireWidth(rs, CriticalType(0x0104), 32);
    var ekA :- RequireWidth(rs, CriticalType(0x0105), 32);
    var pqCt :- Require(rs, CriticalType(0x0106));
    var pqRatchetPub :- Require(rs, CriticalType(0x010B));
    var nonce :- RequireWidth(rs, CriticalType(0x0107), 12);
    var ciphertext :- Require(rs, CriticalType(0x0108));
    var otpkId :- OptionalText(lib, rs, CriticalType(0x010A));
    Ok(InitialMessage(version, suiteId, senderId, recipientId, ikA, ekA, pqCt, pqRatchetPub, nonce, ciphertext, otpkId))
  }

  function DecodeMessage(lib: Routines, input: seq<byte>): Result<InitialMessage> {
    var rs :- DecodeStrict(input, KNOWN);
    MessageOfRecords(lib, rs)
  }

  /** What the field types of the source guarantee: strings are strings, keys have 32 bytes, the
      nonce 12. */
  predicate Typed(lib: Routines, m: InitialMessage) {
    && lib.utf8(m.senderId) && lib.utf8(m.recipientId) && (m.otpkId.Some? ==> lib.utf8(m.otpkId.value))
    && |m.ikA| == 32 && |m.ekA| == 32 && |m.nonce| == 12
  }

  lemma MessageRecordsAdmissible(m: InitialMessage)
    ensures Admissible(MessageRecords(m), KNOWN, {})
  {
    assert Admissible(HeaderRecords(m), KNOWN, {});
    assert Admissible(BodyRecords(m), KNOWN, {});
    AdmissibleAppend(HeaderRecords(m), BodyRecords(m), KNOWN);
    AdmissibleAppend(HeaderRecords(m) + BodyRecords(m), OptionalRecord(CriticalType(0x010A), m.otpkId), KNOWN);
  }

  lemma FindHeader(m: InitialMessage, i: nat)
    requires i < 5
    ensures var r := HeaderRecords(m)[i]; Find(MessageRecords(m), r.ty) == Some(r.value)
  {
    var ty := HeaderRecords(m)[i].ty;
    FindAt(HeaderRecords(m), i);
    FindAppend(HeaderRecords(m), BodyRecords(m), ty);
    FindAppend(HeaderRecords(m) + BodyRecords(m), OptionalRecord(CriticalType(0x010A), m.otpkId), ty);
  }

  lemma FindBody(m: InitialMessage, i: nat)
    requires i < 5
    ensures var r := BodyRecords(m)[i]; Find(MessageRecords(m), r.ty) == Some(r.value)
  {
    var ty := BodyRecords(m)[i].ty;
    FindAt(BodyRecords(m), i);
    FindAbsent(HeaderRecords(m), ty);
    FindAppend(HeaderRecords(m), BodyRecords(m), ty);
    FindAppend(HeaderRecords(m) + BodyRecords(m), OptionalRecord(CriticalType(0x010A), m.otpkId), ty);
  }

  lemma FindOtpk(m: InitialMessage)
    ensures Find(MessageRecords(m), CriticalType(0x010A)) == m.otpkId
  {
    var ty := CriticalType(0x010A);
    FindAbsent(HeaderRecords(m), ty);
    FindAbsent(BodyRecords(m), ty);
    FindAppend(HeaderRecords(m), BodyRecords(m), ty);
    FindAppend(HeaderRecords(m) + BodyRecords(m), OptionalRecord(ty, m.otpkId), ty);
  }

  lemma HeaderReadBack(lib: Routines, m: InitialMessage)
    requires Typed(lib, m)
    ensures var rs := MessageRecords(m);
            && RequireU16(rs, CriticalType(0x0101)) == Ok(m.protocolVersion)
            && RequireU16(rs, CriticalType(0x0109)) == Ok(m.suiteId)
            && RequireText(lib, rs, CriticalType(0x0102)) == Ok(m.senderId)
            && RequireText(lib, rs, CriticalType(0x0103)) == Ok(m.recipientId)
            && RequireWidth(rs, CriticalType(0x0104), 32) == Ok(m.ikA)
  {
    FindHeader(m, 0);
    FindHeader(m, 1);
    FindHeader(m, 2);
    FindHeader(m, 3);
    FindHeader(m, 4);
    Be16RoundTrip(m.protocolVersion);
    Be16RoundTrip(m.suiteId);
  }

  lemma BodyReadBack(lib: Routines, m: InitialMessage)
    requires Typed(lib, m)
    ensures var rs := MessageRecords(m);
            && RequireWidth(rs, CriticalType(0x0105), 32) == Ok(m.ekA)
            && Require(rs, CriticalType(0x0106)) == Ok(m.pqCt)
            && Require(rs, CriticalType(0x010B)) == Ok(m.pqRatchetPub)
            && RequireWidth(rs, CriticalType(0x0107), 12) == Ok(m.nonce)
            && Require(rs, CriticalType(0x0108)) == Ok(m.ciphertext)
            && OptionalText(lib, rs, CriticalType(0x010A)) == Ok(m.otpkId)
  {
    FindBody(m, 0);
    FindBody(m, 1);
    FindBody(m, 2);
    FindBody(m, 3);
    FindBody(m, 4);
    FindOtpk(m);
  }

  /** Decoding undoes encoding, with and without the one-time prekey id. */
  lemma MessageRoundTrip(lib: Routines, m: InitialMessage)
    requires Typed(lib, m) && EncodeMessage(m).Ok?
    ensures DecodeMessage(lib, EncodeMessage(m).value) == Ok(m)
  {
    MessageRecordsAdmissible(m);
    DecodeOfEncode(MessageRecords(m), KNOWN, {});
    HeaderReadBack(lib, m);
    BodyReadBack(lib, m);
  }

  /** Whatever bytes decode, the message has its fields at their widths and re-encoding it reads back. */
  lemma DecodedIsTyped(lib: Routines, input: seq<byte>)
    requires DecodeMessage(lib, input).Ok?
    ensures var m := DecodeMessage(lib, input).value;
            Typed(lib, m) && (EncodeMessage(m).Ok? ==> DecodeMessage(lib, EncodeMessage(m).value) == Ok(m))
  {
    var m := DecodeMessage(lib, input).value;
    if EncodeMessage(m).Ok? {
      MessageRoundTrip(lib, m);
    }
  }

  // ------------------------------------------------------------ associated data and signatures

  function AdRecords(version: u16, suite: u16, ikA: seq<byte>, ikB: seq<byte>, aId: Str, bId: Str,
                     ratchet: seq<byte>): seq<TlvRecord> {
    [TlvRecord(CriticalType(0x0001), Be16(version)),
     TlvRecord(CriticalType(0x0002), Be16(suite)),
     TlvRecord(CriticalType(0x0003), ikA),
     TlvRecord(CriticalType(0x0004), ikB),
     TlvRecord(CriticalType(0x0005), aId),
     TlvRecord(CriticalType(0x0006), bId),
     TlvRecord(CriticalType(0x0007), ratchet)]
  }

  function AssociatedData(version: u16, suite: u16, ikA: seq<byte>, ikB: seq<byte>, aId: Str, bId: Str,
                          ratchet: seq<byte>): Result<seq<byte>> {
    Encode(AdRecords(version, suite, ikA, ikB, aId, bId, ratchet))
  }

  /** Equal associated data means that all seven fields agree. */
  lemma AssociatedDataInjective(v: u16, s: u16, ia: seq<byte>, ib: seq<byte>, a: Str, b: Str, r: seq<byte>,
                                v': u16, s': u16, ia': seq<byte>, ib': seq<byte>, a': Str, b': Str, r': seq<byte>)
    requires AssociatedData(v, s, ia, ib, a, b, r).Ok?
    requires AssociatedData(v, s, ia, ib, a, b, r) == AssociatedData(v', s', ia', ib', a', b', r')
    ensures v == v' && s == s' && ia == ia' && ib == ib' && a == a' && b == b' && r == r'
  {
    var x, y := AdRecords(v, s, ia, ib, a, b, r), AdRecords(v', s', ia', ib', a', b', r');
    StreamInjective(x, y);
    assert forall i :: 0 <= i < 7 ==> x[i].value == y[i].value;
    assert x[0].value == y[0].value && x[1].value == y[1].value && x[2].value == y[2].value && x[3].value == y[3].value;
    assert x[4].value == y[4].value && x[5].value == y[5].value && x[6].value == y[6].value;
    Be16RoundTrip(v);
    Be16RoundTrip(v');
    Be16RoundTrip(s);
    Be16RoundTrip(s');
  }

  const SPK_LABEL := Ascii7("SPK")
  const PQSPK_LABEL := Ascii7("PQSPK")

  function SignatureMessage(version: u16, scope: seq<byte>, key: seq<byte>): Result<seq<byte>> {
    Encode([TlvRecord(CriticalType(0x0201), Be16(version)),
            TlvRecord(CriticalType(0x0202), scope),
            TlvRecord(CriticalType(0x0203), key)])
  }

  /** A signed prekey message fixes version, label and key. */
  lemma SignatureMessageInjective(v: u16, l: seq<byte>, k: seq<byte>, v': u16, l': seq<byte>, k': seq<byte>)
    requires SignatureMessage(v, l, k).Ok? && SignatureMessage(v, l, k) == SignatureMessage(v', l', k')
    ensures v == v' && l == l' && k == k'
  {
    var x := [TlvRecord(CriticalType(0x0201), Be16(v)), TlvRecord(CriticalType(0x0202), l),
              TlvRecord(CriticalType(0x0203), k)];
    var y := [TlvRecord(CriticalType(0x0201), Be16(v')), TlvRecord(CriticalType(0x0202), l'),
              TlvRecord(CriticalType(0x0203), k')];
    StreamInjective(x, y);
    assert x[0].value == y[0].value && x[1].value == y[1].value && x[2].value == y[2].value;
    Be16RoundTrip(v);
    Be16RoundTrip(v');
  }

  /** What is signed for a classical prekey is never what is signed for a post-quantum one. */
  lemma SpkIsNeverPqspk(v: u16, k: seq<byte>, v': u16, k': seq<byte>)
    requires SignatureMessage(v, SPK_LABEL, k).Ok?
    ensures SignatureMessage(v, SPK_LABEL, k) != SignatureMessage(v', PQSPK_LABEL, k')
  {
    assert |SPK_LABEL| != |PQSPK_LABEL|;
    if SignatureMessage(v, SPK_LABEL, k) == SignatureMessage(v', PQSPK_LABEL, k') {
      SignatureMessageInjective(v, SPK_LABEL, k, v', PQSPK_LABEL, k');
    }
  }

  function ValidateBundle(k: KeyRoutines, b: Bundle): Result<Unit> {
    var spk :- SignatureMessage(b.protocolVersion, SPK_LABEL, b.signedPrekey);
    var _ :- Need(k.verify(b.signatureKey, spk, b.spkSignature), SignatureVerificationFailed);
    var pqspk :- SignatureMessage(b.protocolVersion, PQSPK_LABEL, b.pqSignedPrekey);
    Need(k.verify(b.signatureKey, pqspk, b.pqspkSignature), SignatureVerificationFailed)
  }

  // ------------------------------------------------------------ key material

  function KeyMaterial(dh1: seq<byte>, dh2: seq<byte>, dh3: seq<byte>, dh4: Option<seq<byte>>,
                       ss: seq<byte>): seq<byte> {
    dh1 + dh2 + dh3 + (if dh4.Some? then dh4.value else []) + ss
  }

  function AliceKeyMaterial(k: KeyRoutines, ikSecret: seq<byte>, ekSecret: seq<byte>, b: Bundle,
                            ss: seq<byte>): seq<byte> {
    KeyMaterial(k.dh(ikSecret, b.signedPrekey), k.dh(ekSecret, b.identityKey), k.dh(ekSecret, b.signedPrekey),
                match b.oneTimePrekey case Some(p) => Some(k.dh(ekSecret, p)) case None => None,
                ss)
  }

  function BobKeyMaterial(k: KeyRoutines, ikSecret: seq<byte>, spkSecret: seq<byte>, otpkSecret: Option<seq<byte>>,
                          ikA: seq<byte>, ekA: seq<byte>, ss: seq<byte>): seq<byte>
  {
    KeyMaterial(k.dh(spkSecret, ikA), k.dh(ikSecret, ekA), k.dh(spkSecret, ekA),
                match otpkSecret case Some(x) => Some(k.dh(x, ekA)) case None => None,
                ss)
  }

  // ------------------------------------------------------------ the two sides

  function Initiate(lib: Routines, k: KeyRoutines, aliceId: Str, bobId: Str, identity: KeyPair, ratchetPub: seq<byte>,
                    b: Bundle, payload: seq<byte>, ekSecret: seq<byte>, coins: seq<byte>,
                    nonce: seq<byte>): Result<InitiatorOutput>
  {
    var _ :- Need(b.protocolVersion == PROTOCOL_VERSION_V1, UnsupportedAlgorithm);
    var suite := SuiteId(b.kem);
    var _ :- ValidateBundle(k, b);
    var _ :- Need(|identity.secret| == 32, InvalidLength);
    var capsule := k.encapsulate(b.pqSignedPrekey, coins);
    var _ :- Need(capsule.Some?, KemOperation);
    var (ct, ss) := capsule.value;
    var sessionKey := lib.hkdf(AliceKeyMaterial(k, identity.secret, ekSecret, b, ss), INFO_SK);
    var ad :- AssociatedData(b.protocolVersion, suite, identity.public, b.identityKey, aliceId, bobId, ratchetPub);
    var e := SealWith(lib, sessionKey, payload, ad, nonce);
    var otpkId := if b.oneTimePrekey.Some? then Some(b.ownerId) else None;
    Ok(InitiatorOutput(
         InitialMessage(b.protocolVersion, suite, aliceId, bobId, identity.public, k.dhPublic(ekSecret), ct, ratchetPub,
                        e.nonce, e.ciphertext, otpkId),
         sessionKey))
  }

  function Receive(lib: Routines, k: KeyRoutines, identity: KeyPair, spkSecret: seq<byte>, pqSecret: seq<byte>,
                   otpkSecret: Option<seq<byte>>, m: InitialMessage): Result<ResponderOutput>
  {
    var _ :- Need(m.protocolVersion == PROTOCOL_VERSION_V1, UnsupportedAlgorithm);
    var _ :- Need(KnownSuite(m.suiteId), UnsupportedAlgorithm);
    var _ :- Need(|identity.secret| == 32, InvalidLength);
    var _ :- Need(|spkSecret| == 32, InvalidLength);
    var ss := k.decapsulate(pqSecret, m.pqCt);
    var _ :- Need(ss.Some?, KemOperation);
    var _ :- Need(otpkSecret.Some? ==> |otpkSecret.value| == 32, InvalidLength);
    var sessionKey := lib.hkdf(BobKeyMaterial(k, identity.secret, spkSecret, otpkSecret, m.ikA, m.ekA, ss.value),
                               INFO_SK);
    var ad :- AssociatedData(m.protocolVersion, m.suiteId, m.ikA, identity.public, m.senderId, m.recipientId,
                             m.pqRatchetPub);
    var plaintext :- OpenWith(lib, sessionKey, Envelope(m.nonce, m.ciphertext, ad));
    Ok(ResponderOutput(plaintext, sessionKey))
  }

  // ------------------------------------------------------------ agreement

  /** Bob's private keys have 32 bytes and the bundle publishes exactly their public halves; the
      one-time prekey is given to Bob if and only if the bundle carries it. */
  predicate BundleOf(k: KeyRoutines, b: Bundle, bob: KeyPair, spkSecret: seq<byte>, pqSecret: seq<byte>,
                     otpkSecret: Option<seq<byte>>) {
    && |bob.secret| == 32 && |spkSecret| == 32 && (otpkSecret.Some? ==> |otpkSecret.value| == 32)
    && bob.public == k.dhPublic(bob.secret) && b.identityKey == bob.public
    && b.signedPrekey == k.dhPublic(spkSecret)
    && b.pqSignedPrekey == k.kemPublic(pqSecret)
    && b.oneTimePrekey == match otpkSecret case Some(x) => Some(k.dhPublic(x)) case None => None
  }

  /** Both sides compute the same key material. */
  lemma KeyMaterialAgrees(k: Keys, b: Bundle, alice: KeyPair, ekSecret: seq<byte>, ss: seq<byte>,
                          bob: KeyPair, spkSecret: seq<byte>, pqSecret: seq<byte>, otpkSecret: Option<seq<byte>>)
    requires BundleOf(k, b, bob, spkSecret, pqSecret, otpkSecret) && alice.public == k.dhPublic(alice.secret)
    ensures AliceKeyMaterial(k, alice.secret, ekSecret, b, ss)
            == BobKeyMaterial(k, bob.secret, spkSecret, otpkSecret, alice.public, k.dhPublic(ekSecret), ss)
  {
  }

  /** If only one side mixes in the one-time prekey, the key materials differ in length by 32 and
      never coincide, whatever the keys are. */
  lemma KeyMaterialNeedsSameDh4(k: Keys, ikA: seq<byte>, ekSecret: seq<byte>, b: Bundle, ss: seq<byte>,
                                ikB: seq<byte>, spkSecret: seq<byte>, otpkSecret: Option<seq<byte>>, pubA: seq<byte>,
                                pubE: seq<byte>, ss': seq<byte>)
    requires |ss| == |ss'| && b.oneTimePrekey.Some? != otpkSecret.Some?
    ensures var x, y := AliceKeyMaterial(k, ikA, ekSecret, b, ss),
            BobKeyMaterial(k, ikB, spkSecret, otpkSecret, pubA, pubE, ss');
            x != y && (|x| == |y| + 32 || |y| == |x| + 32)
  {
  }

  lemma FiveParts(a: seq<byte>, b: seq<byte>, c: seq<byte>, d: seq<byte>, e: seq<byte>,
                  a': seq<byte>, b': seq<byte>, c': seq<byte>, d': seq<byte>, e': seq<byte>)
    requires |a| == |a'| && |b| == |b'| && |c| == |c'| && |e| == |e'|
    requires a + b + c + d + e == a' + b' + c' + d' + e'
    ensures a == a' && b == b' && c == c' && d == d' && e == e'
  {
    ConcatParts(a + b + c + d, e, a' + b' + c' + d', e');
    ConcatParts(a + b + c, d, a' + b' + c', d');
    ConcatParts(a + b, c, a' + b', c');
    ConcatParts(a, b, a', b');
  }

  /** The acceptor computes the secret values Alice computed, one by one: the three Diffie-Hellman
      values, the fourth if she used one, and the KEM secret. */
  predicate SecretsMeet(k: KeyRoutines, ikSecretA: seq<byte>, ekSecret: seq<byte>, b: Bundle, ss: seq<byte>,
                        ikSecretB: seq<byte>, spkSecret: seq<byte>, otpkSecret: Option<seq<byte>>, ikA: seq<byte>,
                        ekA: seq<byte>, ss': seq<byte>) {
    && k.dh(spkSecret, ikA) == k.dh(ikSecretA, b.signedPrekey)
    && k.dh(ikSecretB, ekA) == k.dh(ekSecret, b.identityKey)
    && k.dh(spkSecret, ekA) == k.dh(ekSecret, b.signedPrekey)
    && (otpkSecret.Some? <==> b.oneTimePrekey.Some?)
    && (otpkSecret.Some? ==> k.dh(otpkSecret.value, ekA) == k.dh(ekSecret, b.oneTimePrekey.value))
    && ss' == ss
  }

  /** Two key materials with KEM secrets of one length coincide if and only if all their parts do. */
  lemma KeyMaterialsMeetExactly(k: Keys, ikSecretA: seq<byte>, ekSecret: seq<byte>, b: Bundle, ss: seq<byte>,
                                ikSecretB: seq<byte>, spkSecret: seq<byte>, otpkSecret: Option<seq<byte>>,
                                ikA: seq<byte>, ekA: seq<byte>, ss': seq<byte>)
    requires |ss| == |ss'|
    ensures BobKeyMaterial(k, ikSecretB, spkSecret, otpkSecret, ikA, ekA, ss')
            == AliceKeyMaterial(k, ikSecretA, ekSecret, b, ss)
            <==> SecretsMeet(k, ikSecretA, ekSecret, b, ss, ikSecretB, spkSecret, otpkSecret, ikA, ekA, ss')
  {
    if BobKeyMaterial(k, ikSecretB, spkSecret, otpkSecret, ikA, ekA, ss')
       == AliceKeyMaterial(k, ikSecretA, ekSecret, b, ss) {
      var d := if b.oneTimePrekey.Some? then k.dh(ekSecret, b.oneTimePrekey.value) else [];
      var d' := if otpkSecret.Some? then k.dh(otpkSecret.value, ekA) else [];
      FiveParts(k.dh(ikSecretA, b.signedPrekey), k.dh(ekSecret, b.identityKey), k.dh(ekSecret, b.signedPrekey), d, ss,
                k.dh(spkSecret, ikA), k.dh(ikSecretB, ekA), k.dh(spkSecret, ekA), d', ss');
    }
  }

  /** For all keys and payloads: whatever Alice sends to a bundle of Bob's own keys, Bob opens,
      recovering the payload and the same session key. */
  lemma HandshakeAgrees(lib: Sealing, k: Keys, aliceId: Str, bobId: Str, alice: KeyPair, ratchetPub: seq<byte>,
                        b: Bundle,
                        payload: seq<byte>, ekSecret: seq<byte>, coins: seq<byte>, nonce: seq<byte>,
                        bob: KeyPair, spkSecret: seq<byte>, pqSecret: seq<byte>, otpkSecret: Option<seq<byte>>)
    requires BundleOf(k, b, bob, spkSecret, pqSecret, otpkSecret) && alice.public == k.dhPublic(alice.secret)
    requires Initiate(lib, k, aliceId, bobId, alice, ratchetPub, b, payload, ekSecret, coins, nonce).Ok?
    ensures var out := Initiate(lib, k, aliceId, bobId, alice, ratchetPub, b, payload, ekSecret, coins, nonce).value;
            Receive(lib, k, bob, spkSecret, pqSecret, otpkSecret, out.message)
                == Ok(ResponderOutput(payload, out.sessionKey))
  {
    var (ct, ss) := k.encapsulate(b.pqSignedPrekey, coins).value;
    assert k.decapsulate(pqSecret, ct) == Some(ss);
    KeyMaterialAgrees(k, b, alice, ekSecret, ss, bob, spkSecret, pqSecret, otpkSecret);
    var sessionKey := lib.hkdf(AliceKeyMaterial(k, alice.secret, ekSecret, b, ss), INFO_SK);
    var ad := AssociatedData(b.protocolVersion, SuiteId(b.kem), alice.public, b.identityKey, aliceId, bobId,
                             ratchetPub).value;
    OpenOfSeal(lib, sessionKey, payload, ad, nonce);
  }

  /** The same over the wire: encode, decode, receive. */
  lemma HandshakeOverWire(lib: Sealing, k: Keys, aliceId: Str, bobId: Str, alice: KeyPair, ratchetPub: seq<byte>,
                          b: Bundle,
                          payload: seq<byte>, ekSecret: seq<byte>, coins: seq<byte>, nonce: seq<byte>,
                          bob: KeyPair, spkSecret: seq<byte>, pqSecret: seq<byte>, otpkSecret: Option<seq<byte>>,
                          wire: seq<byte>)
    requires BundleOf(k, b, bob, spkSecret, pqSecret, otpkSecret) && alice.public == k.dhPublic(alice.secret)
    requires Initiate(lib, k, aliceId, bobId, alice, ratchetPub, b, payload, ekSecret, coins, nonce).Ok?
    requires var m := Initiate(lib, k, aliceId, bobId, alice, ratchetPub, b, payload, ekSecret, coins,
                               nonce).value.message;
             Typed(lib, m) && EncodeMessage(m) == Ok(wire)
    ensures var out := Initiate(lib, k, aliceId, bobId, alice, ratchetPub, b, payload, ekSecret, coins, nonce).value;
            && DecodeMessage(lib, wire) == Ok(out.message)
            && Receive(lib, k, bob, spkSecret, pqSecret, otpkSecret, out.message)
                == Ok(ResponderOutput(payload, out.sessionKey))
  {
    MessageRoundTrip(lib, Initiate(lib, k, aliceId, bobId, alice, ratchetPub, b, payload, ekSecret, coins,
                                   nonce).value.message);
    HandshakeAgrees(lib, k, aliceId, bobId, alice, ratchetPub, b, payload, ekSecret, coins, nonce, bob, spkSecret,
                    pqSecret, otpkSecret);
  }

  /** The key verifies the signature over the labelled prekey. */
  predicate SignedUnder(k: KeyRoutines, key: seq<byte>, scope: seq<byte>, prekey: seq<byte>, signature: seq<byte>) {
    var message := SignatureMessage(PROTOCOL_VERSION_V1, scope, prekey);
    message.Ok? && k.verify(key, message.value, signature)
  }

  /** Alice sends if and only if the bundle has version 1, both prekeys carry a signature that verifies
      under the bundle's own signature key for their own label, her secret has 32 bytes, the
      post-quantum prekey can be encapsulated to, and every authenticated field is below 64 KiB. */
  lemma InitiatesExactly(lib: Routines, k: KeyRoutines, aliceId: Str, bobId: Str, alice: KeyPair,
                         ratchetPub: seq<byte>, b: Bundle, payload: seq<byte>, ekSecret: seq<byte>, coins: seq<byte>,
                         nonce: seq<byte>)
    ensures Initiate(lib, k, aliceId, bobId, alice, ratchetPub, b, payload, ekSecret, coins, nonce).Ok? <==>
            && b.protocolVersion == PROTOCOL_VERSION_V1 && |alice.secret| == 32
            && SignedUnder(k, b.signatureKey, SPK_LABEL, b.signedPrekey, b.spkSignature)
            && SignedUnder(k, b.signatureKey, PQSPK_LABEL, b.pqSignedPrekey, b.pqspkSignature)
            && k.encapsulate(b.pqSignedPrekey, coins).Some?
            && |alice.public| <= U16_MAX && |b.identityKey| <= U16_MAX && |aliceId| <= U16_MAX && |bobId| <= U16_MAX
            && |ratchetPub| <= U16_MAX
  {
    var rs := AdRecords(b.protocolVersion, SuiteId(b.kem), alice.public, b.identityKey, aliceId, bobId, ratchetPub);
    if Fits(rs) {
      assert |rs[2].value| <= U16_MAX && |rs[3].value| <= U16_MAX && |rs[4].value| <= U16_MAX;
      assert |rs[5].value| <= U16_MAX && |rs[6].value| <= U16_MAX;
    }
  }

  // ------------------------------------------------------------ what acceptance means

  /** What Alice sends: a sealing of the payload under the session key, her public keys and the capsule, and
      the name of the bundle's owner if and only if she used the one-time prekey. */
  lemma InitiateSeals(lib: Routines, k: KeyRoutines, aliceId: Str, bobId: Str, alice: KeyPair, ratchetPub: seq<byte>,
                      b: Bundle,
                      payload: seq<byte>, ekSecret: seq<byte>, coins: seq<byte>, nonce: seq<byte>, out: InitiatorOutput)
    requires Initiate(lib, k, aliceId, bobId, alice, ratchetPub, b, payload, ekSecret, coins, nonce) == Ok(out)
    ensures var m := out.message;
            var ad := AssociatedData(m.protocolVersion, m.suiteId, m.ikA, b.identityKey, m.senderId, m.recipientId,
                                     m.pqRatchetPub);
            && ad.Ok? && m.nonce == nonce && m.ciphertext == lib.seal(out.sessionKey, nonce, ad.value, payload)
            && k.encapsulate(b.pqSignedPrekey, coins).Some? && m.pqCt == k.encapsulate(b.pqSignedPrekey, coins).value.0
            && m.ikA == alice.public && m.ekA == k.dhPublic(ekSecret)
            && (m.otpkId.Some? <==> b.oneTimePrekey.Some?) && (m.otpkId.Some? ==> m.otpkId.value == b.ownerId)
            && out.sessionKey ==
               lib.hkdf(AliceKeyMaterial(k, alice.secret, ekSecret, b,
                                         k.encapsulate(b.pqSignedPrekey, coins).value.1), INFO_SK)
  {
  }

  /** Any message whatsoever is accepted, with a given payload, if and only if it has version 1 and a known
      suite, all secrets used have 32 bytes, its capsule decapsulates, its authenticated fields fit and its
      ciphertext opens to that payload under the session key derived from those secrets. */
  lemma ReceivesExactly(lib: Routines, k: KeyRoutines, bob: KeyPair, spkSecret: seq<byte>, pqSecret: seq<byte>,
                        otpkSecret: Option<seq<byte>>, m: InitialMessage, got: ResponderOutput)
    ensures Receive(lib, k, bob, spkSecret, pqSecret, otpkSecret, m) == Ok(got) <==>
            && m.protocolVersion == 1 && (m.suiteId == 1 || m.suiteId == 2)
            && |bob.secret| == 32 && |spkSecret| == 32 && (otpkSecret.Some? ==> |otpkSecret.value| == 32)
            && k.decapsulate(pqSecret, m.pqCt).Some?
            && got.sessionKey == lib.hkdf(BobKeyMaterial(k, bob.secret, spkSecret, otpkSecret, m.ikA, m.ekA,
                                                         k.decapsulate(pqSecret, m.pqCt).value), INFO_SK)
            && var ad := AssociatedData(m.protocolVersion, m.suiteId, m.ikA, bob.public, m.senderId, m.recipientId,
                                        m.pqRatchetPub);
               ad.Ok? && lib.open(got.sessionKey, m.nonce, ad.value, m.ciphertext) == Some(got.plaintext)
  {
  }

  /** Whoever accepts a message with the nonce and ciphertext of Alice's, whatever the other fields and
      whatever keys are used: the header fields are the ones Alice authenticated, the acceptor has the
      identity key of her bundle, payload and session key are hers, and every Diffie-Hellman value and
      the KEM secret are the ones she computed. */
  lemma AcceptedMessageIsAlices(lib: Binding, k: Keys, aliceId: Str, bobId: Str, alice: KeyPair,
                                ratchetPub: seq<byte>,
                                b: Bundle, payload: seq<byte>, ekSecret: seq<byte>, coins: seq<byte>, nonce: seq<byte>,
                                out: InitiatorOutput, bob: KeyPair, spkSecret: seq<byte>, pqSecret: seq<byte>,
                                otpkSecret: Option<seq<byte>>, m: InitialMessage)
    requires Initiate(lib, k, aliceId, bobId, alice, ratchetPub, b, payload, ekSecret, coins, nonce) == Ok(out)
    requires m.nonce == out.message.nonce && m.ciphertext == out.message.ciphertext
    requires Receive(lib, k, bob, spkSecret, pqSecret, otpkSecret, m).Ok?
    ensures m.protocolVersion == out.message.protocolVersion && m.suiteId == out.message.suiteId
            && m.ikA == alice.public
    ensures m.senderId == aliceId && m.recipientId == bobId && m.pqRatchetPub == ratchetPub
            && bob.public == b.identityKey
    ensures Receive(lib, k, bob, spkSecret, pqSecret, otpkSecret, m) == Ok(ResponderOutput(payload, out.sessionKey))
    ensures k.decapsulate(pqSecret, m.pqCt).Some? && k.encapsulate(b.pqSignedPrekey, coins).Some?
    ensures SecretsMeet(k, alice.secret, ekSecret, b, k.encapsulate(b.pqSignedPrekey, coins).value.1,
                        bob.secret, spkSecret, otpkSecret, m.ikA, m.ekA, k.decapsulate(pqSecret, m.pqCt).value)
  {
    var o, got := out.message, Receive(lib, k, bob, spkSecret, pqSecret, otpkSecret, m).value;
    InitiateSeals(lib, k, aliceId, bobId, alice, ratchetPub, b, payload, ekSecret, coins, nonce, out);
    ReceivesExactly(lib, k, bob, spkSecret, pqSecret, otpkSecret, m, got);
    var ad := AssociatedData(o.protocolVersion, o.suiteId, o.ikA, b.identityKey, o.senderId, o.recipientId,
                             o.pqRatchetPub).value;
    var ad' := AssociatedData(m.protocolVersion, m.suiteId, m.ikA, bob.public, m.senderId, m.recipientId,
                              m.pqRatchetPub).value;
    assert lib.seal(got.sessionKey, m.nonce, ad', got.plaintext) == lib.seal(out.sessionKey, nonce, ad, payload);
    AssociatedDataInjective(o.protocolVersion, o.suiteId, o.ikA, b.identityKey, o.senderId, o.recipientId,
                            o.pqRatchetPub,
                            m.protocolVersion, m.suiteId, m.ikA, bob.public, m.senderId, m.recipientId, m.pqRatchetPub);
    KeyMaterialsMeetExactly(k, alice.secret, ekSecret, b, k.encapsulate(b.pqSignedPrekey, coins).value.1, bob.secret,
                            spkSecret, otpkSecret, m.ikA, m.ekA, k.decapsulate(pqSecret, m.pqCt).value);
  }

  lemma MatchingMessageOpens(lib: Binding, k: Keys, aliceId: Str, bobId: Str, alice: KeyPair, ratchetPub: seq<byte>,
                             b: Bundle, payload: seq<byte>, ekSecret: seq<byte>, coins: seq<byte>, nonce: seq<byte>,
                             out: InitiatorOutput, bob: KeyPair, spkSecret: seq<byte>, pqSecret: seq<byte>,
                             otpkSecret: Option<seq<byte>>, m: InitialMessage)
    requires Initiate(lib, k, aliceId, bobId, alice, ratchetPub, b, payload, ekSecret, coins, nonce) == Ok(out)
    requires m == out.message.(ekA := m.ekA, pqCt := m.pqCt, otpkId := m.otpkId) && bob.public == b.identityKey
    requires |bob.secret| == 32 && |spkSecret| == 32 && (otpkSecret.Some? ==> |otpkSecret.value| == 32)
    requires k.decapsulate(pqSecret, m.pqCt).Some? && k.encapsulate(b.pqSignedPrekey, coins).Some?
    requires SecretsMeet(k, alice.secret, ekSecret, b, k.encapsulate(b.pqSignedPrekey, coins).value.1,
                         bob.secret, spkSecret, otpkSecret, m.ikA, m.ekA, k.decapsulate(pqSecret, m.pqCt).value)
    ensures Receive(lib, k, bob, spkSecret, pqSecret, otpkSecret, m).Ok?
  {
    InitiateSeals(lib, k, aliceId, bobId, alice, ratchetPub, b, payload, ekSecret, coins, nonce, out);
    KeyMaterialsMeetExactly(k, alice.secret, ekSecret, b, k.encapsulate(b.pqSignedPrekey, coins).value.1, bob.secret,
                            spkSecret, otpkSecret, m.ikA, m.ekA, k.decapsulate(pqSecret, m.pqCt).value);
    var ad := AssociatedData(m.protocolVersion, m.suiteId, m.ikA, b.identityKey, m.senderId, m.recipientId,
                             m.pqRatchetPub).value;
    OpenOfSeal(lib, out.sessionKey, payload, ad, nonce);
  }

  /** A message with the nonce and ciphertext of Alice's is accepted if and only if every other field she
      authenticated is untouched, the acceptor is the owner of the identity key, its keys have 32 bytes
      and every secret value comes out as hers. */
  lemma AcceptsWhenSecretsMeet(lib: Binding, k: Keys, aliceId: Str, bobId: Str, alice: KeyPair, ratchetPub: seq<byte>,
                               b: Bundle, payload: seq<byte>, ekSecret: seq<byte>, coins: seq<byte>, nonce: seq<byte>,
                               out: InitiatorOutput, bob: KeyPair, spkSecret: seq<byte>, pqSecret: seq<byte>,
                               otpkSecret: Option<seq<byte>>, m: InitialMessage)
    requires Initiate(lib, k, aliceId, bobId, alice, ratchetPub, b, payload, ekSecret, coins, nonce) == Ok(out)
    requires m.nonce == out.message.nonce && m.ciphertext == out.message.ciphertext
    ensures Receive(lib, k, bob, spkSecret, pqSecret, otpkSecret, m).Ok? <==>
            && m == out.message.(ekA := m.ekA, pqCt := m.pqCt, otpkId := m.otpkId) && bob.public == b.identityKey
            && |bob.secret| == 32 && |spkSecret| == 32 && (otpkSecret.Some? ==> |otpkSecret.value| == 32)
            && k.decapsulate(pqSecret, m.pqCt).Some? && k.encapsulate(b.pqSignedPrekey, coins).Some?
            && SecretsMeet(k, alice.secret, ekSecret, b, k.encapsulate(b.pqSignedPrekey, coins).value.1,
                           bob.secret, spkSecret, otpkSecret, m.ikA, m.ekA, k.decapsulate(pqSecret, m.pqCt).value)
  {
    if Receive(lib, k, bob, spkSecret, pqSecret, otpkSecret, m).Ok? {
      AcceptedMessageIsAlices(lib, k, aliceId, bobId, alice, ratchetPub, b, payload, ekSecret, coins, nonce, out,
                              bob, spkSecret, pqSecret, otpkSecret, m);
    } else if && m == out.message.(ekA := m.ekA, pqCt := m.pqCt, otpkId := m.otpkId) && bob.public == b.identityKey
              && |bob.secret| == 32 && |spkSecret| == 32 && (otpkSecret.Some? ==> |otpkSecret.value| == 32)
              && k.decapsulate(pqSecret, m.pqCt).Some? && k.encapsulate(b.pqSignedPrekey, coins).Some?
              && SecretsMeet(k, alice.secret, ekSecret, b, k.encapsulate(b.pqSignedPrekey, coins).value.1,
                             bob.secret, spkSecret, otpkSecret, m.ikA, m.ekA,
                             k.decapsulate(pqSecret, m.pqCt).value) {
      MatchingMessageOpens(lib, k, aliceId, bobId, alice, ratchetPub, b, payload, ekSecret, coins, nonce, out,
                           bob, spkSecret, pqSecret, otpkSecret, m);
    }
  }

  /** With the capsule replaced, Alice's message to a bundle of Bob's keys is accepted if and only if the
      replacement still decapsulates to the secret she encapsulated. */
  lemma TamperedCapsule(lib: Binding, k: Keys, aliceId: Str, bobId: Str, alice: KeyPair, ratchetPub: seq<byte>,
                        b: Bundle, payload: seq<byte>, ekSecret: seq<byte>, coins: seq<byte>, nonce: seq<byte>,
                        out: InitiatorOutput, bob: KeyPair, spkSecret: seq<byte>, pqSecret: seq<byte>,
                        otpkSecret: Option<seq<byte>>, ct: seq<byte>)
    requires BundleOf(k, b, bob, spkSecret, pqSecret, otpkSecret) && alice.public == k.dhPublic(alice.secret)
    requires Initiate(lib, k, aliceId, bobId, alice, ratchetPub, b, payload, ekSecret, coins, nonce) == Ok(out)
    ensures k.encapsulate(b.pqSignedPrekey, coins).Some?
    ensures Receive(lib, k, bob, spkSecret, pqSecret, otpkSecret, out.message.(pqCt := ct)).Ok?
            <==> k.decapsulate(pqSecret, ct) == Some(k.encapsulate(b.pqSignedPrekey, coins).value.1)
  {
    InitiateSeals(lib, k, aliceId, bobId, alice, ratchetPub, b, payload, ekSecret, coins, nonce, out);
    AcceptsWhenSecretsMeet(lib, k, aliceId, bobId, alice, ratchetPub, b, payload, ekSecret, coins, nonce, out,
                           bob, spkSecret, pqSecret, otpkSecret, out.message.(pqCt := ct));
  }

  /** Bob accepts Alice's message to a bundle of his keys if and only if both use the bundle's one-time
      prekey or neither does. */
  lemma AcceptsExactly(lib: Binding, k: Keys, aliceId: Str, bobId: Str, alice: KeyPair, ratchetPub: seq<byte>,
                       b: Bundle,
                       payload: seq<byte>, ekSecret: seq<byte>, coins: seq<byte>, nonce: seq<byte>,
                       out: InitiatorOutput,
                       bob: KeyPair, spkSecret: seq<byte>, pqSecret: seq<byte>, bundled: Option<seq<byte>>,
                       used: Option<seq<byte>>)
    requires BundleOf(k, b, bob, spkSecret, pqSecret, bundled) && alice.public == k.dhPublic(alice.secret)
    requires used.Some? && bundled.Some? ==> used == bundled
    requires Initiate(lib, k, aliceId, bobId, alice, ratchetPub, b, payload, ekSecret, coins, nonce) == Ok(out)
    ensures var r := Receive(lib, k, bob, spkSecret, pqSecret, used, out.message);
            && (r.Ok? <==> used == bundled)
            && (r.Ok? ==> r.value == ResponderOutput(payload, out.sessionKey))
  {
    if used == bundled {
      HandshakeAgrees(lib, k, aliceId, bobId, alice, ratchetPub, b, payload, ekSecret, coins, nonce,
                      bob, spkSecret, pqSecret, bundled);
    } else if Receive(lib, k, bob, spkSecret, pqSecret, used, out.message).Ok? {
      AcceptedMessageIsAlices(lib, k, aliceId, bobId, alice, ratchetPub, b, payload, ekSecret, coins, nonce, out,
                              bob, spkSecret, pqSecret, used, out.message);
    }
  }
}
