/** Epoch-bound group messages: padded, sealed under the epoch's key, and signed twice. */
module GroupMessages {
  import opened Core
  import opened Bytes
  import opened Text
  import opened Library
  import opened Tlv
  import opened Padding
  import opened Members
  import MemberCodec
  import opened Group
  import opened GroupPackages
  import opened Contexts

  datatype EncryptedMessage = EncryptedMessage(
    groupId: Str, epoch: u64, sender: Str, sentAt: u64, envelope: Envelope, signature: seq<byte>)

  datatype DecryptedMessage = DecryptedMessage(groupId: Str, epoch: u64, sender: Str, sentAt: u64, body: Str)

  const NONCE_LENGTH: nat := 12

  function SignedRecords(m: EncryptedMessage): seq<TlvRecord> {
    [TlvRecord(CriticalType(0x3010), MESSAGE_SIGNATURE_LABEL),
     TlvRecord(CriticalType(0x3011), m.groupId),
     TlvRecord(CriticalType(0x3012), Be64(m.epoch)),
     TlvRecord(CriticalType(0x3013), m.sender),
     TlvRecord(CriticalType(0x3014), Be64(m.sentAt)),
     TlvRecord(CriticalType(0x3015), m.envelope.nonce),
     TlvRecord(CriticalType(0x3016), m.envelope.ciphertext),
     TlvRecord(CriticalType(0x3017), m.envelope.aad)]
  }

  /** The bytes both signatures cover. */
  function Transcript(m: EncryptedMessage): Result<seq<byte>> {
    Encode(SignedRecords(m))
  }

  // ------------------------------------------------------------ hybrid signature

  function JoinSignatures(ed: seq<byte>, pq: seq<byte>): seq<byte> {
    ed + pq
  }

  /** The first 64 bytes are the Ed25519 signature; the rest must not be empty. */
  function SplitSignatures(s: seq<byte>): Result<(seq<byte>, seq<byte>)> {
    if |s| <= 64 then Err(InvalidLength) else Ok((s[..64], s[64..]))
  }

  lemma SplitOfJoin(ed: seq<byte>, pq: seq<byte>)
    requires |ed| == 64
    ensures SplitSignatures(JoinSignatures(ed, pq)) == if pq == [] then Err(InvalidLength) else Ok((ed, pq))
  {
  }

  // ------------------------------------------------------------ encrypt and decrypt

  function Sealed(lib: Routines, s: GroupState, sender: Str, body: Str, sentAt: u64, nonce: seq<byte>): Envelope {
    SealWith(lib, lib.hkdf(s.rootSecret, MessageKeyInfo(s.groupId, s.epoch)), Pad(body, PADDING_BLOCK_SIZE),
             MessageAad(s.groupId, s.epoch, sender, sentAt), nonce)
  }

  function Unsigned(lib: Routines, s: GroupState, sender: Str, body: Str, sentAt: u64,
                    nonce: seq<byte>): EncryptedMessage {
    EncryptedMessage(s.groupId, s.epoch, sender, sentAt, Sealed(lib, s, sender, body, sentAt, nonce), [])
  }

  function SignMessage(lib: Routines, m: EncryptedMessage, edSecret: seq<byte>,
                       pqSecret: seq<byte>): Result<EncryptedMessage> {
    var transcript :- Transcript(m);
    match lib.pqSign(pqSecret, transcript)
    case None => Err(PqSigOperation)
    case Some(pq) => Ok(m.(signature := JoinSignatures(lib.edSign(edSecret, transcript), pq)))
  }

  function EncryptMessage(lib: Routines, s: GroupState, sender: Str, edSecret: seq<byte>, pqSecret: seq<byte>,
                          body: Str, sentAt: u64, nonce: seq<byte>): Result<EncryptedMessage>
  {
    var _ :- MemberCodec.ValidateUserId(lib, sender);
    var _ :- Need(!lib.blank(body), PolicyViolation("message body cannot be blank"));
    var _ :- Need(HasUser(s.members, sender), PolicyViolation("sender is not a member"));
    var _ :- Need(|edSecret| == 32, InvalidLength);
    SignMessage(lib, Unsigned(lib, s, sender, body, sentAt, nonce), edSecret, pqSecret)
  }

  function CheckMembership(s: GroupState, m: EncryptedMessage): Result<Unit> {
    var _ :- Need(m.groupId == s.groupId, PolicyViolation("message group mismatch"));
    var _ :- Need(m.epoch == s.epoch, PolicyViolation("message epoch mismatch"));
    Need(HasUser(s.members, m.sender), PolicyViolation("sender is not a member"))
  }

  function VerifySignatures(lib: Routines, m: EncryptedMessage, edPublic: seq<byte>,
                            pqPublic: seq<byte>): Result<Unit> {
    var transcript :- Transcript(m);
    var (ed, pq) :- SplitSignatures(m.signature);
    var _ :- Need(|edPublic| == 32, InvalidLength);
    var _ :- Need(lib.edVerify(edPublic, transcript, ed), SignatureVerificationFailed);
    Need(lib.pqVerify(pqPublic, transcript, pq), SignatureVerificationFailed)
  }

  function OpenBody(lib: Routines, s: GroupState, e: Envelope): Result<Str> {
    var decrypted :- OpenWith(lib, lib.hkdf(s.rootSecret, MessageKeyInfo(s.groupId, s.epoch)), e);
    var unpadded :- Unpad(decrypted);
    var body :- MemberCodec.DecodeText(lib, unpadded);
    var _ :- Need(!lib.blank(body), PolicyViolation("message body cannot be blank"));
    Ok(body)
  }

  function DecryptMessage(lib: Routines, s: GroupState, m: EncryptedMessage, edPublic: seq<byte>,
                          pqPublic: seq<byte>): Result<DecryptedMessage> {
    var _ :- CheckMembership(s, m);
    var _ :- Need(m.envelope.aad == MessageAad(m.groupId, m.epoch, m.sender, m.sentAt),
                  PolicyViolation("message aad mismatch"));
    var _ :- VerifySignatures(lib, m, edPublic, pqPublic);
    var body :- OpenBody(lib, s, m.envelope);
    Ok(DecryptedMessage(m.groupId, m.epoch, m.sender, m.sentAt, body))
  }

  // ------------------------------------------------------------ properties

  lemma SignedMessageVerifies(lib: Library, m: EncryptedMessage, edSecret: seq<byte>, pqSecret: seq<byte>)
    requires SignMessage(lib, m, edSecret, pqSecret).Ok?
    ensures var signed := SignMessage(lib, m, edSecret, pqSecret).value;
            && signed == m.(signature := signed.signature)
            && VerifySignatures(lib, signed, lib.edPublic(edSecret), lib.pqPublic(pqSecret)).Ok?
  {
  }

  lemma SealedBodyOpens(lib: Library, s: GroupState, t: GroupState, sender: Str, body: Str, sentAt: u64,
                        nonce: seq<byte>)
    requires lib.utf8(body) && !lib.blank(body)
    requires t.groupId == s.groupId && t.epoch == s.epoch && t.rootSecret == s.rootSecret
    ensures OpenBody(lib, t, Sealed(lib, s, sender, body, sentAt, nonce)) == Ok(body)
  {
    OpenOfSeal(lib, lib.hkdf(s.rootSecret, MessageKeyInfo(s.groupId, s.epoch)), Pad(body, PADDING_BLOCK_SIZE),
               MessageAad(s.groupId, s.epoch, sender, sentAt), nonce);
    UnpadOfPad(body, PADDING_BLOCK_SIZE);
  }

  /** Opening the envelope succeeds if and only if the epoch's key opens it and what is inside unpads to
      a non-blank UTF-8 text, which is then the body. */
  ghost predicate Carries(lib: Routines, s: GroupState, e: Envelope, body: Str) {
    exists padded ::
      && lib.open(lib.hkdf(s.rootSecret, MessageKeyInfo(s.groupId, s.epoch)), e.nonce, e.aad, e.ciphertext)
         == Some(padded)
      && Unpad(padded) == Ok(body) && lib.utf8(body) && !lib.blank(body)
  }

  /** For any message whatsoever: it is accepted, with a given content, if and only if group and epoch are
      the receiver's, the sender is a member, the associated data is the expected one, the signature is
      longer than 64 bytes with both halves verifying over the transcript, and the envelope carries
      that content. */
  lemma DecryptsExactly(lib: Routines, s: GroupState, m: EncryptedMessage, edPublic: seq<byte>, pqPublic: seq<byte>,
                        d: DecryptedMessage)
    ensures DecryptMessage(lib, s, m, edPublic, pqPublic) == Ok(d) <==>
            && d.groupId == m.groupId == s.groupId && d.epoch == m.epoch == s.epoch
            && d.sender == m.sender && m.sender in RoleMap(s.members) && d.sentAt == m.sentAt
            && m.envelope.aad == MessageAad(s.groupId, s.epoch, m.sender, m.sentAt)
            && Transcript(m).Ok? && |m.signature| > 64 && |edPublic| == 32
            && lib.edVerify(edPublic, Transcript(m).value, m.signature[..64])
            && lib.pqVerify(pqPublic, Transcript(m).value, m.signature[64..])
            && Carries(lib, s, m.envelope, d.body)
  {
    FindIsLookup(s.members, m.sender);
  }

  /** The signed bytes determine every field of the message but the signature. */
  lemma TranscriptInjective(m: EncryptedMessage, m': EncryptedMessage)
    requires Transcript(m).Ok? && Transcript(m) == Transcript(m')
    ensures m' == m.(signature := m'.signature)
  {
    var x, y := SignedRecords(m), SignedRecords(m');
    StreamInjective(x, y);
    assert x[1].value == y[1].value && x[2].value == y[2].value && x[3].value == y[3].value && x[4].value == y[4].value;
    assert x[5].value == y[5].value && x[6].value == y[6].value && x[7].value == y[7].value;
    Be64Injective(m.epoch, m'.epoch);
    Be64Injective(m.sentAt, m'.sentAt);
  }

  /** Two different messages accepted with one signature, by whatever states, mean that both signature
      schemes verify that signature for two different transcripts. */
  lemma SharedSignatureBreaksBoth(lib: Routines, s: GroupState, m: EncryptedMessage, t: GroupState,
                                  m': EncryptedMessage, edPublic: seq<byte>, pqPublic: seq<byte>)
    requires m != m' && m.signature == m'.signature
    requires DecryptMessage(lib, s, m, edPublic, pqPublic).Ok? && DecryptMessage(lib, t, m', edPublic, pqPublic).Ok?
    ensures exists x, y :: x != y
              && lib.edVerify(edPublic, x, m.signature[..64]) && lib.edVerify(edPublic, y, m.signature[..64])
              && lib.pqVerify(pqPublic, x, m.signature[64..]) && lib.pqVerify(pqPublic, y, m.signature[64..])
  {
    var x, y := Transcript(m).value, Transcript(m').value;
    if x == y {
      TranscriptInjective(m, m');
    }
  }

  /** With binding routines a message opens only in a state with the group, epoch and root secret it was
      sealed in, and yields the body that was sent. */
  lemma OpensOnlyWithSecret(lib: Binding, s: GroupState, t: GroupState, sender: Str, edSecret: seq<byte>,
                            pqSecret: seq<byte>, body: Str, sentAt: u64, nonce: seq<byte>, edPublic: seq<byte>,
                            pqPublic: seq<byte>)
    requires EncryptMessage(lib, s, sender, edSecret, pqSecret, body, sentAt, nonce).Ok?
    requires var m := EncryptMessage(lib, s, sender, edSecret, pqSecret, body, sentAt, nonce).value;
             DecryptMessage(lib, t, m, edPublic, pqPublic).Ok?
    ensures t.groupId == s.groupId && t.epoch == s.epoch && t.rootSecret == s.rootSecret
            && sender in RoleMap(t.members)
    ensures var m := EncryptMessage(lib, s, sender, edSecret, pqSecret, body, sentAt, nonce).value;
            DecryptMessage(lib, t, m, edPublic, pqPublic)
            == Ok(DecryptedMessage(s.groupId, s.epoch, sender, sentAt, body))
  {
    var e := Sealed(lib, s, sender, body, sentAt, nonce);
    UnpadOfPad(body, PADDING_BLOCK_SIZE);
    FindIsLookup(t.members, sender);
    assert e.ciphertext == lib.seal(lib.hkdf(t.rootSecret, MessageKeyInfo(t.groupId, t.epoch)), nonce, e.aad,
                                    lib.open(lib.hkdf(t.rootSecret, MessageKeyInfo(t.groupId, t.epoch)), nonce, e.aad,
                                             e.ciphertext).value);
  }

  /** A message sealed in state s opens in a state t of the same group and secret exactly when the
      epochs agree and the sender is a member of t; it then yields the body, sender and time that
      were sent. */
  lemma OpensExactly(lib: Library, s: GroupState, t: GroupState, sender: Str, edSecret: seq<byte>, pqSecret: seq<byte>,
                     body: Str, sentAt: u64, nonce: seq<byte>)
    requires t.groupId == s.groupId && t.rootSecret == s.rootSecret && lib.utf8(body)
    requires EncryptMessage(lib, s, sender, edSecret, pqSecret, body, sentAt, nonce).Ok?
    ensures var m := EncryptMessage(lib, s, sender, edSecret, pqSecret, body, sentAt, nonce).value;
            var r := DecryptMessage(lib, t, m, lib.edPublic(edSecret), lib.pqPublic(pqSecret));
            && (r.Ok? <==> t.epoch == s.epoch && sender in RoleMap(t.members))
            && (r.Ok? ==> r.value == DecryptedMessage(s.groupId, s.epoch, sender, sentAt, body))
  {
    var plain := Unsigned(lib, s, sender, body, sentAt, nonce);
    SignedMessageVerifies(lib, plain, edSecret, pqSecret);
    FindIsLookup(t.members, sender);
    if t.epoch == s.epoch {
      SealedBodyOpens(lib, s, t, sender, body, sentAt, nonce);
    }
  }

  /** Over a whole run: a message sent in one state is opened by another state of the run exactly
      when their epochs are equal, as long as the epoch counter is not saturated. */
  lemma OpensInRun(lib: Library, s: GroupState, steps: seq<Step>, i: nat, j: nat,
                   sender: Str, edSecret: seq<byte>, pqSecret: seq<byte>, body: Str, sentAt: u64, nonce: seq<byte>)
    requires i <= |steps| && j <= |steps| && lib.utf8(body)
    requires Run(lib, s, steps[..i]).epoch < U64_MAX
    requires EncryptMessage(lib, Run(lib, s, steps[..i]), sender, edSecret, pqSecret, body, sentAt, nonce).Ok?
    ensures var from, to := Run(lib, s, steps[..i]), Run(lib, s, steps[..j]);
            var m := EncryptMessage(lib, from, sender, edSecret, pqSecret, body, sentAt, nonce).value;
            var r := DecryptMessage(lib, to, m, lib.edPublic(edSecret), lib.pqPublic(pqSecret));
            && (r.Ok? <==> to.epoch == from.epoch)
            && (r.Ok? ==> r.value.body == body && r.value.sender == sender && r.value.sentAt == sentAt)
  {
    var from, to := Run(lib, s, steps[..i]), Run(lib, s, steps[..j]);
    EpochCountsChanges(lib, s, steps[..i]);
    EpochCountsChanges(lib, s, steps[..j]);
    if from.epoch == to.epoch {
      if i <= j { SameEpochSameState(lib, s, steps, i, j); } else { SameEpochSameState(lib, s, steps, j, i); }
    }
    FindIsLookup(from.members, sender);
    OpensExactly(lib, from, to, sender, edSecret, pqSecret, body, sentAt, nonce);
  }

  /** Longest body a message can carry: the sealed padded body must fit one record. */
  const BODY_LIMIT: nat := 65_280

  lemma PaddedBodyFits(n: nat)
    ensures PaddedLength(n, PADDING_BLOCK_SIZE) + 16 <= U16_MAX <==> n < BODY_LIMIT
  {
  }

  lemma RecordsFit(m: EncryptedMessage)
    requires |m.envelope.nonce| == NONCE_LENGTH
    ensures Fits(SignedRecords(m)) <==>
            |m.groupId| <= U16_MAX && |m.sender| <= U16_MAX && |m.envelope.ciphertext| <= U16_MAX
                && |m.envelope.aad| <= U16_MAX
  {
    var rs := SignedRecords(m);
    if Fits(rs) {
      assert |rs[1].value| <= U16_MAX && |rs[3].value| <= U16_MAX && |rs[6].value| <= U16_MAX
          && |rs[7].value| <= U16_MAX;
    }
  }

  /** Encryption succeeds exactly for a non-blank member id and body, a 32-byte Ed25519 secret, a
      body under 65,280 bytes, an associated-data string of at most 65,535 bytes, and a
      post-quantum secret that can sign. */
  lemma EncryptsWhen(lib: Library, s: GroupState, sender: Str, edSecret: seq<byte>, pqSecret: seq<byte>,
                     body: Str, sentAt: u64, nonce: seq<byte>)
    requires |nonce| == NONCE_LENGTH
    ensures EncryptMessage(lib, s, sender, edSecret, pqSecret, body, sentAt, nonce).Ok? <==>
            && !lib.blank(sender) && !lib.blank(body) && sender in RoleMap(s.members) && |edSecret| == 32
            && |body| < BODY_LIMIT && |MessageAad(s.groupId, s.epoch, sender, sentAt)| <= U16_MAX
            && lib.pqSign(pqSecret, StreamBytesOrEmpty(SignedRecords(Unsigned(lib, s, sender, body, sentAt,
                nonce)))).Some?
  {
    var m := Unsigned(lib, s, sender, body, sentAt, nonce);
    FindIsLookup(s.members, sender);
    RecordsFit(m);
    PaddedBodyFits(|body|);
    assert |m.envelope.ciphertext| == PaddedLength(|body|, PADDING_BLOCK_SIZE) + 16;
    assert |m.envelope.aad| >= |s.groupId| + |sender|;
  }

  function StreamBytesOrEmpty(rs: seq<TlvRecord>): seq<byte> {
    if Fits(rs) then StreamBytes(rs) else []
  }
}
