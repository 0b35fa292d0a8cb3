/** Exporting a group state as snapshot, invite package, join package and share link, and
    restoring it on the other side. Nonces and secrets drawn at random are arguments. */
module GroupPackages {
  import opened Core
  import opened Bytes
  import opened Text
  import opened Library
  import opened Padding
  import opened Members
  import opened MemberCodec
  import opened Group
  import opened GroupPayload
  import opened Contexts

  datatype Envelope = Envelope(nonce: seq<byte>, ciphertext: seq<byte>, aad: seq<byte>)

  datatype Snapshot = Snapshot(groupId: Str, epoch: u64, commitment: seq<byte>, envelope: Envelope)

  datatype InvitePackage = InvitePackage(groupId: Str, epoch: u64, rootSecret: seq<byte>, snapshot: Snapshot)

  datatype Credential = Credential(groupId: Str, epoch: u64, user: Str, role: Role, secret: seq<byte>)

  datatype JoinPackage = JoinPackage(invite: InvitePackage, credential: Credential)

  datatype LinkEnvelope = LinkEnvelope(groupId: Str, epoch: u64, commitment: seq<byte>, envelope: Envelope)

  datatype LinkMaterial = LinkMaterial(secret: seq<byte>, link: LinkEnvelope)

  /** The JSON form of a join package. */
  datatype JoinJson = JoinJson(render: JoinPackage -> seq<byte>, parse: seq<byte> -> Option<JoinPackage>)

  function SealWith(lib: Routines, key: seq<byte>, plaintext: seq<byte>, aad: seq<byte>, nonce: seq<byte>): Envelope {
    Envelope(nonce, lib.seal(key, nonce, aad, plaintext), aad)
  }

  function OpenWith(lib: Routines, key: seq<byte>, e: Envelope): Result<seq<byte>> {
    match lib.open(key, e.nonce, e.aad, e.ciphertext)
    case Some(p) => Ok(p)
    case None => Err(AeadOperation)
  }

  // ------------------------------------------------------------ export

  function EncryptedSnapshot(lib: Routines, s: GroupState, nonce: seq<byte>): Result<Snapshot> {
    var payload :- EncodePayload(lib, s);
    var key := lib.hkdf(s.rootSecret, SnapshotKeyInfo(s.groupId, s.epoch));
    var envelope := SealWith(lib, key, Pad(payload, PADDING_BLOCK_SIZE), SnapshotAad(s.groupId, s.epoch), nonce);
    Ok(Snapshot(s.groupId, s.epoch, lib.sha256(payload), envelope))
  }

  function ExportInvite(lib: Routines, s: GroupState, nonce: seq<byte>): Result<InvitePackage> {
    var snapshot :- EncryptedSnapshot(lib, s, nonce);
    Ok(InvitePackage(s.groupId, s.epoch, s.rootSecret, snapshot))
  }

  function IssueCredential(lib: Routines, s: GroupState, user: Str, role: Role, secret: seq<byte>): Result<Credential> {
    var _ :- ValidateUserId(lib, user);
    var normalized := if user == OwnerId(s.members) then Owner else role;
    Ok(Credential(s.groupId, s.epoch, user, normalized, secret))
  }

  function ExportJoinFor(lib: Routines, s: GroupState, c: Credential, nonce: seq<byte>): Result<JoinPackage> {
    var _ :- Need(c.groupId == s.groupId, PolicyViolation("credential group mismatch"));
    var _ :- Need(c.epoch == s.epoch, PolicyViolation("credential epoch mismatch"));
    var _ :- Need(FindRole(s.members, c.user).Some?, PolicyViolation("member missing from state"));
    var _ :- Need(FindRole(s.members, c.user) == Some(c.role), PolicyViolation("credential role mismatch"));
    var invite :- ExportInvite(lib, s, nonce);
    Ok(JoinPackage(invite, c))
  }

  function ExportJoin(lib: Routines, s: GroupState, user: Str, secret: seq<byte>,
                      nonce: seq<byte>): Result<JoinPackage> {
    match FindRole(s.members, user)
    case None => Err(PolicyViolation("member missing from state"))
    case Some(role) =>
      var c :- IssueCredential(lib, s, user, role, secret);
      ExportJoinFor(lib, s, c, nonce)
  }

  function EncryptForShareLink(lib: Routines, json: JoinJson, p: JoinPackage, secret: seq<byte>,
                               nonce: seq<byte>): LinkMaterial {
    var g, e := p.invite.groupId, p.invite.epoch;
    var key := lib.hkdf(secret, LinkKeyInfo(g, e));
    var envelope := SealWith(lib, key, json.render(p), LinkInviteAad(g, e), nonce);
    LinkMaterial(secret, LinkEnvelope(g, e, lib.sha256(secret), envelope))
  }

  // ------------------------------------------------------------ restore

  /** The checked payload of the snapshot in the package. */
  function OpenSnapshot(lib: Routines, p: InvitePackage): Result<seq<byte>> {
    var _ :- Need(p.snapshot.groupId == p.groupId, PolicyViolation("invite group mismatch"));
    var _ :- Need(p.snapshot.epoch == p.epoch, PolicyViolation("invite epoch mismatch"));
    var key := lib.hkdf(p.rootSecret, SnapshotKeyInfo(p.groupId, p.epoch));
    var _ :- Need(p.snapshot.envelope.aad == SnapshotAad(p.groupId, p.epoch), PolicyViolation("snapshot aad mismatch"));
    var decrypted :- OpenWith(lib, key, p.snapshot.envelope);
    var payload :- Unpad(decrypted);
    var _ :- Need(lib.sha256(payload) == p.snapshot.commitment, PolicyViolation("snapshot commitment mismatch"));
    Ok(payload)
  }

  function RestoreInvite(lib: Routines, p: InvitePackage): Result<GroupState> {
    var payload :- OpenSnapshot(lib, p);
    DecodePayload(lib, p.groupId, p.epoch, p.rootSecret, payload)
  }

  function RestoreJoin(lib: Routines, p: JoinPackage): Result<(GroupState, Credential)> {
    var c := p.credential;
    var _ :- Need(p.invite.groupId == c.groupId, PolicyViolation("join group mismatch"));
    var _ :- Need(p.invite.epoch == c.epoch, PolicyViolation("join epoch mismatch"));
    var s :- RestoreInvite(lib, p.invite);
    var _ :- Need(FindRole(s.members, c.user).Some?, PolicyViolation("member missing from state"));
    var _ :- Need(FindRole(s.members, c.user) == Some(c.role), PolicyViolation("join role mismatch"));
    Ok((s, c))
  }

  function OpenShareLink(lib: Routines, json: JoinJson, link: LinkEnvelope, secret: seq<byte>): Result<JoinPackage> {
    var _ :- Need(lib.sha256(secret) == link.commitment, PolicyViolation("invite secret mismatch"));
    var key := lib.hkdf(secret, LinkKeyInfo(link.groupId, link.epoch));
    var _ :- Need(link.envelope.aad == LinkInviteAad(link.groupId, link.epoch), PolicyViolation("invite aad mismatch"));
    var plaintext :- OpenWith(lib, key, link.envelope);
    var parsed := json.parse(plaintext);
    var _ :- Need(parsed.Some?, MessageParsing);
    var p := parsed.value;
    var _ :- Need(p.invite.groupId == link.groupId, PolicyViolation("link group mismatch"));
    var _ :- Need(p.invite.epoch == link.epoch, PolicyViolation("link epoch mismatch"));
    var _ :- RestoreJoin(lib, p);
    Ok(p)
  }

  // ------------------------------------------------------------ round trips

  /** Opening what was sealed. */
  lemma OpenOfSeal(lib: Sealing, key: seq<byte>, plaintext: seq<byte>, aad: seq<byte>, nonce: seq<byte>)
    ensures OpenWith(lib, key, SealWith(lib, key, plaintext, aad, nonce)) == Ok(plaintext)
  {
  }

  /** A state of a run exports exactly when its sizes allow it, and its invite package restores
      exactly that state. */
  lemma InviteRoundTrip(lib: Library, s: GroupState, nonce: seq<byte>)
    requires GroupInv(lib, s)
    ensures ExportInvite(lib, s, nonce).Ok? <==> Exportable(s)
    ensures ExportInvite(lib, s, nonce).Ok? ==> RestoreInvite(lib, ExportInvite(lib, s, nonce).value) == Ok(s)
  {
    ExportsWhen(lib, s);
    if EncodePayload(lib, s).Ok? {
      var payload := EncodePayload(lib, s).value;
      var key := lib.hkdf(s.rootSecret, SnapshotKeyInfo(s.groupId, s.epoch));
      OpenOfSeal(lib, key, Pad(payload, PADDING_BLOCK_SIZE), SnapshotAad(s.groupId, s.epoch), nonce);
      UnpadOfPad(payload, PADDING_BLOCK_SIZE);
      PayloadRoundTrip(lib, s, payload);
    }
  }

  /** The credential names a member of s with its role, in the group and epoch of s. */
  predicate Matches(s: GroupState, c: Credential) {
    c.groupId == s.groupId && c.epoch == s.epoch && FindRole(s.members, c.user) == Some(c.role)
  }

  /** A join package is exported exactly for a matching credential of an exportable state, and
      restores that state and that credential. */
  lemma JoinRoundTrip(lib: Library, s: GroupState, c: Credential, nonce: seq<byte>)
    requires GroupInv(lib, s)
    ensures ExportJoinFor(lib, s, c, nonce).Ok? <==> Matches(s, c) && Exportable(s)
    ensures ExportJoinFor(lib, s, c, nonce).Ok? ==>
              RestoreJoin(lib, ExportJoinFor(lib, s, c, nonce).value) == Ok((s, c))
  {
    InviteRoundTrip(lib, s, nonce);
  }

  /** Exporting for a user id works exactly for members, and gives that user's own role back. */
  lemma JoinForMemberRoundTrip(lib: Library, s: GroupState, user: Str, secret: seq<byte>, nonce: seq<byte>)
    requires GroupInv(lib, s)
    ensures ExportJoin(lib, s, user, secret, nonce).Ok? <==> user in RoleMap(s.members) && Exportable(s)
    ensures ExportJoin(lib, s, user, secret, nonce).Ok? ==>
              RestoreJoin(lib, ExportJoin(lib, s, user, secret, nonce).value)
              == Ok((s, Credential(s.groupId, s.epoch, user, RoleMap(s.members)[user], secret)))
  {
    FindIsLookup(s.members, user);
    if user in RoleMap(s.members) {
      var role := RoleMap(s.members)[user];
      MemberCredential(lib, s, user, secret);
      JoinRoundTrip(lib, s, Credential(s.groupId, s.epoch, user, role, secret), nonce);
    }
  }

  /** The credential issued to a member carries the member's own role. */
  lemma MemberCredential(lib: Routines, s: GroupState, user: Str, secret: seq<byte>)
    requires GroupInv(lib, s) && user in RoleMap(s.members)
    ensures var role := RoleMap(s.members)[user];
            IssueCredential(lib, s, user, role, secret) == Ok(Credential(s.groupId, s.epoch, user, role, secret))
  {
    SortedLists(s.members);
    assert GroupMember(user, RoleMap(s.members)[user]) in s.members;
    OwnerIsLeast(s.members);
  }

  /** A credential is issued for every user id that is not blank, with the role asked for, unless the user
      is the protected owner, who always gets Owner. */
  lemma IssuesExactly(lib: Routines, s: GroupState, user: Str, role: Role, secret: seq<byte>, c: Credential)
    requires GroupInv(lib, s)
    ensures IssueCredential(lib, s, user, role, secret) == Ok(c) <==>
            && lib.trim(user) != [] && c.groupId == s.groupId && c.epoch == s.epoch && c.user == user
            && c.secret == secret && c.role == if IsLeastOwner(RoleMap(s.members), user) then Owner else role
  {
    OwnerIdIsLeastOwner(s.members, user);
  }

  /** A share link opened with its secret gives back the join package it was made from, provided
      the package restores and its JSON reads back. */
  lemma LinkRoundTrip(lib: Library, json: JoinJson, p: JoinPackage, secret: seq<byte>, nonce: seq<byte>)
    requires json.parse(json.render(p)) == Some(p)
    ensures var m := EncryptForShareLink(lib, json, p, secret, nonce);
            OpenShareLink(lib, json, m.link, m.secret) ==
            if RestoreJoin(lib, p).Ok? then Ok(p) else Err(RestoreJoin(lib, p).error)
  {
    var g, e := p.invite.groupId, p.invite.epoch;
    OpenOfSeal(lib, lib.hkdf(secret, LinkKeyInfo(g, e)), json.render(p), LinkInviteAad(g, e), nonce);
  }

  /** State and credential survive all three layers. */
  lemma ExportThroughLink(lib: Library, json: JoinJson, s: GroupState, c: Credential, secret: seq<byte>,
                          n1: seq<byte>, n2: seq<byte>)
    requires GroupInv(lib, s) && Matches(s, c) && Exportable(s)
    requires var p := ExportJoinFor(lib, s, c, n1); p.Ok? ==> json.parse(json.render(p.value)) == Some(p.value)
    ensures var p := ExportJoinFor(lib, s, c, n1);
            && p.Ok?
            && var m := EncryptForShareLink(lib, json, p.value, secret, n2);
               var back := OpenShareLink(lib, json, m.link, m.secret);
               back == p && RestoreJoin(lib, back.value) == Ok((s, c))
  {
    JoinRoundTrip(lib, s, c, n1);
    LinkRoundTrip(lib, json, ExportJoinFor(lib, s, c, n1).value, secret, n2);
  }

  // ------------------------------------------------------------ arbitrary packages

  /** A package's snapshot opens to a payload if and only if package and snapshot name one group and
      epoch, the associated data is theirs, and what the package's secret opens unpads to that payload,
      which meets the commitment. */
  lemma OpensSnapshotExactly(lib: Routines, p: InvitePackage, payload: seq<byte>)
    ensures OpenSnapshot(lib, p) == Ok(payload) <==>
            && p.snapshot.groupId == p.groupId && p.snapshot.epoch == p.epoch
            && p.snapshot.envelope.aad == SnapshotAad(p.groupId, p.epoch)
            && lib.sha256(payload) == p.snapshot.commitment
            && exists padded ::
                 && lib.open(lib.hkdf(p.rootSecret, SnapshotKeyInfo(p.groupId, p.epoch)), p.snapshot.envelope.nonce,
                             p.snapshot.envelope.aad, p.snapshot.envelope.ciphertext) == Some(padded)
                 && Unpad(padded) == Ok(payload)
  {
  }

  /** With binding routines: an accepted invite package with the nonce and ciphertext of one exported from
      s is that very package, and restores s. */
  lemma AcceptedInviteIsExported(lib: Binding, s: GroupState, nonce: seq<byte>, p: InvitePackage)
    requires GroupInv(lib, s) && ExportInvite(lib, s, nonce).Ok? && RestoreInvite(lib, p).Ok?
    requires var e := ExportInvite(lib, s, nonce).value.snapshot.envelope;
             p.snapshot.envelope.nonce == e.nonce && p.snapshot.envelope.ciphertext == e.ciphertext
    ensures p == ExportInvite(lib, s, nonce).value && RestoreInvite(lib, p) == Ok(s)
  {
    var payload := EncodePayload(lib, s).value;
    var key, key' := lib.hkdf(s.rootSecret, SnapshotKeyInfo(s.groupId, s.epoch)),
                     lib.hkdf(p.rootSecret, SnapshotKeyInfo(p.groupId, p.epoch));
    OpensSnapshotExactly(lib, p, OpenSnapshot(lib, p).value);
    var e := p.snapshot.envelope;
    var padded := lib.open(key', e.nonce, e.aad, e.ciphertext).value;
    assert lib.seal(key', e.nonce, e.aad, padded)
        == lib.seal(key, nonce, SnapshotAad(s.groupId, s.epoch), Pad(payload, PADDING_BLOCK_SIZE));
    ScopedInjective(SNAPSHOT_LABEL, s.groupId, s.epoch, p.groupId, p.epoch);
    UnpadOfPad(payload, PADDING_BLOCK_SIZE);
    PayloadRoundTrip(lib, s, payload);
  }

  /** A join package restores if and only if the invite inside restores to a state of the credential's
      group and epoch that lists its user with its role. */
  lemma JoinsExactly(lib: Routines, p: JoinPackage, s: GroupState, c: Credential)
    ensures RestoreJoin(lib, p) == Ok((s, c)) <==>
            c == p.credential && RestoreInvite(lib, p.invite) == Ok(s) && p.invite.groupId == c.groupId
            && p.invite.epoch == c.epoch && FindRole(s.members, c.user) == Some(c.role)
  {
  }

  /** A share link opens to package p if and only if the secret meets the commitment, the associated data
      is that of the link, and the secret opens a JSON form of p, which names the link's group and epoch
      and restores. */
  lemma OpensLinkExactly(lib: Routines, json: JoinJson, link: LinkEnvelope, secret: seq<byte>, p: JoinPackage)
    ensures OpenShareLink(lib, json, link, secret) == Ok(p) <==>
            && lib.sha256(secret) == link.commitment && link.envelope.aad == LinkInviteAad(link.groupId, link.epoch)
            && p.invite.groupId == link.groupId && p.invite.epoch == link.epoch && RestoreJoin(lib, p).Ok?
            && exists text ::
                 && lib.open(lib.hkdf(secret, LinkKeyInfo(link.groupId, link.epoch)), link.envelope.nonce,
                             link.envelope.aad, link.envelope.ciphertext) == Some(text)
                 && json.parse(text) == Some(p)
  {
  }

  /** With binding routines: whoever opens a link with the nonce and ciphertext of a shared one used its
      secret, on an envelope of its group and epoch, and got the package shared. */
  lemma OpenedLinkIsShared(lib: Binding, json: JoinJson, p: JoinPackage, secret: seq<byte>, nonce: seq<byte>,
                           link: LinkEnvelope, tried: seq<byte>)
    requires json.parse(json.render(p)) == Some(p) && OpenShareLink(lib, json, link, tried).Ok?
    requires var e := EncryptForShareLink(lib, json, p, secret, nonce).link.envelope;
             link.envelope.nonce == e.nonce && link.envelope.ciphertext == e.ciphertext
    ensures tried == secret && link == EncryptForShareLink(lib, json, p, secret, nonce).link
            && OpenShareLink(lib, json, link, tried) == Ok(p)
  {
    OpensLinkExactly(lib, json, link, tried, OpenShareLink(lib, json, link, tried).value);
    var e := link.envelope;
    var key, key' := lib.hkdf(secret, LinkKeyInfo(p.invite.groupId, p.invite.epoch)),
                     lib.hkdf(tried, LinkKeyInfo(link.groupId, link.epoch));
    var text := lib.open(key', e.nonce, e.aad, e.ciphertext).value;
    assert lib.seal(key', e.nonce, e.aad, text)
        == lib.seal(key, nonce, LinkInviteAad(p.invite.groupId, p.invite.epoch), json.render(p));
    LinkInviteAadInjective(p.invite.groupId, p.invite.epoch, link.groupId, link.epoch);
  }

  /** A snapshot shows no more of the payload's length than how many blocks it fills. */
  lemma SnapshotHidesLength(lib: Library, s: GroupState, nonce: seq<byte>)
    requires EncryptedSnapshot(lib, s, nonce).Ok?
    ensures EncodePayload(lib, s).Ok?
    ensures |EncryptedSnapshot(lib, s, nonce).value.envelope.ciphertext|
            == PADDING_BLOCK_SIZE * ((|EncodePayload(lib, s).value| + PADDING_BLOCK_SIZE) / PADDING_BLOCK_SIZE) + 16
  {
  }

  /** Whatever invite package is accepted, the state satisfies the run invariant and carries the
      package's group id, epoch and secret. */
  lemma AcceptedInviteIsGood(lib: Routines, p: InvitePackage)
    requires RestoreInvite(lib, p).Ok?
    ensures var s := RestoreInvite(lib, p).value;
            GroupInv(lib, s) && s.groupId == p.groupId && s.epoch == p.epoch && s.rootSecret == p.rootSecret
  {
    var key := lib.hkdf(p.rootSecret, SnapshotKeyInfo(p.groupId, p.epoch));
    var decrypted := OpenWith(lib, key, p.snapshot.envelope).value;
    AcceptedPayloadIsGood(lib, p.groupId, p.epoch, p.rootSecret, Unpad(decrypted).value);
  }

  /** Whatever join package is accepted, its credential names a real member of the restored state
      with that role, group and epoch. */
  lemma AcceptedJoinIsGood(lib: Routines, p: JoinPackage)
    requires RestoreJoin(lib, p).Ok?
    ensures var (s, c) := RestoreJoin(lib, p).value;
            && GroupInv(lib, s) && c == p.credential && Matches(s, c)
            && GroupMember(c.user, c.role) in s.members
  {
    JoinsExactly(lib, p, RestoreJoin(lib, p).value.0, RestoreJoin(lib, p).value.1);
    AcceptedInviteIsGood(lib, p.invite);
    FoundIsListed(RestoreInvite(lib, p.invite).value.members, p.credential.user);
  }

  lemma FoundIsListed(ms: seq<GroupMember>, u: Str)
    requires Sorted(ms)
    ensures FindRole(ms, u).Some? ==> GroupMember(u, FindRole(ms, u).value) in ms
  {
    FindIsLookup(ms, u);
    SortedLists(ms);
  }

  /** Whatever share link is opened, the package inside restores and belongs to the group and
      epoch on the envelope. */
  lemma OpenedLinkIsGood(lib: Routines, json: JoinJson, link: LinkEnvelope, secret: seq<byte>)
    requires OpenShareLink(lib, json, link, secret).Ok?
    ensures var p := OpenShareLink(lib, json, link, secret).value;
            && RestoreJoin(lib, p).Ok?
            && var (s, c) := RestoreJoin(lib, p).value;
               GroupInv(lib, s) && Matches(s, c) && s.groupId == link.groupId && s.epoch == link.epoch
  {
    AcceptedJoinIsGood(lib, OpenShareLink(lib, json, link, secret).value);
  }
}
