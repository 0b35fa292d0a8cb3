/** The snapshot payload: a group state as a list of tagged records. Group id, epoch and root
    secret travel outside of it. */
module GroupPayload {
  import opened Core
  import opened Bytes
  import opened Text
  import opened Library
  import opened Tlv
  import opened Members
  import MemberCodec
  import opened Normalize
  import opened Group

  const T_OWNER: u16 := CriticalType(0x3001)
  const T_TITLE: u16 := CriticalType(0x3002)
  const T_DESCRIPTION: u16 := 0x3003
  const T_AVATAR: u16 := 0x3004
  const T_TIMER: u16 := 0x3005
  const T_CREATED: u16 := CriticalType(0x3006)
  const T_UPDATED: u16 := CriticalType(0x3007)
  const T_MEMBERS: u16 := CriticalType(0x3008)

  const KNOWN: set<u16> :=
    {T_OWNER, T_TITLE, T_DESCRIPTION, T_AVATAR, T_TIMER, T_CREATED, T_UPDATED, T_MEMBERS}

  function TimerBytes(t: Option<u32>): Option<seq<byte>> {
    match t
    case Some(v) => Some(Be32(v))
    case None => None
  }

  function FixedRecords(s: GroupState, memberBytes: seq<byte>): seq<TlvRecord> {
    [TlvRecord(T_OWNER, OwnerId(s.members)),
     TlvRecord(T_TITLE, s.attributes.title),
     TlvRecord(T_CREATED, Be64(s.createdAt)),
     TlvRecord(T_UPDATED, Be64(s.updatedAt)),
     TlvRecord(T_MEMBERS, memberBytes)]
  }

  function OptionalRecords(a: Attributes): seq<TlvRecord> {
    OptionalRecord(T_DESCRIPTION, a.description)
    + OptionalRecord(T_AVATAR, a.avatarHash)
    + OptionalRecord(T_TIMER, TimerBytes(a.timerSeconds))
  }

  function Records(s: GroupState, memberBytes: seq<byte>): seq<TlvRecord> {
    FixedRecords(s, memberBytes) + OptionalRecords(s.attributes)
  }

  function EncodePayload(lib: Routines, s: GroupState): Result<seq<byte>> {
    var memberBytes :- MemberCodec.EncodeMembers(lib, s.members);
    Encode(Records(s, memberBytes))
  }

  function DecodeU64(v: seq<byte>): Result<u64> {
    if |v| == 8 then Ok(FromBe64(v)) else Err(InvalidLength)
  }

  function DecodeU32(v: seq<byte>): Result<u32> {
    if |v| == 4 then Ok(FromBe32(v)) else Err(InvalidLength)
  }

  /** An absent optional record is no value; a present one must decode. */
  function OptionalText(lib: Routines, rs: seq<TlvRecord>, ty: u16): Result<Option<Str>> {
    match Find(rs, ty)
    case None => Ok(None)
    case Some(v) =>
      var t :- MemberCodec.DecodeText(lib, v);
      Ok(Some(t))
  }

  function OptionalU32(rs: seq<TlvRecord>, ty: u16): Result<Option<u32>> {
    match Find(rs, ty)
    case None => Ok(None)
    case Some(v) =>
      var n :- DecodeU32(v);
      Ok(Some(n))
  }

  function RequiredText(lib: Routines, rs: seq<TlvRecord>, ty: u16): Result<Str> {
    var v :- Require(rs, ty);
    MemberCodec.DecodeText(lib, v)
  }

  function RequiredU64(rs: seq<TlvRecord>, ty: u16): Result<u64> {
    var v :- Require(rs, ty);
    DecodeU64(v)
  }

  function RequiredMembers(lib: Routines, rs: seq<TlvRecord>): Result<seq<GroupMember>> {
    var v :- Require(rs, T_MEMBERS);
    MemberCodec.DecodeMembers(lib, v)
  }

  function StateOfRecords(lib: Routines, groupId: Str, epoch: u64, rootSecret: seq<byte>,
                          rs: seq<TlvRecord>): Result<GroupState> {
    var owner :- RequiredText(lib, rs, T_OWNER);
    var title :- RequiredText(lib, rs, T_TITLE);
    var createdAt :- RequiredU64(rs, T_CREATED);
    var updatedAt :- RequiredU64(rs, T_UPDATED);
    var description :- OptionalText(lib, rs, T_DESCRIPTION);
    var avatarHash :- OptionalText(lib, rs, T_AVATAR);
    var timer :- OptionalU32(rs, T_TIMER);
    var decoded :- RequiredMembers(lib, rs);
    var members :- NormalizeMembers(lib, owner, decoded);
    var attributes := Attributes(title, description, avatarHash, timer);
    var _ :- ValidateAttributes(lib, attributes);
    Ok(GroupState(groupId, epoch, rootSecret, attributes, members, createdAt, updatedAt))
  }

  function DecodePayload(lib: Routines, groupId: Str, epoch: u64, rootSecret: seq<byte>,
                         payload: seq<byte>): Result<GroupState> {
    var rs :- DecodeStrict(payload, KNOWN);
    StateOfRecords(lib, groupId, epoch, rootSecret, rs)
  }

  // ------------------------------------------------------------ record lookup

  lemma FindOptional(a: Attributes, ty: u16)
    ensures Find(OptionalRecords(a), ty) ==
            if ty == T_DESCRIPTION then a.description
            else if ty == T_AVATAR then a.avatarHash
            else if ty == T_TIMER then TimerBytes(a.timerSeconds)
            else None
  {
    var d, h, t := OptionalRecord(T_DESCRIPTION, a.description), OptionalRecord(T_AVATAR, a.avatarHash),
                   OptionalRecord(T_TIMER, TimerBytes(a.timerSeconds));
    FindAppend(d + h, t, ty);
    FindAppend(d, h, ty);
  }

  /** The i-th fixed record is found by its type. */
  lemma FindFixed(s: GroupState, mb: seq<byte>, i: nat)
    requires i < 5
    ensures var r := FixedRecords(s, mb)[i]; Find(Records(s, mb), r.ty) == Some(r.value)
  {
    FindAt(FixedRecords(s, mb), i);
    FindAppend(FixedRecords(s, mb), OptionalRecords(s.attributes), FixedRecords(s, mb)[i].ty);
  }

  lemma FindOptionalRecord(s: GroupState, mb: seq<byte>, ty: u16)
    requires ty == T_DESCRIPTION || ty == T_AVATAR || ty == T_TIMER
    ensures Find(Records(s, mb), ty) == Find(OptionalRecords(s.attributes), ty)
  {
    FindAbsent(FixedRecords(s, mb), ty);
    FindAppend(FixedRecords(s, mb), OptionalRecords(s.attributes), ty);
  }

  lemma RecordsAdmissible(s: GroupState, mb: seq<byte>)
    ensures Admissible(Records(s, mb), KNOWN, {})
  {
    var a := s.attributes;
    var d, h, t := OptionalRecord(T_DESCRIPTION, a.description), OptionalRecord(T_AVATAR, a.avatarHash),
                   OptionalRecord(T_TIMER, TimerBytes(a.timerSeconds));
    AdmissibleAppend(d, h, KNOWN);
    AdmissibleAppend(d + h, t, KNOWN);
    AdmissibleAppend(FixedRecords(s, mb), OptionalRecords(a), KNOWN);
  }

  // ------------------------------------------------------------ round trip

  lemma ReadFixed(lib: Routines, s: GroupState, mb: seq<byte>)
    requires GroupInv(lib, s)
    ensures var rs := Records(s, mb);
            && RequiredText(lib, rs, T_OWNER) == Ok(OwnerId(s.members))
            && RequiredText(lib, rs, T_TITLE) == Ok(s.attributes.title)
            && RequiredU64(rs, T_CREATED) == Ok(s.createdAt)
            && RequiredU64(rs, T_UPDATED) == Ok(s.updatedAt)
            && Find(rs, T_MEMBERS) == Some(mb)
  {
    FindFixed(s, mb, 0);
    FindFixed(s, mb, 1);
    FindFixed(s, mb, 2);
    FindFixed(s, mb, 3);
    FindFixed(s, mb, 4);
    Be64RoundTrip(s.createdAt);
    Be64RoundTrip(s.updatedAt);
    OwnerIsLeast(s.members);
    SortedLists(s.members);
    assert GroupMember(OwnerId(s.members), Owner) in s.members;
  }

  lemma ReadOptional(lib: Routines, s: GroupState, mb: seq<byte>)
    requires TextAttributes(lib, s.attributes)
    ensures var rs := Records(s, mb);
            && OptionalText(lib, rs, T_DESCRIPTION) == Ok(s.attributes.description)
            && OptionalText(lib, rs, T_AVATAR) == Ok(s.attributes.avatarHash)
            && OptionalU32(rs, T_TIMER) == Ok(s.attributes.timerSeconds)
  {
    FindOptionalRecord(s, mb, T_DESCRIPTION);
    FindOptionalRecord(s, mb, T_AVATAR);
    FindOptionalRecord(s, mb, T_TIMER);
    FindOptional(s.attributes, T_DESCRIPTION);
    FindOptional(s.attributes, T_AVATAR);
    FindOptional(s.attributes, T_TIMER);
    if s.attributes.timerSeconds.Some? {
      Be32RoundTrip(s.attributes.timerSeconds.value);
    }
  }

  /** Decoding the payload of any state that satisfies the run invariant gives the state back. */
  lemma PayloadRoundTrip(lib: Routines, s: GroupState, payload: seq<byte>)
    requires GroupInv(lib, s) && EncodePayload(lib, s) == Ok(payload)
    ensures DecodePayload(lib, s.groupId, s.epoch, s.rootSecret, payload) == Ok(s)
  {
    var mb := MemberCodec.EncodeMembers(lib, s.members).value;
    var rs := Records(s, mb);
    RecordsAdmissible(s, mb);
    Tlv.DecodeOfEncode(rs, KNOWN, {});
    ReadFixed(lib, s, mb);
    ReadOptional(lib, s, mb);
    MembersReadBack(lib, s, mb);
  }

  lemma MembersReadBack(lib: Routines, s: GroupState, mb: seq<byte>)
    requires GroupInv(lib, s) && MemberCodec.EncodeMembers(lib, s.members) == Ok(mb)
    ensures MemberCodec.DecodeMembers(lib, mb) == Ok(s.members)
    ensures NormalizeMembers(lib, OwnerId(s.members), s.members) == Ok(s.members)
  {
    MemberCodec.EncodesWhen(lib, s.members);
    assert MemberCodec.TextIds(lib, s.members) by {
      assert forall i :: 0 <= i < |s.members| ==> s.members[i] in s.members;
    }
    MemberCodec.DecodeOfEncode(lib, s.members);
    OwnerIsLeast(s.members);
    NormalizeIdentity(lib, OwnerId(s.members), s.members);
  }

  /** Whatever payload is accepted, the decoded state satisfies the run invariant. */
  lemma AcceptedPayloadIsGood(lib: Routines, groupId: Str, epoch: u64, rootSecret: seq<byte>, payload: seq<byte>)
    requires DecodePayload(lib, groupId, epoch, rootSecret, payload).Ok?
    ensures var s := DecodePayload(lib, groupId, epoch, rootSecret, payload).value;
            && GroupInv(lib, s)
            && s.groupId == groupId && s.epoch == epoch && s.rootSecret == rootSecret
  {
    var rs := DecodeStrict(payload, KNOWN).value;
    var owner := RequiredText(lib, rs, T_OWNER).value;
    var decoded := RequiredMembers(lib, rs).value;
    DecodedIdsAreText(lib, rs);
    NormalizedIsGood(lib, owner, decoded);
  }

  lemma {:induction false} EntriesAreText(lib: Routines, input: seq<byte>, count: nat)
    requires MemberCodec.ParseEntries(lib, input, count).Ok?
    ensures forall m :: m in MemberCodec.ParseEntries(lib, input, count).value ==> lib.utf8(m.userId)
  {
    if count > 0 {
      var (m, n) := MemberCodec.ParseEntry(lib, input).value;
      EntriesAreText(lib, input[n..], count - 1);
    }
  }

  lemma DecodedIdsAreText(lib: Routines, rs: seq<TlvRecord>)
    requires RequiredMembers(lib, rs).Ok?
    ensures forall m :: m in RequiredMembers(lib, rs).value ==> lib.utf8(m.userId)
  {
    var v := Require(rs, T_MEMBERS).value;
    EntriesAreText(lib, v[2..], FromBe16(v[0..2]));
  }

  // ------------------------------------------------------------ when a state can be exported

  predicate SmallOption(o: Option<Str>) {
    o.Some? ==> |o.value| <= U16_MAX
  }

  /** Sizes a caller can check: each field fits a record and the member list fits one record. */
  predicate Exportable(s: GroupState) {
    && 2 + MemberCodec.BodyLength(s.members) <= U16_MAX
    && |s.attributes.title| <= U16_MAX
    && SmallOption(s.attributes.description) && SmallOption(s.attributes.avatarHash)
  }

  lemma {:induction false} BodyBounds(ms: seq<GroupMember>, m: GroupMember)
    requires m in ms
    ensures 3 + |m.userId| <= MemberCodec.BodyLength(ms)
  {
    if m != ms[0] {
      BodyBounds(ms[1..], m);
    }
  }

  lemma {:induction false} BodyCounts(ms: seq<GroupMember>)
    ensures 3 * |ms| <= MemberCodec.BodyLength(ms)
  {
    if ms != [] { BodyCounts(ms[1..]); }
  }

  lemma FitsFixed(s: GroupState, mb: seq<byte>)
    ensures Fits(FixedRecords(s, mb)) <==>
            |OwnerId(s.members)| <= U16_MAX && |s.attributes.title| <= U16_MAX && |mb| <= U16_MAX
  {
    var f := FixedRecords(s, mb);
    if Fits(f) {
      assert |f[0].value| <= U16_MAX && |f[1].value| <= U16_MAX && |f[4].value| <= U16_MAX;
    }
  }

  lemma FitsOptional(a: Attributes)
    ensures Fits(OptionalRecords(a)) <==> SmallOption(a.description) && SmallOption(a.avatarHash)
  {
    var d, h, t := OptionalRecord(T_DESCRIPTION, a.description), OptionalRecord(T_AVATAR, a.avatarHash),
                   OptionalRecord(T_TIMER, TimerBytes(a.timerSeconds));
    FitsAppend(d + h, t);
    FitsAppend(d, h);
    if a.description.Some? { assert d[0].value == a.description.value; }
    if a.avatarHash.Some? { assert h[0].value == a.avatarHash.value; }
  }

  /** A state of a run can be exported exactly when its sizes allow it. */
  lemma ExportsWhen(lib: Routines, s: GroupState)
    requires GroupInv(lib, s)
    ensures EncodePayload(lib, s).Ok? <==> Exportable(s)
  {
    MemberCodec.EncodesWhen(lib, s.members);
    OwnerIsLeast(s.members);
    SortedLists(s.members);
    BodyBounds(s.members, GroupMember(OwnerId(s.members), Owner));
    BodyCounts(s.members);
    FitsOptional(s.attributes);
    if Exportable(s) {
      forall i | 0 <= i < |s.members| ensures MemberCodec.EncodableMember(lib, s.members[i]) {
        BodyBounds(s.members, s.members[i]);
      }
    }
    if MemberCodec.EncodeMembers(lib, s.members).Ok? {
      var mb := MemberCodec.EncodeMembers(lib, s.members).value;
      MemberCodec.EncodedLength(lib, s.members);
      FitsFixed(s, mb);
      FitsAppend(FixedRecords(s, mb), OptionalRecords(s.attributes));
    }
  }
}
