/** The binary member list: a two-byte count, then per member a two-byte id length, the id
    and a role byte. */
module MemberCodec {
  import opened Core
  import opened Bytes
  import opened Text
  import opened Library
  import opened Members

  function RoleByte(r: Role): byte {
    match r
    case Owner => 1
    case Admin => 2
    case Member => 3
  }

  function RoleOfByte(b: byte): Result<Role> {
    if b == 1 then Ok(Owner)
    else if b == 2 then Ok(Admin)
    else if b == 3 then Ok(Member)
    else Err(MessageParsing)
  }

  function ValidateUserId(lib: Routines, u: Str): (r: Result<Unit>)
    ensures r.Ok? <==> !lib.blank(u)
  {
    if lib.blank(u) then Err(PolicyViolation("user id cannot be blank")) else Ok(Unit)
  }

  // ------------------------------------------------------------ specification

  predicate EncodableMember(lib: Routines, m: GroupMember) {
    !lib.blank(m.userId) && |m.userId| <= U16_MAX
  }

  /** What the encoder demands of a list; a caller can check it beforehand. */
  predicate Encodable(lib: Routines, ms: seq<GroupMember>) {
    |ms| <= U16_MAX && forall i :: 0 <= i < |ms| ==> EncodableMember(lib, ms[i])
  }

  function MemberBytes(m: GroupMember): (s: seq<byte>)
    requires |m.userId| <= U16_MAX
    ensures |s| == 3 + |m.userId|
  {
    Be16(|m.userId|) + m.userId + [RoleByte(m.role)]
  }

  /** All ids are strings, that is, well-formed UTF-8. */
  predicate TextIds(lib: Routines, ms: seq<GroupMember>) {
    forall i :: 0 <= i < |ms| ==> lib.utf8(ms[i].userId)
  }

  function EncodeEntries(lib: Routines, ms: seq<GroupMember>): Result<seq<byte>> {
    if ms == [] then Ok([])
    else
      var _ :- ValidateUserId(lib, ms[0].userId);
      if |ms[0].userId| > U16_MAX then Err(InvalidLength)
      else
        var rest :- EncodeEntries(lib, ms[1..]);
        Ok(MemberBytes(ms[0]) + rest)
  }

  function EncodeMembers(lib: Routines, ms: seq<GroupMember>): Result<seq<byte>> {
    if |ms| > U16_MAX then Err(InvalidLength)
    else
      var body :- EncodeEntries(lib, ms);
      Ok(Be16(|ms|) + body)
  }

  function DecodeText(lib: Routines, s: seq<byte>): (r: Result<Str>)
    ensures r.Ok? ==> r.value == s
    ensures r.Ok? <==> lib.utf8(s)
  {
    if lib.utf8(s) then Ok(s) else Err(InvalidUtf8)
  }

  /** The entry at the head of the input, with the number of bytes it takes. */
  function ParseEntry(lib: Routines, input: seq<byte>): (r: Result<(GroupMember, nat)>)
    ensures r.Ok? ==> r.value.1 <= |input|
  {
    if |input| < 3 then Err(MessageParsing)
    else
      var len := FromBe16(input[0..2]);
      if |input| - 2 < len + 1 then Err(MessageParsing)
      else
        var u :- DecodeText(lib, input[2..2 + len]);
        var role :- RoleOfByte(input[2 + len]);
        Ok((GroupMember(u, role), 3 + len))
  }

  function ParseEntries(lib: Routines, input: seq<byte>, count: nat): Result<seq<GroupMember>> {
    if count == 0 then
      if input == [] then Ok([]) else Err(MessageParsing)
    else
      var (m, n) :- ParseEntry(lib, input);
      var rest :- ParseEntries(lib, input[n..], count - 1);
      Ok([m] + rest)
  }

  function DecodeMembers(lib: Routines, input: seq<byte>): Result<seq<GroupMember>> {
    if |input| < 2 then Err(MessageParsing)
    else ParseEntries(lib, input[2..], FromBe16(input[0..2]))
  }

  // ------------------------------------------------------------ the loops

  method EncodeLoop(lib: Routines, ms: seq<GroupMember>) returns (r: Result<seq<byte>>)
    ensures r == EncodeMembers(lib, ms)
  {
    if |ms| > U16_MAX {
      return Err(InvalidLength);
    }
    var encoded: seq<byte> := Be16(|ms|);
    assert ms[0..] == ms;
    for i := 0 to |ms|
      invariant EncodeMembers(lib, ms) == Prefixed(encoded, EncodeEntries(lib, ms[i..]))
    {
      var u := ms[i].userId;
      assert ms[i..][0] == ms[i] && ms[i..][1..] == ms[i + 1..];
      var checked := ValidateUserId(lib, u);
      if checked.Err? {
        return Err(checked.error);
      }
      if |u| > U16_MAX {
        return Err(InvalidLength);
      }
      PrefixedStep(encoded, MemberBytes(ms[i]), EncodeEntries(lib, ms[i + 1..]));
      assert encoded + Be16(|u|) + u + [RoleByte(ms[i].role)] == encoded + MemberBytes(ms[i]);
      encoded := encoded + Be16(|u|) + u + [RoleByte(ms[i].role)];
    }
    assert ms[|ms|..] == [];
    assert encoded + [] == encoded;
    r := Ok(encoded);
  }

  /** The entry at a cursor, with the cursor after it. */
  function EntryAt(lib: Routines, input: seq<byte>, start: nat): (r: Result<(GroupMember, nat)>)
    requires start <= |input|
    ensures r.Ok? ==> start <= r.value.1 <= |input|
  {
    match ParseEntry(lib, input[start..])
    case Ok((m, n)) => Ok((m, start + n))
    case Err(e) => Err(e)
  }

  /** One turn of the cursor loop; every index it uses is checked to be in bounds. */
  method ReadEntry(lib: Routines, input: seq<byte>, start: nat) returns (r: Result<(GroupMember, nat)>)
    requires start <= |input|
    ensures r == EntryAt(lib, input, start)
  {
    ghost var here := input[start..];
    var cursor := start;
    if |input| - cursor < 3 {
      return Err(MessageParsing);
    }
    var len: int := FromBe16(input[cursor..cursor + 2]);
    assert here[0..2] == input[cursor..cursor + 2];
    cursor := cursor + 2;
    if |input| - cursor < len + 1 {
      return Err(MessageParsing);
    }
    assert here[2..2 + len] == input[cursor..cursor + len];
    var userId := DecodeText(lib, input[cursor..cursor + len]);
    if userId.Err? {
      return Err(userId.error);
    }
    cursor := cursor + len;
    var role := RoleOfByte(input[cursor]);
    if role.Err? {
      return Err(role.error);
    }
    cursor := cursor + 1;
    r := Ok((GroupMember(userId.value, role.value), cursor));
  }

  /** Members read before the rest gives r. */
  ghost predicate Reads(whole: Result<seq<GroupMember>>, done: seq<GroupMember>, r: Result<seq<GroupMember>>) {
    whole == Prefixed(done, r)
  }

  lemma ReadsStart(whole: Result<seq<GroupMember>>)
    ensures Reads(whole, [], whole)
  {
    PrefixedStep([], [], whole);
  }

  /** What one turn does to the outcome of the whole loop. */
  lemma ReadsTurn(lib: Routines, input: seq<byte>, start: nat, k: nat, whole: Result<seq<GroupMember>>,
                  done: seq<GroupMember>, r: Result<(GroupMember, nat)>)
    requires start <= |input| && k > 0 && r == EntryAt(lib, input, start)
    requires Reads(whole, done, ParseEntries(lib, input[start..], k))
    ensures match r
            case Ok((m, n)) => Reads(whole, done + [m], ParseEntries(lib, input[n..], k - 1))
            case Err(e) => whole == Err(e)
  {
    var here := input[start..];
    if ParseEntry(lib, here).Ok? {
      var (m, n) := ParseEntry(lib, here).value;
      assert here[n..] == input[start + n..];
      PrefixedStep(done, [m], ParseEntries(lib, input[start + n..], k - 1));
    }
  }

  lemma ReadsEnd(lib: Routines, rest: seq<byte>, whole: Result<seq<GroupMember>>, done: seq<GroupMember>)
    requires Reads(whole, done, ParseEntries(lib, rest, 0))
    ensures whole == if rest == [] then Ok(done) else Err(MessageParsing)
  {
    PrefixedStep(done, [], Ok([]));
  }

  method DecodeLoop(lib: Routines, input: seq<byte>) returns (r: Result<seq<GroupMember>>)
    ensures r == DecodeMembers(lib, input)
  {
    if |input| < 2 {
      return Err(MessageParsing);
    }
    r := DecodeEntries(lib, input, 2, FromBe16(input[0..2]));
  }

  method DecodeEntries(lib: Routines, input: seq<byte>, start: nat, count: nat) returns (r: Result<seq<GroupMember>>)
    requires start <= |input|
    ensures r == ParseEntries(lib, input[start..], count)
  {
    var cursor := start;
    var members: seq<GroupMember> := [];
    ghost var whole := ParseEntries(lib, input[start..], count);
    ReadsStart(whole);
    for k := 0 to count
      invariant start <= cursor <= |input|
      invariant Reads(whole, members, ParseEntries(lib, input[cursor..], count - k))
    {
      var entry := ReadEntry(lib, input, cursor);
      ReadsTurn(lib, input, cursor, count - k, whole, members, entry);
      if entry.Err? {
        return Err(entry.error);
      }
      members := members + [entry.value.0];
      cursor := entry.value.1;
    }
    ReadsEnd(lib, input[cursor..], whole, members);
    r := if cursor != |input| then Err(MessageParsing) else Ok(members);
  }

  // ------------------------------------------------------------ properties

  lemma {:induction false} EntriesEncodeWhen(lib: Routines, ms: seq<GroupMember>)
    ensures EncodeEntries(lib, ms).Ok? <==> forall i :: 0 <= i < |ms| ==> EncodableMember(lib, ms[i])
  {
    if ms != [] {
      EntriesEncodeWhen(lib, ms[1..]);
      assert ms == [ms[0]] + ms[1..];
    }
  }

  /** Encoding succeeds exactly on encodable lists. */
  lemma EncodesWhen(lib: Routines, ms: seq<GroupMember>)
    ensures EncodeMembers(lib, ms).Ok? <==> Encodable(lib, ms)
  {
    EntriesEncodeWhen(lib, ms);
  }

  lemma ParseHead(lib: Routines, m: GroupMember, tail: seq<byte>)
    requires |m.userId| <= U16_MAX && lib.utf8(m.userId)
    ensures ParseEntry(lib, MemberBytes(m) + tail) == Ok((m, 3 + |m.userId|))
    ensures (MemberBytes(m) + tail)[3 + |m.userId|..] == tail
  {
    var s := MemberBytes(m) + tail;
    assert s[0..2] == Be16(|m.userId|);
    assert s[2..2 + |m.userId|] == m.userId;
    assert s[2 + |m.userId|] == RoleByte(m.role);
  }

  lemma ParseStep(lib: Routines, input: seq<byte>, count: nat, m: GroupMember, n: nat, rest: seq<GroupMember>)
    requires count > 0 && ParseEntry(lib, input) == Ok((m, n))
    requires ParseEntries(lib, input[n..], count - 1) == Ok(rest)
    ensures ParseEntries(lib, input, count) == Ok([m] + rest)
  {
  }

  lemma ParseCons(lib: Routines, m: GroupMember, tail: seq<byte>, rest: seq<GroupMember>)
    requires |m.userId| <= U16_MAX && lib.utf8(m.userId)
    requires ParseEntries(lib, tail, |rest|) == Ok(rest)
    ensures ParseEntries(lib, MemberBytes(m) + tail, |rest| + 1) == Ok([m] + rest)
  {
    ParseHead(lib, m, tail);
    ParseStep(lib, MemberBytes(m) + tail, |rest| + 1, m, 3 + |m.userId|, rest);
  }

  lemma {:induction false} EntriesRoundTrip(lib: Routines, ms: seq<GroupMember>, s: seq<byte>)
    requires EncodeEntries(lib, ms) == Ok(s) && TextIds(lib, ms)
    ensures ParseEntries(lib, s, |ms|) == Ok(ms)
    decreases |ms|
  {
    if ms != [] {
      var m, rest := ms[0], ms[1..];
      EntriesRoundTrip(lib, rest, EncodeEntries(lib, rest).value);
      ParseCons(lib, m, EncodeEntries(lib, rest).value, rest);
      assert [m] + rest == ms;
    }
  }

  /** Decoding undoes encoding on every encodable list. */
  lemma DecodeOfEncode(lib: Routines, ms: seq<GroupMember>)
    requires Encodable(lib, ms) && TextIds(lib, ms)
    ensures EncodeMembers(lib, ms).Ok? && DecodeMembers(lib, EncodeMembers(lib, ms).value) == Ok(ms)
  {
    EncodesWhen(lib, ms);
    EntriesRoundTrip(lib, ms, EncodeEntries(lib, ms).value);
    var s := EncodeMembers(lib, ms).value;
    assert s[0..2] == Be16(|ms|) && s[2..] == EncodeEntries(lib, ms).value;
  }

  lemma EntryBytes(lib: Routines, input: seq<byte>)
    requires ParseEntry(lib, input).Ok?
    ensures var (m, n) := ParseEntry(lib, input).value;
            |m.userId| <= U16_MAX && n == 3 + |m.userId| && input[..n] == MemberBytes(m)
  {
  }

  lemma {:induction false} EntriesReencode(lib: Routines, input: seq<byte>, count: nat, ms: seq<GroupMember>)
    requires ParseEntries(lib, input, count) == Ok(ms)
    requires forall m :: m in ms ==> !lib.blank(m.userId)
    ensures |ms| == count && EncodeEntries(lib, ms) == Ok(input)
    decreases count
  {
    if count > 0 {
      var (m, n) := ParseEntry(lib, input).value;
      var rest := ParseEntries(lib, input[n..], count - 1).value;
      assert ms == [m] + rest;
      assert forall x :: x in rest ==> x in [m] + rest;
      EntriesReencode(lib, input[n..], count - 1, rest);
      assert m in [m] + rest;
      ReencodeStep(lib, input, rest);
    }
  }

  lemma ReencodeStep(lib: Routines, input: seq<byte>, rest: seq<GroupMember>)
    requires ParseEntry(lib, input).Ok?
    requires var (m, n) := ParseEntry(lib, input).value;
             !lib.blank(m.userId) && EncodeEntries(lib, rest) == Ok(input[n..])
    ensures EncodeEntries(lib, [ParseEntry(lib, input).value.0] + rest) == Ok(input)
  {
    var (m, n) := ParseEntry(lib, input).value;
    EntryBytes(lib, input);
    EncodeStep(lib, m, rest, input[n..]);
    assert input == input[..n] + input[n..];
  }

  lemma EncodeStep(lib: Routines, m: GroupMember, rest: seq<GroupMember>, tail: seq<byte>)
    requires EncodableMember(lib, m) && EncodeEntries(lib, rest) == Ok(tail)
    ensures EncodeEntries(lib, [m] + rest) == Ok(MemberBytes(m) + tail)
  {
  }

  /** Every accepted byte string whose ids are non-blank is the encoding of what was decoded. */
  lemma EncodeOfDecode(lib: Routines, input: seq<byte>)
    requires DecodeMembers(lib, input).Ok?
    requires forall m :: m in DecodeMembers(lib, input).value ==> !lib.blank(m.userId)
    ensures EncodeMembers(lib, DecodeMembers(lib, input).value) == Ok(input)
  {
    var ms := DecodeMembers(lib, input).value;
    EntriesReencode(lib, input[2..], FromBe16(input[0..2]), ms);
    assert input == input[0..2] + input[2..];
  }

  function BodyLength(ms: seq<GroupMember>): nat {
    if ms == [] then 0 else 3 + |ms[0].userId| + BodyLength(ms[1..])
  }

  lemma {:induction false} EncodedLength(lib: Routines, ms: seq<GroupMember>)
    requires EncodeEntries(lib, ms).Ok?
    ensures |EncodeEntries(lib, ms).value| == BodyLength(ms)
  {
    if ms != [] { EncodedLength(lib, ms[1..]); }
  }
}
