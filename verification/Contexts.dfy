/** The textual and binary contexts that bind keys, ciphertexts and hashes to a group, an epoch
    and a user, and which of them determine their fields. */
module Contexts {
  import opened Bytes
  import opened Text
  import opened Members
  import opened MemberCodec

  const COLON: byte := 0x3A

  /** The bytes of an ASCII literal. */
  function Ascii7(s: string): seq<byte> {
    seq(|s|, i requires 0 <= i < |s| => (s[i] as int) % 0x80)
  }

  const SNAPSHOT_LABEL := Ascii7("pqmsg-private-group-snapshot-v1")
  const HANDLE_LABEL := Ascii7("pqmsg-private-group-member-handle-v1")
  const COMMITMENT_LABEL := Ascii7("pqmsg-private-group-member-commitment-v1")
  const FETCH_LABEL := Ascii7("pqmsg-private-group-member-fetch-key-v1")
  const PUBLISH_LABEL := Ascii7("pqmsg-private-group-member-publish-key-v1")
  const MESSAGE_KEY_LABEL := Ascii7("pqmsg-private-group-message-key-v1")
  const LINK_LABEL := Ascii7("pqmsg-private-group-link-invite-v1")
  const MESSAGE_AAD_LABEL := Ascii7("pqmsg-private-group-message-aad-v1")
  const MESSAGE_SIGNATURE_LABEL := Ascii7("pqmsg-private-group-message-signature-v1")

  // ------------------------------------------------------------ builders

  /** A label, the group id and the decimal epoch, joined by colons. */
  function Scoped(scope: seq<byte>, g: Str, epoch: u64): seq<byte> {
    scope + [COLON] + (g + ([COLON] + Decimal(epoch)))
  }

  function SnapshotAad(g: Str, epoch: u64): seq<byte> {
    Scoped(SNAPSHOT_LABEL, g, epoch)
  }

  function SnapshotKeyInfo(g: Str, epoch: u64): seq<byte> {
    Scoped(SNAPSHOT_LABEL + Ascii7(":key"), g, epoch)
  }

  function MessageKeyInfo(g: Str, epoch: u64): seq<byte> {
    Scoped(MESSAGE_KEY_LABEL, g, epoch)
  }

  function LinkKeyInfo(g: Str, epoch: u64): seq<byte> {
    Scoped(LINK_LABEL, g, epoch)
  }

  function LinkInviteAad(g: Str, epoch: u64): seq<byte> {
    LINK_LABEL + (g + Be64(epoch))
  }

  function MessageAad(g: Str, epoch: u64, sender: Str, sentAt: u64): seq<byte> {
    MESSAGE_AAD_LABEL + (g + (Be64(epoch) + (sender + Be64(sentAt))))
  }

  function HandleInput(g: Str, epoch: u64, role: Role, secret: seq<byte>): seq<byte> {
    HANDLE_LABEL + (g + (Be64(epoch) + ([RoleByte(role)] + secret)))
  }

  function CommitmentInput(g: Str, epoch: u64, user: Str, role: Role, secret: seq<byte>): seq<byte> {
    COMMITMENT_LABEL + (g + (Be64(epoch) + (user + ([RoleByte(role)] + secret))))
  }

  /** A label, the group id, the decimal epoch and the user, joined by colons: the fetch and publish keys. */
  function MemberKeyInfo(scope: seq<byte>, g: Str, epoch: u64, user: Str): seq<byte> {
    scope + [COLON] + UserScoped(g, epoch, user)
  }

  function UserScoped(g: Str, epoch: u64, user: Str): seq<byte> {
    g + ([COLON] + (Decimal(epoch) + ([COLON] + user)))
  }

  // ------------------------------------------------------------ group and epoch

  lemma EpochTail(g: Str, e: u64, g': Str, e': u64)
    requires g + ([COLON] + Decimal(e)) == g' + ([COLON] + Decimal(e'))
    ensures |g| <= |g'|
  {
    var s := g' + ([COLON] + Decimal(e'));
    assert forall i :: |g'| < i < |s| ==> s[i] == Decimal(e')[i - |g'| - 1] && s[i] != COLON;
    assert s[|g|] == COLON;
  }

  /** Snapshot AAD and all three key infos determine group id and epoch, for every group id:
      the epoch is what follows the last colon. */
  lemma ScopedInjective(scope: seq<byte>, g: Str, e: u64, g': Str, e': u64)
    requires Scoped(scope, g, e) == Scoped(scope, g', e')
    ensures g == g' && e == e'
  {
    SplitAt(scope + [COLON], g + ([COLON] + Decimal(e)), scope + [COLON], g' + ([COLON] + Decimal(e')));
    EpochTail(g, e, g', e');
    EpochTail(g', e', g, e);
    SplitAt(g, [COLON] + Decimal(e), g', [COLON] + Decimal(e'));
    SplitAt([COLON], Decimal(e), [COLON], Decimal(e'));
    DecimalInjective(e, e');
  }

  /** The link-invite AAD determines group id and epoch, for every group id. */
  lemma LinkInviteAadInjective(g: Str, e: u64, g': Str, e': u64)
    requires LinkInviteAad(g, e) == LinkInviteAad(g', e')
    ensures g == g' && e == e'
  {
    SplitAt(LINK_LABEL, g + Be64(e), LINK_LABEL, g' + Be64(e'));
    SplitAt(g, Be64(e), g', Be64(e'));
    Be64Injective(e, e');
  }

  /** The handle input determines all its fields, for every group id. */
  lemma HandleInputInjective(g: Str, e: u64, r: Role, x: seq<byte>, g': Str, e': u64, r': Role, x': seq<byte>)
    requires |x| == |x'| && HandleInput(g, e, r, x) == HandleInput(g', e', r', x')
    ensures g == g' && e == e' && r == r' && x == x'
  {
    var tail, tail' := [RoleByte(r)] + x, [RoleByte(r')] + x';
    SplitAt(HANDLE_LABEL, g + (Be64(e) + tail), HANDLE_LABEL, g' + (Be64(e') + tail'));
    SplitAt(g, Be64(e) + tail, g', Be64(e') + tail');
    SplitAt(Be64(e), tail, Be64(e'), tail');
    SplitAt([RoleByte(r)], x, [RoleByte(r')], x');
    Be64Injective(e, e');
  }

  // ------------------------------------------------------------ message AAD

  lemma MessageAadInjective(g: Str, e: u64, u: Str, t: u64, g': Str, e': u64, u': Str, t': u64)
    requires |g| == |g'| && MessageAad(g, e, u, t) == MessageAad(g', e', u', t')
    ensures g == g' && e == e' && u == u' && t == t'
  {
    var rest, rest' := u + Be64(t), u' + Be64(t');
    SplitAt(MESSAGE_AAD_LABEL, g + (Be64(e) + rest), MESSAGE_AAD_LABEL, g' + (Be64(e') + rest'));
    SplitAt(g, Be64(e) + rest, g', Be64(e') + rest');
    SplitAt(Be64(e), rest, Be64(e'), rest');
    SplitAt(u, Be64(t), u', Be64(t'));
    Be64Injective(e, e');
    Be64Injective(t, t');
  }

  function Nul(n: nat): (z: seq<byte>)
    ensures |z| == n && Ascii(z)
  {
    seq(n, _ => 0)
  }

  /** Group ids of different lengths can share an AAD: NUL characters move from one field to
      the other. */
  lemma MessageAadCollision(a: nat, b: nat)
    ensures MessageAad(Nul(a), 0, Nul(b + 1), 0) == MessageAad(Nul(b), 0, Nul(a + 1), 0)
  {
    assert Nul(a) + (Be64(0) + (Nul(b + 1) + Be64(0))) == Nul(a + b + 17);
    assert Nul(b) + (Be64(0) + (Nul(a + 1) + Be64(0))) == Nul(a + b + 17);
  }

  /** For group ids of lengths a and b the message AAD determines group, epoch, sender and time
      exactly when a == b. (All group ids made by the code have 32 characters.) */
  lemma MessageAadExact(a: nat, b: nat)
    ensures (forall g: Str, e: u64, u: Str, t: u64, g': Str, e': u64, u': Str, t': u64 ::
               |g| == a && |g'| == b && MessageAad(g, e, u, t) == MessageAad(g', e', u', t')
               ==> g == g' && e == e' && u == u' && t == t')
            <==> a == b
  {
    if a == b {
      forall g: Str, e: u64, u: Str, t: u64, g': Str, e': u64, u': Str, t': u64
        | |g| == a && |g'| == b && MessageAad(g, e, u, t) == MessageAad(g', e', u', t')
        ensures g == g' && e == e' && u == u' && t == t'
      {
        MessageAadInjective(g, e, u, t, g', e', u', t');
      }
    } else {
      MessageAadCollision(a, b);
      assert |Nul(a)| != |Nul(b)|;
    }
  }

  // ------------------------------------------------------------ member commitment

  lemma CommitmentInputInjective(g: Str, e: u64, u: Str, r: Role, x: seq<byte>,
                                 g': Str, e': u64, u': Str, r': Role, x': seq<byte>)
    requires |g| == |g'| && |x| == |x'|
    requires CommitmentInput(g, e, u, r, x) == CommitmentInput(g', e', u', r', x')
    ensures g == g' && e == e' && u == u' && r == r' && x == x'
  {
    var end, end' := [RoleByte(r)] + x, [RoleByte(r')] + x';
    SplitAt(COMMITMENT_LABEL, g + (Be64(e) + (u + end)), COMMITMENT_LABEL, g' + (Be64(e') + (u' + end')));
    SplitAt(g, Be64(e) + (u + end), g', Be64(e') + (u' + end'));
    SplitAt(Be64(e), u + end, Be64(e'), u' + end');
    SplitAt(u, end, u', end');
    SplitAt([RoleByte(r)], x, [RoleByte(r')], x');
    Be64Injective(e, e');
  }

  lemma CommitmentCollision(a: nat, b: nat, r: Role, x: seq<byte>)
    ensures CommitmentInput(Nul(a), 0, Nul(b + 1), r, x) == CommitmentInput(Nul(b), 0, Nul(a + 1), r, x)
  {
    var end := [RoleByte(r)] + x;
    assert Nul(a) + (Be64(0) + (Nul(b + 1) + end)) == Nul(a + b + 9) + end;
    assert Nul(b) + (Be64(0) + (Nul(a + 1) + end)) == Nul(a + b + 9) + end;
  }

  /** The member commitment input determines its fields exactly for equally long group ids. */
  lemma CommitmentExact(a: nat, b: nat)
    ensures (forall g: Str, e: u64, u: Str, r: Role, x: seq<byte>, g': Str, e': u64, u': Str, r': Role, x': seq<byte> ::
               |g| == a && |g'| == b && |x| == |x'| == 32
                   && CommitmentInput(g, e, u, r, x) == CommitmentInput(g', e', u', r', x')
               ==> g == g' && e == e' && u == u' && r == r' && x == x')
            <==> a == b
  {
    if a == b {
      forall g: Str, e: u64, u: Str, r: Role, x: seq<byte>, g': Str, e': u64, u': Str, r': Role, x': seq<byte>
        | |g| == a && |g'| == b && |x| == |x'| == 32
            && CommitmentInput(g, e, u, r, x) == CommitmentInput(g', e', u', r', x')
        ensures g == g' && e == e' && u == u' && r == r' && x == x'
      {
        CommitmentInputInjective(g, e, u, r, x, g', e', u', r', x');
      }
    } else {
      CommitmentCollision(a, b, Owner, Nul(32));
      assert |Nul(a)| != |Nul(b)|;
    }
  }

  // ------------------------------------------------------------ fetch and publish infos

  predicate ContinuesBy(g: Str, g': Str, e: u64, w: Str) {
    g' == g + ([COLON] + (Decimal(e) + w)) && (w == [] || w[0] == COLON)
  }

  /** g' goes on after g with a colon and a decimal epoch, up to its end or to another colon. */
  ghost predicate Continues(g: Str, g': Str) {
    exists e: u64, w: Str :: ContinuesBy(g, g', e, w)
  }

  lemma DigitsUntilColon(e: u64, u: Str, e': u64, u': Str)
    requires Decimal(e) + ([COLON] + u) == Decimal(e') + ([COLON] + u')
    ensures |Decimal(e')| <= |Decimal(e)|
  {
    var s := Decimal(e') + ([COLON] + u');
    assert forall i :: 0 <= i < |Decimal(e')| ==> s[i] == Decimal(e')[i] && s[i] != COLON;
    assert s[|Decimal(e)|] == COLON;
  }

  lemma SameGroupInjective(g: Str, e: u64, u: Str, e': u64, u': Str)
    requires UserScoped(g, e, u) == UserScoped(g, e', u')
    ensures e == e' && u == u'
  {
    SplitAt(g, [COLON] + (Decimal(e) + ([COLON] + u)), g, [COLON] + (Decimal(e') + ([COLON] + u')));
    SplitAt([COLON], Decimal(e) + ([COLON] + u), [COLON], Decimal(e') + ([COLON] + u'));
    DigitsUntilColon(e, u, e', u');
    DigitsUntilColon(e', u', e, u);
    SplitAt(Decimal(e), [COLON] + u, Decimal(e'), [COLON] + u');
    SplitAt([COLON], u, [COLON], u');
    DecimalInjective(e, e');
  }

  lemma SharedMeansContinues(g: Str, e: u64, u: Str, g': Str, e': u64, u': Str)
    requires |g| < |g'| && UserScoped(g, e, u) == UserScoped(g', e', u')
    ensures Continues(g, g')
  {
    var s, d := UserScoped(g, e, u), Decimal(e);
    var k := |g| + 1 + |d|;
    assert forall i :: |g| < i < k ==> s[i] == d[i - |g| - 1] && s[i] != COLON;
    assert s[k] == COLON;
    assert s[|g'|] == COLON by { assert s == UserScoped(g', e', u'); }
    assert k <= |g'|;
    var w := s[k..|g'|];
    assert s[..k] == g + ([COLON] + d);
    assert s[..|g'|] == s[..k] + w;
    assert s[..|g'|] == g' by { assert s == UserScoped(g', e', u'); }
    assert g' == g + ([COLON] + (d + w));
    assert ContinuesBy(g, g', e, w);
  }

  lemma ContinuesMeansShared(g: Str, g': Str, e: u64, w: Str) returns (u: Str)
    requires ContinuesBy(g, g', e, w)
    ensures UserScoped(g, e, u) == UserScoped(g', 0, [])
  {
    var zero := [COLON] + (Decimal(0) + ([COLON] + []));
    u := (w + zero)[1..];
    assert w + zero == [COLON] + u;
    calc {
      UserScoped(g', 0, []);
      g' + zero;
      g + ([COLON] + (Decimal(e) + w)) + zero;
      g + ([COLON] + (Decimal(e) + (w + zero)));
      UserScoped(g, e, u);
    }
  }

  /** Two group ids have no fetch (or publish) info in common with different fields exactly when
      neither continues the other. */
  lemma MemberKeyInfoExact(scope: seq<byte>, g: Str, g': Str)
    ensures (forall e: u64, u: Str, e': u64, u': Str ::
               MemberKeyInfo(scope, g, e, u) == MemberKeyInfo(scope, g', e', u') ==> g == g' && e == e' && u == u')
            <==> !Continues(g, g') && !Continues(g', g)
  {
    forall e: u64, u: Str, e': u64, u': Str
      ensures MemberKeyInfo(scope, g, e, u) == MemberKeyInfo(scope, g', e', u')
              <==> UserScoped(g, e, u) == UserScoped(g', e', u')
    {
      if MemberKeyInfo(scope, g, e, u) == MemberKeyInfo(scope, g', e', u') {
        SplitAt(scope + [COLON], UserScoped(g, e, u), scope + [COLON], UserScoped(g', e', u'));
      }
    }
    if Continues(g, g') {
      var e, w :| ContinuesBy(g, g', e, w);
      var u := ContinuesMeansShared(g, g', e, w);
      assert |g| < |g'|;
      assert MemberKeyInfo(scope, g, e, u) == MemberKeyInfo(scope, g', 0, []);
    } else if Continues(g', g) {
      var e, w :| ContinuesBy(g', g, e, w);
      var u := ContinuesMeansShared(g', g, e, w);
      assert |g'| < |g|;
      assert MemberKeyInfo(scope, g, 0, []) == MemberKeyInfo(scope, g', e, u);
    } else {
      forall e: u64, u: Str, e': u64, u': Str
        | MemberKeyInfo(scope, g, e, u) == MemberKeyInfo(scope, g', e', u')
        ensures g == g' && e == e' && u == u'
      {
        NotContinuing(g, e, u, g', e', u');
      }
    }
  }

  lemma NotContinuing(g: Str, e: u64, u: Str, g': Str, e': u64, u': Str)
    requires !Continues(g, g') && !Continues(g', g) && UserScoped(g, e, u) == UserScoped(g', e', u')
    ensures g == g' && e == e' && u == u'
  {
    if |g| < |g'| {
      SharedMeansContinues(g, e, u, g', e', u');
    } else if |g'| < |g| {
      SharedMeansContinues(g', e', u', g, e, u);
    } else {
      SplitAt(g, [COLON] + (Decimal(e) + ([COLON] + u)), g', [COLON] + (Decimal(e') + ([COLON] + u')));
      SameGroupInjective(g, e, u, e', u');
    }
  }

  /** Colon-free group ids, such as the hexadecimal ones the code makes, never continue another. */
  lemma ColonFreeNeverContinues(g: Str, g': Str)
    requires COLON !in g'
    ensures !Continues(g, g')
  {
  }

  /** A fetch key info is never a publish key info, whatever the fields. */
  lemma FetchIsNeverPublish(g: Str, e: u64, u: Str, g': Str, e': u64, u': Str)
    ensures MemberKeyInfo(FETCH_LABEL, g, e, u) != MemberKeyInfo(PUBLISH_LABEL, g', e', u')
  {
    assert FETCH_LABEL[27] != PUBLISH_LABEL[27];
    assert MemberKeyInfo(FETCH_LABEL, g, e, u)[27] == FETCH_LABEL[27];
    assert MemberKeyInfo(PUBLISH_LABEL, g', e', u')[27] == PUBLISH_LABEL[27];
  }

  /** Snapshot, message and link key infos never coincide, whatever the fields. */
  lemma KeyInfosDiffer(g: Str, e: u64, g': Str, e': u64)
    ensures SnapshotKeyInfo(g, e) != MessageKeyInfo(g', e')
    ensures SnapshotKeyInfo(g, e) != LinkKeyInfo(g', e')
    ensures MessageKeyInfo(g, e) != LinkKeyInfo(g', e')
  {
    assert SnapshotKeyInfo(g, e)[20] == SNAPSHOT_LABEL[20];
    assert MessageKeyInfo(g, e)[20] == MESSAGE_KEY_LABEL[20] == MessageKeyInfo(g', e')[20];
    assert LinkKeyInfo(g', e')[20] == LINK_LABEL[20];
    assert SNAPSHOT_LABEL[20] != MESSAGE_KEY_LABEL[20] && SNAPSHOT_LABEL[20] != LINK_LABEL[20]
        && MESSAGE_KEY_LABEL[20] != LINK_LABEL[20];
  }
}
