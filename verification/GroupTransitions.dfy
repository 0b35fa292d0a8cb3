/** Epoch transitions: the next state, a fresh credential for each of its members, and the join
    package of an added member. The old state is an argument and is not changed. */
module GroupTransitions {
  import opened Core
  import opened Bytes
  import opened Text
  import opened Library
  import opened Members
  import opened Group
  import opened GroupPayload
  import opened GroupPackages

  datatype Transition = Transition(
    next: GroupState,
    credentials: seq<Credential>,
    joinPackage: Option<JoinPackage>)

  /** One credential per entry, in order; the k-th random secret goes to the k-th entry. */
  function IssueAll(lib: Routines, s: GroupState, ms: seq<GroupMember>, secrets: nat -> seq<byte>,
                    k: nat): Result<seq<Credential>>
    decreases |ms|
  {
    if ms == [] then Ok([])
    else
      var c :- IssueCredential(lib, s, ms[0].userId, ms[0].role, secrets(k));
      var rest :- IssueAll(lib, s, ms[1..], secrets, k + 1);
      Ok([c] + rest)
  }

  function FindCredential(cs: seq<Credential>, u: Str): Option<Credential> {
    if cs == [] then None
    else if cs[0].user == u then Some(cs[0])
    else FindCredential(cs[1..], u)
  }

  function PrepareAdd(lib: Routines, s: GroupState, u: Str, role: Role, at: u64,
                      secrets: nat -> seq<byte>, nonce: seq<byte>): Result<Transition>
  {
    var o := Add(lib, s, u, role, at);
    var changed :- o.result;
    var _ :- Need(changed, PolicyViolation("member already has requested role"));
    TransitionInto(lib, o.state, u, secrets, nonce)
  }

  /** The part of an add transition that follows the change of state. */
  function TransitionInto(lib: Routines, next: GroupState, u: Str, secrets: nat -> seq<byte>,
                          nonce: seq<byte>): Result<Transition> {
    var credentials :- IssueAll(lib, next, next.members, secrets, 0);
    match FindCredential(credentials, u)
    case None => Err(PolicyViolation("added member credential missing"))
    case Some(c) =>
      var p :- ExportJoinFor(lib, next, c, nonce);
      Ok(Transition(next, credentials, Some(p)))
  }

  function PrepareRemove(lib: Routines, s: GroupState, u: Str, at: u64, secrets: nat -> seq<byte>): Result<Transition> {
    var o := Remove(s, u, at);
    var removed :- o.result;
    var _ :- Need(removed, PolicyViolation("member is not present"));
    var credentials :- IssueAll(lib, o.state, o.state.members, secrets, 0);
    Ok(Transition(o.state, credentials, None))
  }

  /** Entry by entry, the credentials match the members of s. */
  predicate OnePerMember(s: GroupState, ms: seq<GroupMember>, cs: seq<Credential>, secrets: nat -> seq<byte>, k: nat) {
    && |cs| == |ms|
    && forall i :: 0 <= i < |ms| ==> cs[i] == Credential(s.groupId, s.epoch, ms[i].userId, ms[i].role, secrets(k + i))
  }

  /** The first member gets a credential of its own. */
  lemma IssuedFirst(lib: Routines, s: GroupState, ms: seq<GroupMember>, secrets: nat -> seq<byte>, k: nat)
    requires GroupInv(lib, s) && ms != [] && ms[0] in s.members && IssueAll(lib, s, ms[1..], secrets, k + 1).Ok?
    ensures IssueAll(lib, s, ms, secrets, k)
            == Ok([Credential(s.groupId, s.epoch, ms[0].userId, ms[0].role, secrets(k))]
                  + IssueAll(lib, s, ms[1..], secrets, k + 1).value)
  {
    SortedLists(s.members);
    MemberCredential(lib, s, ms[0].userId, secrets(k));
  }

  lemma {:induction false} IssueAllMatches(lib: Routines, s: GroupState, ms: seq<GroupMember>,
                                           secrets: nat -> seq<byte>, k: nat)
    requires GroupInv(lib, s) && forall m :: m in ms ==> m in s.members
    ensures var r := IssueAll(lib, s, ms, secrets, k);
            r.Ok? && OnePerMember(s, ms, r.value, secrets, k)
    decreases |ms|
  {
    if ms != [] {
      var m, rest := ms[0], ms[1..];
      assert m in ms && forall x :: x in rest ==> x in ms;
      IssueAllMatches(lib, s, rest, secrets, k + 1);
      IssuedFirst(lib, s, ms, secrets, k);
      OnePerMemberCons(s, m, rest, IssueAll(lib, s, rest, secrets, k + 1).value, secrets, k);
      assert [m] + rest == ms;
    }
  }

  lemma OnePerMemberCons(s: GroupState, m: GroupMember, rest: seq<GroupMember>, cs: seq<Credential>,
                         secrets: nat -> seq<byte>, k: nat)
    requires OnePerMember(s, rest, cs, secrets, k + 1)
    ensures OnePerMember(s, [m] + rest, [Credential(s.groupId, s.epoch, m.userId, m.role, secrets(k))] + cs, secrets, k)
  {
  }

  lemma {:induction false} FindCredentialMatches(s: GroupState, ms: seq<GroupMember>, cs: seq<Credential>,
                                                 secrets: nat -> seq<byte>, k: nat, u: Str)
    requires OnePerMember(s, ms, cs, secrets, k)
    ensures FindRole(ms, u).Some? ==> FindCredential(cs, u).Some?
    ensures FindCredential(cs, u).Some? ==>
              && FindRole(ms, u) == Some(FindCredential(cs, u).value.role)
              && FindCredential(cs, u).value in cs && FindCredential(cs, u).value.user == u
              && FindCredential(cs, u).value.groupId == s.groupId && FindCredential(cs, u).value.epoch == s.epoch
    decreases |ms|
  {
    if ms != [] && ms[0].userId != u {
      assert cs[0].user == ms[0].userId;
      forall i | 0 <= i < |ms| - 1 ensures cs[1..][i]
          == Credential(s.groupId, s.epoch, ms[1..][i].userId, ms[1..][i].role, secrets(k + 1 + i)) {
        assert cs[i + 1] == Credential(s.groupId, s.epoch, ms[i + 1].userId, ms[i + 1].role, secrets(k + (i + 1)));
      }
      FindCredentialMatches(s, ms[1..], cs[1..], secrets, k + 1, u);
    }
  }

  ghost predicate Admits(lib: Routines, t: Transition, next: GroupState, u: Str, secrets: nat -> seq<byte>) {
    && t.next == next
    && OnePerMember(next, next.members, t.credentials, secrets, 0)
    && t.joinPackage.Some?
    && exists c :: c in t.credentials && c.user == u && RestoreJoin(lib, t.joinPackage.value) == Ok((next, c))
  }

  lemma TransitionIntoAdmits(lib: Library, next: GroupState, u: Str, secrets: nat -> seq<byte>, nonce: seq<byte>)
    requires GroupInv(lib, next) && u in RoleMap(next.members)
    ensures TransitionInto(lib, next, u, secrets, nonce).Ok? <==> Exportable(next)
    ensures TransitionInto(lib, next, u, secrets, nonce).Ok? ==>
              Admits(lib, TransitionInto(lib, next, u, secrets, nonce).value, next, u, secrets)
  {
    IssueAllMatches(lib, next, next.members, secrets, 0);
    var cs := IssueAll(lib, next, next.members, secrets, 0).value;
    FindIsLookup(next.members, u);
    FindCredentialMatches(next, next.members, cs, secrets, 0, u);
    JoinRoundTrip(lib, next, FindCredential(cs, u).value, nonce);
  }

  /** An add transition succeeds exactly for a non-blank user whose role changes into an exportable
      state. It issues exactly one credential per member of the next state, with its id, role,
      group and epoch, and the join package restores the next state with the added user's own
      credential. */
  lemma AddTransition(lib: Library, s: GroupState, u: Str, role: Role, at: u64, secrets: nat -> seq<byte>,
                      nonce: seq<byte>)
    requires GroupInv(lib, s) && lib.utf8(u)
    ensures var next := Add(lib, s, u, role, at).state;
            var r := PrepareAdd(lib, s, u, role, at, secrets, nonce);
            && (r.Ok? <==> !lib.blank(u) && RoleMap(next.members) != RoleMap(s.members) && Exportable(next))
            && (r.Ok? ==>
                  && Admits(lib, r.value, next, u, secrets)
                  && GroupInv(lib, next) && next.epoch == SaturatingSucc(s.epoch))
  {
    AddSummary(lib, s, u, role, at);
    if !lib.blank(u) {
      TransitionIntoAdmits(lib, Add(lib, s, u, role, at).state, u, secrets, nonce);
    }
  }

  lemma AddSummary(lib: Routines, s: GroupState, u: Str, role: Role, at: u64)
    requires GroupInv(lib, s) && lib.utf8(u)
    ensures var o := Add(lib, s, u, role, at);
            && GroupInv(lib, o.state)
            && (lib.blank(u) ==> o.result.Err?)
            && (!lib.blank(u) ==>
                  u in RoleMap(o.state.members) && o.result == Ok(RoleMap(o.state.members) != RoleMap(s.members)))
            && (o.result == Ok(true) ==> o.state.epoch == SaturatingSucc(s.epoch))
  {
    AddRefines(lib, s, u, role, at);
    if !lib.blank(u) {
      AddMembers(lib, s, u, role, at);
    }
  }

  /** A remove transition succeeds exactly for a present user other than the protected owner. It
      issues one credential per remaining member, none for the removed user, and no package. */
  lemma RemoveTransition(lib: Routines, s: GroupState, u: Str, at: u64, secrets: nat -> seq<byte>)
    requires GroupInv(lib, s)
    ensures PrepareRemove(lib, s, u, at, secrets).Ok? <==>
            u in RoleMap(s.members) && !IsLeastOwner(RoleMap(s.members), u)
    ensures PrepareRemove(lib, s, u, at, secrets).Ok? ==>
              var t := PrepareRemove(lib, s, u, at, secrets).value;
              && RoleMap(t.next.members) == RoleMap(s.members) - {u} && t.next.epoch == SaturatingSucc(s.epoch)
              && GroupInv(lib, t.next)
              && OnePerMember(t.next, t.next.members, t.credentials, secrets, 0)
              && (forall c :: c in t.credentials ==> c.user != u)
              && t.joinPackage == None
  {
    RemoveRefines(lib, s, u, at);
    OwnerIdIsLeastOwner(s.members, u);
    var o := Remove(s, u, at);
    if u !in RoleMap(s.members) {
      assert RoleMap(s.members) - {u} == RoleMap(s.members);
    } else if !IsLeastOwner(RoleMap(s.members), u) {
      assert u !in RoleMap(s.members) - {u};
      IssueAllMatches(lib, o.state, o.state.members, secrets, 0);
      SortedLists(o.state.members);
      var cs := IssueAll(lib, o.state, o.state.members, secrets, 0).value;
      forall i | 0 <= i < |cs| ensures cs[i].user != u {
        assert o.state.members[i] in o.state.members;
      }
    }
  }
}
