/** The private group state machine: creation, member and attribute steps, and whole runs. */
module Group {
  import opened Core
  import opened Bytes
  import opened Text
  import opened Library
  import opened Members
  import opened MemberCodec
  import opened Normalize

  datatype Attributes = Attributes(
    title: Str,
    description: Option<Str>,
    avatarHash: Option<Str>,
    timerSeconds: Option<u32>)

  datatype GroupState = GroupState(
    groupId: Str,
    epoch: u64,
    rootSecret: seq<byte>,
    attributes: Attributes,
    members: seq<GroupMember>,
    createdAt: u64,
    updatedAt: u64)

  predicate IsHashText(s: Str) {
    |s| == 64 && AllHex(s)
  }

  function ValidateAttributes(lib: Routines, a: Attributes): Result<Unit> {
    if lib.blank(a.title) then Err(PolicyViolation("title cannot be blank"))
    else if a.avatarHash.Some? && !IsHashText(lib.trim(a.avatarHash.value)) then
      Err(PolicyViolation("avatar hash must be 64 hex characters"))
    else Ok(Unit)
  }

  /** Creation; the random group id and root secret are arguments. */
  function New(lib: Routines, owner: Str, attributes: Attributes, initial: seq<GroupMember>, at: u64,
               idBytes: seq<byte>, rootSecret: seq<byte>): Result<GroupState>
  {
    var _ :- ValidateAttributes(lib, attributes);
    var members :- NormalizeMembers(lib, owner, initial);
    Ok(GroupState(HexEncode(idBytes), 1, rootSecret, attributes, members, at, at))
  }

  // ------------------------------------------------------------ steps

  datatype Step =
    | AddMember(user: Str, role: Role, at: u64)
    | RemoveMember(user: Str, at: u64)
    | UpdateAttributes(attributes: Attributes, at: u64)

  datatype Outcome = Outcome(state: GroupState, result: Result<bool>)

  function SaturatingSucc(n: u64): u64 {
    if n == U64_MAX then n else n + 1
  }

  function Bump(s: GroupState, at: u64): GroupState {
    s.(epoch := SaturatingSucc(s.epoch), updatedAt := at)
  }

  /** Change the role of the first entry of u where it stands. */
  function SetRole(ms: seq<GroupMember>, u: Str, r: Role): seq<GroupMember> {
    if ms == [] then []
    else if ms[0].userId == u then [GroupMember(u, r)] + ms[1..]
    else [ms[0]] + SetRole(ms[1..], u, r)
  }

  function Add(lib: Routines, s: GroupState, u: Str, role: Role, at: u64): Outcome {
    if lib.blank(u) then Outcome(s, Err(PolicyViolation("user id cannot be blank")))
    else
      var next := if u == OwnerId(s.members) then Owner else role;
      match FindRole(s.members, u)
      case Some(existing) =>
        if existing == next then Outcome(s, Ok(false))
        else Outcome(Bump(s.(members := SetRole(s.members, u, next)), at), Ok(true))
      case None =>
        Outcome(Bump(s.(members := SortById(s.members + [GroupMember(u, next)])), at), Ok(true))
  }

  function Remove(s: GroupState, u: Str, at: u64): Outcome {
    if u == OwnerId(s.members) then Outcome(s, Err(PolicyViolation("owner cannot be removed")))
    else
      var rest := Without(s.members, u);
      if |rest| == |s.members| then Outcome(s, Ok(false))
      else Outcome(Bump(s.(members := rest), at), Ok(true))
  }

  function Update(lib: Routines, s: GroupState, a: Attributes, at: u64): Outcome {
    match ValidateAttributes(lib, a)
    case Err(e) => Outcome(s, Err(e))
    case Ok(_) =>
      if s.attributes == a then Outcome(s, Ok(false))
      else Outcome(Bump(s.(attributes := a), at), Ok(true))
  }

  function Apply(lib: Routines, s: GroupState, step: Step): Outcome {
    match step
    case AddMember(u, role, at) => Add(lib, s, u, role, at)
    case RemoveMember(u, at) => Remove(s, u, at)
    case UpdateAttributes(a, at) => Update(lib, s, a, at)
  }

  /** The state after a sequence of steps. */
  function Run(lib: Routines, s: GroupState, steps: seq<Step>): GroupState {
    if steps == [] then s
    else Apply(lib, Run(lib, s, steps[..|steps| - 1]), steps[|steps| - 1]).state
  }

  /** How many steps of the run returned true. */
  function Changes(lib: Routines, s: GroupState, steps: seq<Step>): nat {
    if steps == [] then 0
    else
      var before := steps[..|steps| - 1];
      Changes(lib, s, before)
      + if Apply(lib, Run(lib, s, before), steps[|steps| - 1]).result == Ok(true) then 1 else 0
  }

  // ------------------------------------------------------------ the invariant

  predicate TextOption(lib: Routines, o: Option<Str>) {
    o.Some? ==> lib.utf8(o.value)
  }

  predicate TextAttributes(lib: Routines, a: Attributes) {
    lib.utf8(a.title) && TextOption(lib, a.description) && TextOption(lib, a.avatarHash)
  }

  /** The strings a step carries are strings. */
  predicate TextStep(lib: Routines, step: Step) {
    match step
    case AddMember(u, _, _) => lib.utf8(u)
    case RemoveMember(u, _) => lib.utf8(u)
    case UpdateAttributes(a, _) => TextAttributes(lib, a)
  }

  predicate TextSteps(lib: Routines, steps: seq<Step>) {
    forall i :: 0 <= i < |steps| ==> TextStep(lib, steps[i])
  }

  ghost predicate MembersInv(lib: Routines, ms: seq<GroupMember>) {
    && Sorted(ms) && HasOwner(ms)
    && forall m :: m in ms ==> !lib.blank(m.userId) && lib.utf8(m.userId)
  }

  /** What every state of every run satisfies. */
  ghost predicate GroupInv(lib: Routines, s: GroupState) {
    && MembersInv(lib, s.members)
    && ValidateAttributes(lib, s.attributes).Ok? && TextAttributes(lib, s.attributes)
  }

  /** Attributes are accepted if and only if the title is not blank and the avatar hash, if there is one,
      trims to 64 hexadecimal digits. */
  lemma ValidatesExactly(lib: Routines, a: Attributes)
    ensures ValidateAttributes(lib, a).Ok? <==>
            && lib.trim(a.title) != []
            && match a.avatarHash
               case None => true
               case Some(h) => |lib.trim(h)| == 64 && forall i :: 0 <= i < 64 ==> IsHexDigit(lib.trim(h)[i])
  {
  }

  /** Creation gives state s if and only if the attributes and all ids are acceptable and s is in epoch 1
      with the drawn id, secret, attributes and time given, and lists exactly the users given, each with
      the strongest role. */
  lemma CreatesExactly(lib: Routines, owner: Str, a: Attributes, initial: seq<GroupMember>, at: u64,
                       idBytes: seq<byte>, rootSecret: seq<byte>, s: GroupState)
    ensures New(lib, owner, a, initial, at, idBytes, rootSecret) == Ok(s) <==>
            && lib.trim(a.title) != [] && (a.avatarHash.Some? ==> IsHashText(lib.trim(a.avatarHash.value)))
            && !lib.blank(owner) && (forall m :: m in initial ==> !lib.blank(m.userId))
            && s.groupId == HexEncode(idBytes) && s.epoch == 1 && s.rootSecret == rootSecret && s.attributes == a
            && s.createdAt == at && s.updatedAt == at && Tabulates(owner, initial, s.members)
  {
    ValidatesExactly(lib, a);
    NormalizeMeaning(lib, owner, initial);
    if NormalizeMembers(lib, owner, initial).Ok? && Tabulates(owner, initial, s.members) {
      TableUnique(owner, initial, initial, NormalizeMembers(lib, owner, initial).value, s.members);
    }
  }

  lemma NewEstablishes(lib: Routines, owner: Str, a: Attributes, initial: seq<GroupMember>, at: u64,
                       idBytes: seq<byte>, rootSecret: seq<byte>)
    requires lib.utf8(owner) && TextAttributes(lib, a) && TextIds(lib, initial)
    requires New(lib, owner, a, initial, at, idBytes, rootSecret).Ok?
    ensures var s := New(lib, owner, a, initial, at, idBytes, rootSecret).value;
            && GroupInv(lib, s) && s.epoch == 1
            && (forall u :: u in RoleMap(s.members) <==> u == owner || exists m :: m in initial && m.userId == u)
            && RoleMap(s.members)[owner] == Owner
  {
    NormalizeMeaning(lib, owner, initial);
    NormalizeIdempotent(lib, owner, initial);
    NormalizedIsGood(lib, owner, initial);
    var ms := NormalizeMembers(lib, owner, initial).value;
    forall u ensures u in RoleMap(ms) <==> u == owner || exists m :: m in initial && m.userId == u {
      NormalizedUsers(owner, initial, ms, u);
    }
  }

  lemma NormalizedIsGood(lib: Routines, owner: Str, decoded: seq<GroupMember>)
    requires lib.utf8(owner) && forall m :: m in decoded ==> lib.utf8(m.userId)
    requires NormalizeMembers(lib, owner, decoded).Ok?
    ensures MembersInv(lib, NormalizeMembers(lib, owner, decoded).value)
  {
    NormalizeIdempotent(lib, owner, decoded);
    NormalizeMeaning(lib, owner, decoded);
    var ms := NormalizeMembers(lib, owner, decoded).value;
    OwnerInMap(ms, owner);
    SortedLists(ms);
    forall m | m in ms ensures lib.utf8(m.userId) {
      NormalizedUsers(owner, decoded, ms, m.userId);
    }
  }

  lemma NormalizedUsers(owner: Str, initial: seq<GroupMember>, ms: seq<GroupMember>, u: Str)
    requires Tabulates(owner, initial, ms)
    ensures u in RoleMap(ms) <==> u == owner || exists m :: m in initial && m.userId == u
  {
    if u in RoleMap(ms) {
      assert Strongest(owner, initial, u, RoleMap(ms)[u]);
    }
    if u == owner {
      SomeGivenIsTabled(owner, initial, ms, u, Owner);
    }
    if m :| m in initial && m.userId == u {
      assert Given(owner, initial, u, Effective(owner, m));
      SomeGivenIsTabled(owner, initial, ms, u, Effective(owner, m));
    }
  }

  // ------------------------------------------------------------ the abstract machine on maps

  ghost predicate IsLeastOwner(roles: map<Str, Role>, u: Str) {
    && u in roles && roles[u] == Owner
    && forall v :: v in roles && roles[v] == Owner ==> v == u || Less(u, v)
  }

  /** The member map after a step. Only the map and the step are consulted. */
  ghost function MapStep(lib: Routines, roles: map<Str, Role>, step: Step): map<Str, Role> {
    match step
    case AddMember(u, role, _) =>
      if lib.blank(u) then roles else roles[u := if IsLeastOwner(roles, u) then Owner else role]
    case RemoveMember(u, _) =>
      if IsLeastOwner(roles, u) then roles else roles - {u}
    case UpdateAttributes(_, _) => roles
  }

  ghost function MapRun(lib: Routines, roles: map<Str, Role>, steps: seq<Step>): map<Str, Role> {
    if steps == [] then roles
    else MapStep(lib, MapRun(lib, roles, steps[..|steps| - 1]), steps[|steps| - 1])
  }

  lemma OwnerIdIsLeastOwner(ms: seq<GroupMember>, u: Str)
    requires Sorted(ms) && HasOwner(ms)
    ensures u == OwnerId(ms) <==> IsLeastOwner(RoleMap(ms), u)
  {
    OwnerIsLeast(ms);
    SortedLists(ms);
    var o := OwnerId(ms);
    forall v | v in RoleMap(ms) && RoleMap(ms)[v] == Owner ensures v == o || Less(o, v) {
      assert GroupMember(v, Owner) in ms;
    }
    if IsLeastOwner(RoleMap(ms), u) && u != o {
      LessTransitive(u, o, u);
      LessIrreflexive(u);
      assert false;
    }
  }

  lemma {:induction false} SetRoleIsPut(ms: seq<GroupMember>, u: Str, r: Role)
    requires Sorted(ms) && u in RoleMap(ms)
    ensures SetRole(ms, u, r) == Put(ms, u, r)
  {
    if ms[0].userId != u {
      SetRoleIsPut(ms[1..], u, r);
      SortedLists(ms[1..]);
      var m := GroupMember(u, RoleMap(ms[1..])[u]);
      assert m in ms[1..];
      assert Less(ms[0].userId, u);
      if Less(u, ms[0].userId) {
        LessTransitive(u, ms[0].userId, u);
        LessIrreflexive(u);
        assert false;
      }
    }
  }

  /** In either branch a changing add leaves the vector that Put describes. */
  lemma AddMembers(lib: Routines, s: GroupState, u: Str, role: Role, at: u64)
    requires Sorted(s.members) && !lib.blank(u)
    ensures var next := if u == OwnerId(s.members) then Owner else role;
            var o := Add(lib, s, u, role, at);
            && RoleMap(o.state.members) == RoleMap(s.members)[u := next]
            && Sorted(o.state.members)
            && (o.result == Ok(false) ==> o.state == s)
            && (o.result == Ok(true) ==> o.state.members == Put(s.members, u, next))
            && o.result == Ok(RoleMap(o.state.members) != RoleMap(s.members))
  {
    var next := if u == OwnerId(s.members) then Owner else role;
    FindIsLookup(s.members, u);
    PutRefines(s.members, u, next);
    if u in RoleMap(s.members) {
      SetRoleIsPut(s.members, u, next);
      if RoleMap(s.members)[u] == next {
        assert RoleMap(s.members)[u := next] == RoleMap(s.members);
      }
    } else {
      PushAndSortIsPut(s.members, GroupMember(u, next));
    }
  }

  lemma PutKeepsInv(lib: Routines, ms: seq<GroupMember>, u: Str, r: Role)
    requires MembersInv(lib, ms) && !lib.blank(u) && lib.utf8(u)
    requires u == OwnerId(ms) ==> r == Owner
    ensures MembersInv(lib, Put(ms, u, r))
    ensures OwnerId(Put(ms, u, r)) == OwnerId(ms) || Less(OwnerId(Put(ms, u, r)), OwnerId(ms))
  {
    PutRefines(ms, u, r);
    OwnerIsLeast(ms);
    OwnerInMap(Put(ms, u, r), OwnerId(ms));
    forall m | m in Put(ms, u, r) ensures !lib.blank(m.userId) && lib.utf8(m.userId) {
      PutMembers(ms, u, r, m);
    }
  }

  lemma WithoutKeepsInv(lib: Routines, ms: seq<GroupMember>, u: Str)
    requires MembersInv(lib, ms) && u != OwnerId(ms)
    ensures MembersInv(lib, Without(ms, u))
    ensures OwnerId(Without(ms, u)) == OwnerId(ms)
  {
    WithoutSorted(ms, u);
    WithoutRefines(ms, u);
    OwnerIsLeast(ms);
    var rest := Without(ms, u);
    OwnerInMap(rest, OwnerId(ms));
    forall m | m in rest ensures m in ms { WithoutMembers(ms, u, m); }
    OwnerIsLeast(rest);
    SortedLists(ms);
    assert GroupMember(OwnerId(rest), Owner) in ms;
    if OwnerId(rest) != OwnerId(ms) {
      LessTransitive(OwnerId(rest), OwnerId(ms), OwnerId(rest));
      LessIrreflexive(OwnerId(rest));
      assert false;
    }
  }

  /** One step keeps the invariant, refines the map step, and does not move the protected owner
      to a larger id. It fails exactly on a blank id, the protected owner or bad attributes, and
      a member step returns true exactly when the map changed. */
  lemma StepRefines(lib: Routines, s: GroupState, step: Step)
    requires GroupInv(lib, s) && TextStep(lib, step)
    ensures var o := Apply(lib, s, step);
            && GroupInv(lib, o.state)
            && RoleMap(o.state.members) == MapStep(lib, RoleMap(s.members), step)
            && (OwnerId(o.state.members) == OwnerId(s.members) || Less(OwnerId(o.state.members), OwnerId(s.members)))
            && match step
               case AddMember(u, _, _) =>
                 if lib.blank(u) then o.result.Err? else o.result == Ok(RoleMap(o.state.members) != RoleMap(s.members))
               case RemoveMember(u, _) =>
                 if IsLeastOwner(RoleMap(s.members), u) then o.result.Err?
                 else o.result == Ok(RoleMap(o.state.members) != RoleMap(s.members))
               case UpdateAttributes(a, _) =>
                 if ValidateAttributes(lib, a).Err? then o.result.Err?
                 else o.state.attributes == a && o.result == Ok(a != s.attributes)
  {
    match step {
      case AddMember(u, role, at) => AddRefines(lib, s, u, role, at);
      case RemoveMember(u, at) => RemoveRefines(lib, s, u, at);
      case UpdateAttributes(a, at) =>
    }
  }

  lemma AddRefines(lib: Routines, s: GroupState, u: Str, role: Role, at: u64)
    requires GroupInv(lib, s) && lib.utf8(u)
    ensures var o := Add(lib, s, u, role, at);
            && GroupInv(lib, o.state)
            && RoleMap(o.state.members) == MapStep(lib, RoleMap(s.members), AddMember(u, role, at))
            && (OwnerId(o.state.members) == OwnerId(s.members) || Less(OwnerId(o.state.members), OwnerId(s.members)))
            && (if lib.blank(u) then o.result.Err? else o.result == Ok(RoleMap(o.state.members) != RoleMap(s.members)))
  {
    if !lib.blank(u) {
      AddMembers(lib, s, u, role, at);
      OwnerIdIsLeastOwner(s.members, u);
      PutKeepsInv(lib, s.members, u, if u == OwnerId(s.members) then Owner else role);
    }
  }

  lemma RemoveRefines(lib: Routines, s: GroupState, u: Str, at: u64)
    requires GroupInv(lib, s)
    ensures var o := Remove(s, u, at);
            && GroupInv(lib, o.state)
            && RoleMap(o.state.members) == MapStep(lib, RoleMap(s.members), RemoveMember(u, at))
            && OwnerId(o.state.members) == OwnerId(s.members)
            && (if IsLeastOwner(RoleMap(s.members), u) then o.result.Err?
                else o.result == Ok(RoleMap(o.state.members) != RoleMap(s.members)))
  {
    OwnerIdIsLeastOwner(s.members, u);
    if u != OwnerId(s.members) {
      WithoutKeepsInv(lib, s.members, u);
      WithoutShrinks(s.members, u);
      WithoutRefines(s.members, u);
      if u !in RoleMap(s.members) {
        assert RoleMap(s.members) - {u} == RoleMap(s.members);
      }
    }
  }

  // ------------------------------------------------------------ whole runs

  /** Over every run the invariant holds, the vector lists the map that the abstract machine
      computes, and the protected owner never moves to a larger id. */
  lemma {:induction false} RunRefines(lib: Routines, s: GroupState, steps: seq<Step>)
    requires GroupInv(lib, s) && TextSteps(lib, steps)
    ensures var t := Run(lib, s, steps);
            && GroupInv(lib, t)
            && RoleMap(t.members) == MapRun(lib, RoleMap(s.members), steps)
            && (OwnerId(t.members) == OwnerId(s.members) || Less(OwnerId(t.members), OwnerId(s.members)))
  {
    if steps != [] {
      var before := steps[..|steps| - 1];
      RunRefines(lib, s, before);
      var m := Run(lib, s, before);
      StepRefines(lib, m, steps[|steps| - 1]);
      var t := Run(lib, s, steps);
      if Less(OwnerId(t.members), OwnerId(m.members)) && Less(OwnerId(m.members), OwnerId(s.members)) {
        LessTransitive(OwnerId(t.members), OwnerId(m.members), OwnerId(s.members));
      }
    }
  }

  function Min(a: int, b: int): int {
    if a < b then a else b
  }

  /** A step that does not return true changes nothing; one that does advances the epoch by one
      (saturating) and leaves its time. Group id, root secret and creation time never change. */
  lemma StepEpoch(lib: Routines, s: GroupState, step: Step)
    ensures var o := Apply(lib, s, step);
            && (o.result != Ok(true) ==> o.state == s)
            && (o.result == Ok(true) ==> o.state.epoch == SaturatingSucc(s.epoch) && o.state.updatedAt == step.at)
            && o.state.groupId == s.groupId && o.state.rootSecret == s.rootSecret && o.state.createdAt == s.createdAt
  {
  }

  /** The time of the last step that returned true, or the given time if there is none. */
  function LastChange(lib: Routines, s: GroupState, steps: seq<Step>, otherwise: u64): u64 {
    if steps == [] then otherwise
    else
      var before, last := steps[..|steps| - 1], steps[|steps| - 1];
      if Apply(lib, Run(lib, s, before), last).result == Ok(true) then last.at
      else LastChange(lib, s, before, otherwise)
  }

  /** The epoch counts the steps that returned true, up to the 64-bit maximum, and the update time is
      that of the last of them. */
  lemma {:induction false} EpochCountsChanges(lib: Routines, s: GroupState, steps: seq<Step>)
    ensures var t := Run(lib, s, steps);
            && t.epoch == Min(U64_MAX, s.epoch + Changes(lib, s, steps))
            && t.updatedAt == LastChange(lib, s, steps, s.updatedAt)
            && t.groupId == s.groupId && t.rootSecret == s.rootSecret && t.createdAt == s.createdAt
  {
    if steps != [] {
      var before := steps[..|steps| - 1];
      EpochCountsChanges(lib, s, before);
      StepEpoch(lib, Run(lib, s, before), steps[|steps| - 1]);
    }
  }

  lemma {:induction false} RunAppend(lib: Routines, s: GroupState, a: seq<Step>, b: seq<Step>)
    ensures Run(lib, s, a + b) == Run(lib, Run(lib, s, a), b)
    decreases |b|
  {
    if b == [] {
      assert a + b == a;
    } else {
      assert (a + b)[..|a + b| - 1] == a + b[..|b| - 1];
      RunAppend(lib, s, a, b[..|b| - 1]);
    }
  }

  lemma {:induction false} NoChangeNoEffect(lib: Routines, s: GroupState, steps: seq<Step>)
    requires Changes(lib, s, steps) == 0
    ensures Run(lib, s, steps) == s
  {
    if steps != [] {
      NoChangeNoEffect(lib, s, steps[..|steps| - 1]);
      StepEpoch(lib, s, steps[|steps| - 1]);
    }
  }

  /** Two states of one run with the same unsaturated epoch are identical. */
  lemma SameEpochSameState(lib: Routines, s: GroupState, steps: seq<Step>, i: nat, j: nat)
    requires i <= j <= |steps|
    requires Run(lib, s, steps[..i]).epoch == Run(lib, s, steps[..j]).epoch < U64_MAX
    ensures Run(lib, s, steps[..i]) == Run(lib, s, steps[..j])
  {
    var m := Run(lib, s, steps[..i]);
    assert steps[..j] == steps[..i] + steps[i..j];
    RunAppend(lib, s, steps[..i], steps[i..j]);
    EpochCountsChanges(lib, m, steps[i..j]);
    NoChangeNoEffect(lib, m, steps[i..j]);
  }
}
