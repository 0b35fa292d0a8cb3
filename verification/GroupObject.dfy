/** The mutable group state: the methods that update its fields in place, each tied to the
    step function of the state machine. */
module GroupObject {
  import opened Core
  import opened Bytes
  import opened Text
  import opened Library
  import opened Members
  import opened MemberCodec
  import opened Group

  predicate IsFirst(ms: seq<GroupMember>, u: Str, i: nat) {
    i < |ms| && ms[i].userId == u && forall j :: 0 <= j < i ==> ms[j].userId != u
  }

  lemma {:induction false} AtFirst(ms: seq<GroupMember>, u: Str, i: nat, r: Role)
    requires IsFirst(ms, u, i)
    ensures FindRole(ms, u) == Some(ms[i].role)
    ensures SetRole(ms, u, r) == ms[i := GroupMember(u, r)]
  {
    if i > 0 {
      assert ms[0].userId != u;
      AtFirst(ms[1..], u, i - 1, r);
    }
  }

  lemma {:induction false} AtNone(ms: seq<GroupMember>, u: Str)
    requires forall j :: 0 <= j < |ms| ==> ms[j].userId != u
    ensures FindRole(ms, u) == None
  {
    if ms != [] {
      AtNone(ms[1..], u);
    }
  }

  class PrivateGroupState {
    var groupId: Str
    var epoch: u64
    var rootSecret: seq<byte>
    var attributes: Attributes
    var members: seq<GroupMember>
    var createdAt: u64
    var updatedAt: u64

    function Value(): GroupState
      reads this
    {
      GroupState(groupId, epoch, rootSecret, attributes, members, createdAt, updatedAt)
    }

    constructor (s: GroupState)
      ensures Value() == s
    {
      groupId, epoch, rootSecret := s.groupId, s.epoch, s.rootSecret;
      attributes, members := s.attributes, s.members;
      createdAt, updatedAt := s.createdAt, s.updatedAt;
    }

    method BumpEpoch(at: u64)
      modifies this
      ensures Value() == Bump(old(Value()), at)
    {
      epoch := if epoch == U64_MAX then U64_MAX else epoch + 1;
      updatedAt := at;
    }

    method OwnerUserId() returns (owner: Str)
      ensures owner == OwnerId(members)
    {
      assert members[0..] == members;
      for i := 0 to |members|
        invariant OwnerId(members) == OwnerId(members[i..])
      {
        assert members[i..][0] == members[i] && members[i..][1..] == members[i + 1..];
        if members[i].role == Owner {
          return members[i].userId;
        }
      }
      owner := [];
    }

    /** The index of the first entry of u, if any. */
    method FindMember(u: Str) returns (index: Option<nat>)
      ensures index.None? <==> FindRole(members, u).None?
      ensures index.Some? ==> IsFirst(members, u, index.value)
    {
      for i := 0 to |members|
        invariant forall j :: 0 <= j < i ==> members[j].userId != u
      {
        if members[i].userId == u {
          AtFirst(members, u, i, Member);
          return Some(i);
        }
      }
      AtNone(members, u);
      index := None;
    }

    method AddMember(lib: Routines, u: Str, role: Role, at: u64) returns (r: Result<bool>)
      modifies this
      ensures Value() == Apply(lib, old(Value()), Step.AddMember(u, role, at)).state
      ensures r == Apply(lib, old(Value()), Step.AddMember(u, role, at)).result
    {
      var checked := ValidateUserId(lib, u);
      if checked.Err? {
        return Err(checked.error);
      }
      var owner := OwnerUserId();
      var next := if u == owner then Owner else role;
      var index := FindMember(u);
      if index.Some? {
        AtFirst(members, u, index.value, next);
        if members[index.value].role == next {
          return Ok(false);
        }
        members := members[index.value := members[index.value].(role := next)];
        BumpEpoch(at);
        return Ok(true);
      }
      members := members + [GroupMember(u, next)];
      members := SortById(members);
      BumpEpoch(at);
      r := Ok(true);
    }

    method Retain(u: Str)
      modifies this`members
      ensures members == Without(old(members), u)
    {
      var all := members;
      var kept: seq<GroupMember> := [];
      assert all[0..] == all;
      for i := 0 to |all|
        invariant Without(all, u) == kept + Without(all[i..], u)
      {
        ghost var rest := all[i..];
        assert rest[0] == all[i] && rest[1..] == all[i + 1..];
        if all[i].userId != u {
          assert kept + ([all[i]] + Without(rest[1..], u)) == kept + [all[i]] + Without(rest[1..], u);
          kept := kept + [all[i]];
        }
      }
      assert kept + Without([], u) == kept;
      members := kept;
    }

    method RemoveMember(lib: Routines, u: Str, at: u64) returns (r: Result<bool>)
      modifies this
      ensures Value() == Apply(lib, old(Value()), Step.RemoveMember(u, at)).state
      ensures r == Apply(lib, old(Value()), Step.RemoveMember(u, at)).result
    {
      var owner := OwnerUserId();
      if u == owner {
        return Err(PolicyViolation("owner cannot be removed"));
      }
      var previousLen := |members|;
      WithoutShrinks(members, u);
      Retain(u);
      if |members| == previousLen {
        return Ok(false);
      }
      BumpEpoch(at);
      r := Ok(true);
    }

    method UpdateAttributes(lib: Routines, a: Attributes, at: u64) returns (r: Result<bool>)
      modifies this
      ensures Value() == Apply(lib, old(Value()), Step.UpdateAttributes(a, at)).state
      ensures r == Apply(lib, old(Value()), Step.UpdateAttributes(a, at)).result
    {
      var checked := ValidateAttributes(lib, a);
      if checked.Err? {
        return Err(checked.error);
      }
      if attributes == a {
        return Ok(false);
      }
      attributes := a;
      BumpEpoch(at);
      r := Ok(true);
    }
  }

  /** Driving the object through any list of steps keeps it on the run of the state machine,
      so everything proved about runs holds of the object. */
  method Drive(lib: Routines, g: PrivateGroupState, steps: seq<Step>)
    requires GroupInv(lib, g.Value()) && TextSteps(lib, steps)
    modifies g
    ensures g.Value() == Run(lib, old(g.Value()), steps)
    ensures GroupInv(lib, g.Value())
    ensures RoleMap(g.members) == MapRun(lib, old(RoleMap(g.members)), steps)
  {
    ghost var s := g.Value();
    for i := 0 to |steps|
      invariant g.Value() == Run(lib, s, steps[..i])
    {
      assert steps[..i + 1][..i] == steps[..i];
      match steps[i] {
        case AddMember(u, role, at) => var _ := g.AddMember(lib, u, role, at);
        case RemoveMember(u, at) => var _ := g.RemoveMember(lib, u, at);
        case UpdateAttributes(a, at) => var _ := g.UpdateAttributes(lib, a, at);
      }
    }
    assert steps[..|steps|] == steps;
    RunRefines(lib, s, steps);
  }
}
