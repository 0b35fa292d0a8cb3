/** `normalize_members`: one entry per user, sorted by id, with the strongest role given. */
module Normalize {
  import opened Core
  import opened Text
  import opened Library
  import opened Members
  import opened MemberCodec

  function Rank(r: Role): nat {
    match r
    case Owner => 0
    case Admin => 1
    case Member => 2
  }

  function Effective(owner: Str, m: GroupMember): Role {
    if m.userId == owner then Owner else m.role
  }

  /** One turn of the loop: raise the role of a user already in the ordered map, or insert the user. */
  function Merge(owner: Str, acc: seq<GroupMember>, m: GroupMember): seq<GroupMember> {
    var next := Effective(owner, m);
    match FindRole(acc, m.userId)
    case Some(existing) => if Rank(next) < Rank(existing) then Put(acc, m.userId, next) else acc
    case None => Put(acc, m.userId, next)
  }

  function NormalizeFrom(lib: Routines, owner: Str, ms: seq<GroupMember>,
                         acc: seq<GroupMember>): Result<seq<GroupMember>> {
    if ms == [] then Ok(acc)
    else
      var _ :- ValidateUserId(lib, ms[0].userId);
      NormalizeFrom(lib, owner, ms[1..], Merge(owner, acc, ms[0]))
  }

  function NormalizeMembers(lib: Routines, owner: Str, ms: seq<GroupMember>): Result<seq<GroupMember>> {
    var _ :- ValidateUserId(lib, owner);
    NormalizeFrom(lib, owner, ms, [GroupMember(owner, Owner)])
  }

  method NormalizeLoop(lib: Routines, owner: Str, ms: seq<GroupMember>) returns (r: Result<seq<GroupMember>>)
    ensures r == NormalizeMembers(lib, owner, ms)
  {
    var checked := ValidateUserId(lib, owner);
    if checked.Err? {
      return Err(checked.error);
    }
    var byUser := [GroupMember(owner, Owner)];
    assert ms[0..] == ms;
    for i := 0 to |ms|
      invariant NormalizeMembers(lib, owner, ms) == NormalizeFrom(lib, owner, ms[i..], byUser)
    {
      assert ms[i..][0] == ms[i] && ms[i..][1..] == ms[i + 1..];
      checked := ValidateUserId(lib, ms[i].userId);
      if checked.Err? {
        return Err(checked.error);
      }
      var next := if ms[i].userId == owner then Owner else ms[i].role;
      match FindRole(byUser, ms[i].userId) {
        case Some(existing) =>
          if Rank(next) < Rank(existing) {
            byUser := Put(byUser, ms[i].userId, next);
          }
        case None =>
          byUser := Put(byUser, ms[i].userId, next);
      }
    }
    r := Ok(byUser);
  }

  // ------------------------------------------------------------ what it means

  /** Some entry of the list, or the owner entry itself, gives u the role r. */
  ghost predicate Given(owner: Str, ms: seq<GroupMember>, u: Str, r: Role) {
    (u == owner && r == Owner) || exists m :: m in ms && m.userId == u && Effective(owner, m) == r
  }

  /** r is the strongest role given to u. */
  ghost predicate Strongest(owner: Str, ms: seq<GroupMember>, u: Str, r: Role) {
    Given(owner, ms, u, r) && forall r' :: Given(owner, ms, u, r') ==> Rank(r) <= Rank(r')
  }

  ghost predicate Tabulates(owner: Str, ms: seq<GroupMember>, acc: seq<GroupMember>) {
    && Sorted(acc)
    && forall u, r :: (u in RoleMap(acc) && RoleMap(acc)[u] == r) <==> Strongest(owner, ms, u, r)
  }

  lemma GivenAppend(owner: Str, ms: seq<GroupMember>, m: GroupMember, u: Str, r: Role)
    ensures Given(owner, ms + [m], u, r) <==>
            Given(owner, ms, u, r) || (m.userId == u && Effective(owner, m) == r)
  {
  }

  lemma SomeGivenIsTabled(owner: Str, ms: seq<GroupMember>, acc: seq<GroupMember>, u: Str, r: Role)
    requires Tabulates(owner, ms, acc) && Given(owner, ms, u, r)
    ensures u in RoleMap(acc)
  {
    if Given(owner, ms, u, Owner) {
      assert Strongest(owner, ms, u, Owner);
    } else if Given(owner, ms, u, Admin) {
      assert Strongest(owner, ms, u, Admin);
    } else {
      assert Strongest(owner, ms, u, Member);
    }
  }

  lemma MergeTabulates(owner: Str, ms: seq<GroupMember>, acc: seq<GroupMember>, m: GroupMember)
    requires Tabulates(owner, ms, acc)
    ensures Tabulates(owner, ms + [m], Merge(owner, acc, m))
  {
    var next := Effective(owner, m);
    var out := Merge(owner, acc, m);
    FindIsLookup(acc, m.userId);
    PutRefines(acc, m.userId, next);
    forall u, r ensures (u in RoleMap(out) && RoleMap(out)[u] == r) <==> Strongest(owner, ms + [m], u, r) {
      forall r' ensures Given(owner, ms + [m], u, r') <==> Given(owner, ms, u, r') || (m.userId == u && next == r') {
        GivenAppend(owner, ms, m, u, r');
      }
      if u == m.userId {
        MergeAtUser(owner, ms, acc, m, r);
      } else {
        assert Strongest(owner, ms + [m], u, r) <==> Strongest(owner, ms, u, r);
      }
    }
  }

  /** The entry of the merged user itself. */
  lemma MergeAtUser(owner: Str, ms: seq<GroupMember>, acc: seq<GroupMember>, m: GroupMember, r: Role)
    requires Tabulates(owner, ms, acc)
    ensures var out := Merge(owner, acc, m);
            (m.userId in RoleMap(out) && RoleMap(out)[m.userId] == r) <==> Strongest(owner, ms + [m], m.userId, r)
  {
    var u, next := m.userId, Effective(owner, m);
    FindIsLookup(acc, u);
    PutRefines(acc, u, next);
    forall r' ensures Given(owner, ms + [m], u, r') <==> Given(owner, ms, u, r') || next == r' {
      GivenAppend(owner, ms, m, u, r');
    }
    if u in RoleMap(acc) {
      var e := RoleMap(acc)[u];
      assert Strongest(owner, ms, u, e);
      var best := if Rank(next) < Rank(e) then next else e;
      assert Strongest(owner, ms + [m], u, best);
      assert RoleMap(Merge(owner, acc, m))[u] == best;
    } else {
      forall r' | Given(owner, ms, u, r') ensures false { SomeGivenIsTabled(owner, ms, acc, u, r'); }
      assert Strongest(owner, ms + [m], u, next);
    }
  }

  lemma {:induction false} FromTabulates(lib: Routines, owner: Str, ms: seq<GroupMember>, done: seq<GroupMember>,
                                         acc: seq<GroupMember>)
    requires Tabulates(owner, done, acc)
    ensures NormalizeFrom(lib, owner, ms, acc).Ok? <==> forall m :: m in ms ==> !lib.blank(m.userId)
    ensures NormalizeFrom(lib, owner, ms, acc).Ok? ==>
              Tabulates(owner, done + ms, NormalizeFrom(lib, owner, ms, acc).value)
    decreases |ms|
  {
    if ms == [] {
      assert done + ms == done;
    } else {
      MergeTabulates(owner, done, acc, ms[0]);
      assert done + [ms[0]] + ms[1..] == done + ms;
      assert forall m :: m in ms <==> m == ms[0] || m in ms[1..];
      FromTabulates(lib, owner, ms[1..], done + [ms[0]], Merge(owner, acc, ms[0]));
    }
  }

  /** Normalising fails exactly on a blank id; otherwise the result is the sorted list of
      exactly the users that occur (and the owner), each with the strongest role given. */
  lemma NormalizeMeaning(lib: Routines, owner: Str, ms: seq<GroupMember>)
    ensures NormalizeMembers(lib, owner, ms).Ok? <==>
            !lib.blank(owner) && forall m :: m in ms ==> !lib.blank(m.userId)
    ensures NormalizeMembers(lib, owner, ms).Ok? ==>
              Tabulates(owner, ms, NormalizeMembers(lib, owner, ms).value)
  {
    var start := [GroupMember(owner, Owner)];
    forall u, r ensures (u in RoleMap(start) && RoleMap(start)[u] == r) <==> Strongest(owner, [], u, r) {
      assert Given(owner, [], u, r) <==> u == owner && r == Owner;
    }
    FromTabulates(lib, owner, ms, [], start);
    assert [] + ms == ms;
  }

  /** Said without ranks: who is in the table, who is Owner there, and who is Admin. */
  lemma NormalizedRoles(lib: Routines, owner: Str, ms: seq<GroupMember>, u: Str)
    requires NormalizeMembers(lib, owner, ms).Ok?
    ensures var roles := RoleMap(NormalizeMembers(lib, owner, ms).value);
            && (u in roles <==> u == owner || exists m :: m in ms && m.userId == u)
            && (u in roles && roles[u] == Owner <==> u == owner || GroupMember(u, Owner) in ms)
            && (u in roles && roles[u] == Admin <==>
                  u != owner && GroupMember(u, Owner) !in ms && GroupMember(u, Admin) in ms)
  {
    NormalizeMeaning(lib, owner, ms);
    var out := NormalizeMembers(lib, owner, ms).value;
    GivenMeans(owner, ms, u);
    if m :| m in ms && m.userId == u {
      assert Given(owner, ms, u, Effective(owner, m));
      SomeGivenIsTabled(owner, ms, out, u, Effective(owner, m));
    }
    if u == owner {
      SomeGivenIsTabled(owner, ms, out, u, Owner);
    }
    if u in RoleMap(out) {
      assert Strongest(owner, ms, u, RoleMap(out)[u]);
    }
  }

  lemma GivenMeans(owner: Str, ms: seq<GroupMember>, u: Str)
    ensures Given(owner, ms, u, Owner) <==> u == owner || GroupMember(u, Owner) in ms
    ensures forall r :: r != Owner ==> (Given(owner, ms, u, r) <==> u != owner && GroupMember(u, r) in ms)
  {
    forall r | u != owner ensures Given(owner, ms, u, r) <==> GroupMember(u, r) in ms {
      if GroupMember(u, r) in ms {
        assert Effective(owner, GroupMember(u, r)) == r;
      }
    }
  }

  lemma TableUnique(owner: Str, ms: seq<GroupMember>, ms': seq<GroupMember>, a: seq<GroupMember>, b: seq<GroupMember>)
    requires Tabulates(owner, ms, a) && Tabulates(owner, ms', b)
    requires forall u, r :: Strongest(owner, ms, u, r) <==> Strongest(owner, ms', u, r)
    ensures a == b
  {
    forall u ensures u in RoleMap(a) <==> u in RoleMap(b) {
      if u in RoleMap(a) { assert Strongest(owner, ms', u, RoleMap(a)[u]); }
      if u in RoleMap(b) { assert Strongest(owner, ms, u, RoleMap(b)[u]); }
    }
    forall u | u in RoleMap(a) ensures RoleMap(a)[u] == RoleMap(b)[u] {
      assert Strongest(owner, ms', u, RoleMap(a)[u]);
    }
    assert RoleMap(a) == RoleMap(b);
    SameMapSameVector(a, b);
  }

  /** Order and repetition of the input do not matter. */
  lemma NormalizeIgnoresOrder(lib: Routines, owner: Str, ms: seq<GroupMember>, ms': seq<GroupMember>)
    requires forall m :: m in ms <==> m in ms'
    ensures NormalizeMembers(lib, owner, ms).Ok? <==> NormalizeMembers(lib, owner, ms').Ok?
    ensures NormalizeMembers(lib, owner, ms).Ok? ==>
              NormalizeMembers(lib, owner, ms) == NormalizeMembers(lib, owner, ms')
  {
    NormalizeMeaning(lib, owner, ms);
    NormalizeMeaning(lib, owner, ms');
    if NormalizeMembers(lib, owner, ms).Ok? {
      assert forall u, r :: Given(owner, ms, u, r) <==> Given(owner, ms', u, r);
      TableUnique(owner, ms, ms', NormalizeMembers(lib, owner, ms).value, NormalizeMembers(lib, owner, ms').value);
    }
  }

  /** A sorted list without blank ids in which the owner is an Owner is left as it is. */
  lemma NormalizeIdentity(lib: Routines, owner: Str, ms: seq<GroupMember>)
    requires Sorted(ms) && (forall m :: m in ms ==> !lib.blank(m.userId))
    requires owner in RoleMap(ms) && RoleMap(ms)[owner] == Owner
    ensures NormalizeMembers(lib, owner, ms) == Ok(ms)
  {
    NormalizeMeaning(lib, owner, ms);
    SortedLists(ms);
    assert GroupMember(owner, Owner) in ms;
    forall u, r ensures (u in RoleMap(ms) && RoleMap(ms)[u] == r) <==> Strongest(owner, ms, u, r) {
      GivenInSorted(owner, ms, u);
    }
    var out := NormalizeMembers(lib, owner, ms).value;
    TableUnique(owner, ms, ms, out, ms);
  }

  lemma GivenInSorted(owner: Str, ms: seq<GroupMember>, u: Str)
    requires Sorted(ms) && owner in RoleMap(ms) && RoleMap(ms)[owner] == Owner
    ensures forall r :: Given(owner, ms, u, r) <==> u in RoleMap(ms) && RoleMap(ms)[u] == r
  {
    SortedLists(ms);
    forall r ensures Given(owner, ms, u, r) <==> u in RoleMap(ms) && RoleMap(ms)[u] == r {
      if u in RoleMap(ms) && RoleMap(ms)[u] == r {
        var m := GroupMember(u, r);
        assert m in ms && Effective(owner, m) == r;
      }
    }
  }

  /** Normalising twice is normalising once. */
  lemma NormalizeIdempotent(lib: Routines, owner: Str, ms: seq<GroupMember>)
    requires NormalizeMembers(lib, owner, ms).Ok?
    ensures var out := NormalizeMembers(lib, owner, ms).value;
            && NormalizeMembers(lib, owner, out) == Ok(out)
            && Sorted(out) && owner in RoleMap(out) && RoleMap(out)[owner] == Owner
            && (forall m :: m in out ==> !lib.blank(m.userId))
  {
    NormalizeMeaning(lib, owner, ms);
    var out := NormalizeMembers(lib, owner, ms).value;
    assert Strongest(owner, ms, owner, Owner);
    SortedLists(out);
    forall m | m in out ensures !lib.blank(m.userId) {
      assert Strongest(owner, ms, m.userId, m.role);
    }
    NormalizeIdentity(lib, owner, out);
  }
}
