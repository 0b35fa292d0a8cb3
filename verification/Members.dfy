/** Group members: the id-sorted member vector and the user-to-role map it stands for. */
module Members {
  import opened Core
  import opened Text

  datatype Role = Owner | Admin | Member

  datatype GroupMember = GroupMember(userId: Str, role: Role)

  // ------------------------------------------------------------ sorted vectors

  predicate Sorted(ms: seq<GroupMember>) {
    forall i, j :: 0 <= i < j < |ms| ==> Less(ms[i].userId, ms[j].userId)
  }

  /** The map the vector lists; the first entry of a user counts, as it does for `find`. */
  function RoleMap(ms: seq<GroupMember>): map<Str, Role> {
    if ms == [] then map[] else RoleMap(ms[1..])[ms[0].userId := ms[0].role]
  }

  /** The role of the first entry of a user. */
  function FindRole(ms: seq<GroupMember>, u: Str): Option<Role> {
    if ms == [] then None
    else if ms[0].userId == u then Some(ms[0].role)
    else FindRole(ms[1..], u)
  }

  predicate HasUser(ms: seq<GroupMember>, u: Str) {
    FindRole(ms, u).Some?
  }

  /** The first Owner in id order, or the empty string. */
  function OwnerId(ms: seq<GroupMember>): Str {
    if ms == [] then []
    else if ms[0].role == Owner then ms[0].userId
    else OwnerId(ms[1..])
  }

  predicate HasOwner(ms: seq<GroupMember>) {
    exists i :: 0 <= i < |ms| && ms[i].role == Owner
  }

  /** Replace u's role in place, or insert u at its place in id order. */
  function Put(ms: seq<GroupMember>, u: Str, r: Role): seq<GroupMember> {
    if ms == [] then [GroupMember(u, r)]
    else if ms[0].userId == u then [GroupMember(u, r)] + ms[1..]
    else if Less(u, ms[0].userId) then [GroupMember(u, r)] + ms
    else [ms[0]] + Put(ms[1..], u, r)
  }

  /** The entries of all other users. */
  function Without(ms: seq<GroupMember>, u: Str): seq<GroupMember> {
    if ms == [] then []
    else if ms[0].userId == u then Without(ms[1..], u)
    else [ms[0]] + Without(ms[1..], u)
  }

  /** Stable insertion of x after every entry that is not larger. */
  function InsertStable(ms: seq<GroupMember>, x: GroupMember): seq<GroupMember> {
    if ms == [] then [x]
    else if Less(x.userId, ms[0].userId) then [x] + ms
    else [ms[0]] + InsertStable(ms[1..], x)
  }

  /** The stable sort by user id. */
  function SortById(ms: seq<GroupMember>): seq<GroupMember> {
    if ms == [] then [] else InsertStable(SortById(ms[..|ms| - 1]), ms[|ms| - 1])
  }

  // ------------------------------------------------------------ refinement to the map

  lemma {:induction false} FindIsLookup(ms: seq<GroupMember>, u: Str)
    ensures FindRole(ms, u) == if u in RoleMap(ms) then Some(RoleMap(ms)[u]) else None
  {
    if ms != [] { FindIsLookup(ms[1..], u); }
  }

  /** In a sorted vector the map is exactly the set of entries. */
  lemma {:induction false} SortedLists(ms: seq<GroupMember>)
    requires Sorted(ms)
    ensures forall m :: m in ms <==> m.userId in RoleMap(ms) && RoleMap(ms)[m.userId] == m.role
  {
    if ms != [] {
      SortedLists(ms[1..]);
      assert forall m :: m in ms <==> m == ms[0] || m in ms[1..];
      forall m | m in ms[1..] ensures m.userId != ms[0].userId {
        LessIrreflexive(m.userId);
      }
    }
  }

  /** A sorted vector is determined by its entries, hence by its map. */
  lemma {:induction false} SortedUnique(a: seq<GroupMember>, b: seq<GroupMember>)
    requires Sorted(a) && Sorted(b)
    requires forall m :: m in a <==> m in b
    ensures a == b
  {
    if a == [] {
      assert forall i :: 0 <= i < |b| ==> b[i] in b;
    } else {
      assert a[0] in a;
      assert b != [];
      assert b[0] in b;
      if a[0] != b[0] {
        assert Less(b[0].userId, a[0].userId) && Less(a[0].userId, b[0].userId);
        LessTransitive(a[0].userId, b[0].userId, a[0].userId);
        LessIrreflexive(a[0].userId);
        assert false;
      }
      forall m ensures m in a[1..] <==> m in b[1..] {
        SortedHeadOnce(a, m);
        SortedHeadOnce(b, m);
      }
      SortedUnique(a[1..], b[1..]);
    }
  }

  lemma SortedHeadOnce(ms: seq<GroupMember>, m: GroupMember)
    requires Sorted(ms) && ms != []
    ensures m in ms[1..] <==> m in ms && m != ms[0]
  {
    LessIrreflexive(m.userId);
    assert m in ms <==> m == ms[0] || m in ms[1..];
  }

  lemma SameMapSameVector(a: seq<GroupMember>, b: seq<GroupMember>)
    requires Sorted(a) && Sorted(b) && RoleMap(a) == RoleMap(b)
    ensures a == b
  {
    SortedLists(a);
    SortedLists(b);
    SortedUnique(a, b);
  }

  lemma {:induction false} PutMembers(ms: seq<GroupMember>, u: Str, r: Role, m: GroupMember)
    ensures m in Put(ms, u, r) ==> m in ms || m == GroupMember(u, r)
  {
    if ms != [] {
      PutMembers(ms[1..], u, r, m);
      assert m in ms <==> m == ms[0] || m in ms[1..];
    }
  }

  lemma SortedCons(m: GroupMember, rest: seq<GroupMember>)
    requires Sorted(rest) && forall j :: 0 <= j < |rest| ==> Less(m.userId, rest[j].userId)
    ensures Sorted([m] + rest)
  {
  }

  lemma {:induction false} PutSorted(ms: seq<GroupMember>, u: Str, r: Role)
    requires Sorted(ms)
    ensures Sorted(Put(ms, u, r))
  {
    if ms == [] || ms[0].userId == u {
    } else if Less(u, ms[0].userId) {
      forall j | 0 <= j < |ms| ensures Less(u, ms[j].userId) {
        if j > 0 { LessTransitive(u, ms[0].userId, ms[j].userId); }
      }
      SortedCons(GroupMember(u, r), ms);
    } else {
      LessTotal(u, ms[0].userId);
      var q := Put(ms[1..], u, r);
      PutSorted(ms[1..], u, r);
      forall j | 0 <= j < |q| ensures Less(ms[0].userId, q[j].userId) {
        PutMembers(ms[1..], u, r, q[j]);
        assert q[j] in q;
      }
      SortedCons(ms[0], q);
    }
  }

  lemma RoleMapCons(m: GroupMember, rest: seq<GroupMember>)
    ensures RoleMap([m] + rest) == RoleMap(rest)[m.userId := m.role]
  {
    assert ([m] + rest)[1..] == rest;
  }

  lemma {:induction false} PutMap(ms: seq<GroupMember>, u: Str, r: Role)
    ensures RoleMap(Put(ms, u, r)) == RoleMap(ms)[u := r]
  {
    if ms == [] {
      RoleMapCons(GroupMember(u, r), []);
    } else if ms[0].userId == u {
      RoleMapCons(GroupMember(u, r), ms[1..]);
    } else if Less(u, ms[0].userId) {
      RoleMapCons(GroupMember(u, r), ms);
    } else {
      PutMap(ms[1..], u, r);
      RoleMapCons(ms[0], Put(ms[1..], u, r));
    }
  }

  /** Put refines map update. */
  lemma PutRefines(ms: seq<GroupMember>, u: Str, r: Role)
    requires Sorted(ms)
    ensures Sorted(Put(ms, u, r))
    ensures RoleMap(Put(ms, u, r)) == RoleMap(ms)[u := r]
  {
    PutSorted(ms, u, r);
    PutMap(ms, u, r);
  }

  lemma {:induction false} WithoutMembers(ms: seq<GroupMember>, u: Str, m: GroupMember)
    ensures m in Without(ms, u) <==> m in ms && m.userId != u
  {
    if ms != [] {
      WithoutMembers(ms[1..], u, m);
      assert m in ms <==> m == ms[0] || m in ms[1..];
    }
  }

  lemma {:induction false} WithoutSorted(ms: seq<GroupMember>, u: Str)
    requires Sorted(ms)
    ensures Sorted(Without(ms, u))
  {
    if ms != [] {
      WithoutSorted(ms[1..], u);
      var q := Without(ms[1..], u);
      forall j | 0 <= j < |q| ensures Less(ms[0].userId, q[j].userId) {
        assert q[j] in q;
        WithoutMembers(ms[1..], u, q[j]);
      }
    }
  }

  lemma {:induction false} WithoutShrinks(ms: seq<GroupMember>, u: Str)
    ensures |Without(ms, u)| <= |ms|
    ensures |Without(ms, u)| == |ms| <==> u !in RoleMap(ms)
    ensures u !in RoleMap(ms) ==> Without(ms, u) == ms
  {
    if ms != [] {
      WithoutShrinks(ms[1..], u);
    }
  }

  /** Filtering out a user refines map removal. */
  lemma {:induction false} WithoutRefines(ms: seq<GroupMember>, u: Str)
    ensures RoleMap(Without(ms, u)) == RoleMap(ms) - {u}
  {
    if ms != [] {
      WithoutRefines(ms[1..], u);
      if ms[0].userId != u {
        assert Without(ms, u)[1..] == Without(ms[1..], u);
      }
    }
  }

  lemma {:induction false} InsertIsPut(ms: seq<GroupMember>, x: GroupMember)
    requires x.userId !in RoleMap(ms)
    ensures InsertStable(ms, x) == Put(ms, x.userId, x.role)
  {
    if ms != [] { InsertIsPut(ms[1..], x); }
  }

  lemma {:induction false} InsertLast(ms: seq<GroupMember>, x: GroupMember)
    requires forall i :: 0 <= i < |ms| ==> Less(ms[i].userId, x.userId)
    ensures InsertStable(ms, x) == ms + [x]
  {
    if ms != [] {
      if Less(x.userId, ms[0].userId) {
        LessTransitive(x.userId, ms[0].userId, x.userId);
        LessIrreflexive(x.userId);
        assert false;
      }
      InsertLast(ms[1..], x);
    }
  }

  lemma {:induction false} SortOfSorted(ms: seq<GroupMember>)
    requires Sorted(ms)
    ensures SortById(ms) == ms
  {
    if ms != [] {
      SortOfSorted(ms[..|ms| - 1]);
      InsertLast(ms[..|ms| - 1], ms[|ms| - 1]);
    }
  }

  /** Appending a new user to a sorted vector and sorting inserts the user in place. */
  lemma PushAndSortIsPut(ms: seq<GroupMember>, x: GroupMember)
    requires Sorted(ms) && x.userId !in RoleMap(ms)
    ensures SortById(ms + [x]) == Put(ms, x.userId, x.role)
  {
    assert (ms + [x])[..|ms|] == ms;
    SortOfSorted(ms);
    InsertIsPut(ms, x);
  }

  // ------------------------------------------------------------ the owner

  /** With an Owner present, OwnerId is an Owner and no Owner has a smaller id. */
  lemma {:induction false} OwnerIsLeast(ms: seq<GroupMember>)
    requires Sorted(ms) && HasOwner(ms)
    ensures OwnerId(ms) in RoleMap(ms) && RoleMap(ms)[OwnerId(ms)] == Owner
    ensures forall m :: m in ms && m.role == Owner ==> m.userId == OwnerId(ms) || Less(OwnerId(ms), m.userId)
  {
    if ms[0].role != Owner {
      var i :| 0 <= i < |ms| && ms[i].role == Owner;
      assert ms[1..][i - 1].role == Owner;
      OwnerIsLeast(ms[1..]);
      SortedLists(ms);
      SortedLists(ms[1..]);
      assert forall m :: m in ms <==> m == ms[0] || m in ms[1..];
      assert GroupMember(OwnerId(ms), Owner) in ms[1..];
      assert GroupMember(OwnerId(ms), Owner) in ms;
    }
  }

  lemma OwnerInMap(ms: seq<GroupMember>, u: Str)
    requires Sorted(ms) && u in RoleMap(ms) && RoleMap(ms)[u] == Owner
    ensures HasOwner(ms) && (OwnerId(ms) == u || Less(OwnerId(ms), u))
  {
    SortedLists(ms);
    var m := GroupMember(u, Owner);
    assert m in ms;
    var i :| 0 <= i < |ms| && ms[i] == m;
    OwnerIsLeast(ms);
  }
}
