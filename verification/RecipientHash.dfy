/** The hash over the recipients of a group relay: pairs of user id and blob hash, sorted by id
    and written with delimiters. */
module RecipientHash {
  import opened Bytes
  import opened Text

  datatype Recipient = Recipient(userId: Str, blobHash: seq<byte>)

  predicate SortedByUser(rs: seq<Recipient>) {
    forall i, j :: 0 <= i < j < |rs| ==> Less(rs[i].userId, rs[j].userId)
  }

  predicate DistinctUsers(rs: seq<Recipient>) {
    forall i, j :: 0 <= i < j < |rs| ==> rs[i].userId != rs[j].userId
  }

  /** Ids without NUL and hashes of 32 bytes. */
  predicate Plain(rs: seq<Recipient>) {
    forall i :: 0 <= i < |rs| ==> 0 !in rs[i].userId && |rs[i].blobHash| == 32
  }

  function Insert(rs: seq<Recipient>, x: Recipient): seq<Recipient> {
    if rs == [] then [x]
    else if Less(x.userId, rs[0].userId) then [x] + rs
    else [rs[0]] + Insert(rs[1..], x)
  }

  /** The stable sort by user id. */
  function SortByUser(rs: seq<Recipient>): seq<Recipient> {
    if rs == [] then [] else Insert(SortByUser(rs[..|rs| - 1]), rs[|rs| - 1])
  }

  function Entry(r: Recipient): seq<byte> {
    r.userId + ([0x00] + (r.blobHash + [0x01]))
  }

  function Entries(rs: seq<Recipient>): seq<byte> {
    if rs == [] then [] else Entry(rs[0]) + Entries(rs[1..])
  }

  /** What is fed to the outer hash. */
  function HashInput(rs: seq<Recipient>): seq<byte> {
    Entries(SortByUser(rs))
  }

  function Recipients(ids: seq<Str>, blobs: seq<seq<byte>>, sha256: seq<byte> -> seq<byte>): (rs: seq<Recipient>)
    requires |ids| == |blobs|
    ensures |rs| == |ids|
  {
    seq(|ids|, i requires 0 <= i < |ids| => Recipient(ids[i], sha256(blobs[i])))
  }

  method CollectRecipients(ids: seq<Str>, blobs: seq<seq<byte>>, sha256: seq<byte> -> seq<byte>)
      returns (rs: seq<Recipient>)
    requires |ids| == |blobs|
    ensures rs == Recipients(ids, blobs, sha256)
  {
    rs := [];
    for i := 0 to |ids|
      invariant |rs| == i
      invariant forall j :: 0 <= j < i ==> rs[j] == Recipient(ids[j], sha256(blobs[j]))
    {
      rs := rs + [Recipient(ids[i], sha256(blobs[i]))];
    }
  }

  lemma FedEntry(fed: seq<byte>, r: Recipient, rest: seq<byte>)
    ensures fed + (Entry(r) + rest) == fed + r.userId + [0x00] + r.blobHash + [0x01] + rest
  {
  }

  method FeedRecipients(ids: seq<Str>, blobs: seq<seq<byte>>, sha256: seq<byte> -> seq<byte>) returns (fed: seq<byte>)
    requires |ids| == |blobs|
    ensures fed == HashInput(Recipients(ids, blobs, sha256))
  {
    var collected := CollectRecipients(ids, blobs, sha256);
    var normalized := SortByUser(collected);
    fed := [];
    assert normalized[0..] == normalized;
    for i := 0 to |normalized|
      invariant Entries(normalized) == fed + Entries(normalized[i..])
    {
      assert normalized[i..][0] == normalized[i] && normalized[i..][1..] == normalized[i + 1..];
      FedEntry(fed, normalized[i], Entries(normalized[i + 1..]));
      fed := fed + normalized[i].userId + [0x00] + normalized[i].blobHash + [0x01];
    }
    assert normalized[|normalized|..] == [];
  }

  // ------------------------------------------------------------ sorting is canonical

  lemma {:induction false} InsertKeeps(rs: seq<Recipient>, x: Recipient)
    ensures multiset(Insert(rs, x)) == multiset(rs) + multiset{x}
  {
    if rs != [] {
      InsertKeeps(rs[1..], x);
      assert rs == [rs[0]] + rs[1..];
    }
  }

  lemma {:induction false} SortKeeps(rs: seq<Recipient>)
    ensures multiset(SortByUser(rs)) == multiset(rs)
  {
    if rs != [] {
      var before, x := rs[..|rs| - 1], rs[|rs| - 1];
      SortKeeps(before);
      InsertKeeps(SortByUser(before), x);
      assert rs == before + [x];
    }
  }

  lemma {:induction false} InsertSorts(rs: seq<Recipient>, x: Recipient)
    requires SortedByUser(rs) && forall r :: r in rs ==> r.userId != x.userId
    ensures SortedByUser(Insert(rs, x))
  {
    if rs == [] {
    } else if Less(x.userId, rs[0].userId) {
      forall j | 0 <= j < |rs| ensures Less(x.userId, rs[j].userId) {
        if j > 0 { LessTransitive(x.userId, rs[0].userId, rs[j].userId); }
      }
    } else {
      assert rs[0] in rs;
      LessTotal(x.userId, rs[0].userId);
      InsertSorts(rs[1..], x);
      var t := Insert(rs[1..], x);
      forall j | 0 <= j < |t| ensures Less(rs[0].userId, t[j].userId) {
        InsertKeeps(rs[1..], x);
        assert t[j] in multiset(t);
      }
    }
  }

  lemma {:induction false} SortSorts(rs: seq<Recipient>)
    requires DistinctUsers(rs)
    ensures SortedByUser(SortByUser(rs))
  {
    if rs != [] {
      var before, x := rs[..|rs| - 1], rs[|rs| - 1];
      SortSorts(before);
      SortKeeps(before);
      var sorted := SortByUser(before);
      forall r | r in sorted ensures r.userId != x.userId {
        assert r in multiset(sorted);
        assert r in before;
      }
      InsertSorts(sorted, x);
    }
  }

  lemma SortedHeads(a: seq<Recipient>, b: seq<Recipient>)
    requires SortedByUser(a) && SortedByUser(b) && a != [] && b != [] && a[0] in b && b[0] in a
    ensures a[0] == b[0]
  {
    if a[0] != b[0] {
      LessTransitive(a[0].userId, b[0].userId, a[0].userId);
      LessIrreflexive(a[0].userId);
    }
  }

  lemma DropHead(a: seq<Recipient>)
    requires a != []
    ensures multiset(a[1..]) == multiset(a) - multiset{a[0]} && a[0] in multiset(a)
  {
    assert a == [a[0]] + a[1..];
  }

  lemma {:induction false} SortedCanonical(a: seq<Recipient>, b: seq<Recipient>)
    requires SortedByUser(a) && SortedByUser(b) && multiset(a) == multiset(b)
    ensures a == b
  {
    if a == [] {
      assert |multiset(b)| == 0;
    } else {
      assert |multiset(a)| == |a| && |multiset(b)| == |b|;
      DropHead(a);
      DropHead(b);
      SortedHeads(a, b);
      SortedCanonical(a[1..], b[1..]);
      assert a == [a[0]] + a[1..] && b == [b[0]] + b[1..];
    }
  }

  // ------------------------------------------------------------ the encoding is uniquely decodable

  lemma EntryHead(r: Recipient, tail: seq<byte>, r': Recipient, tail': seq<byte>)
    requires 0 !in r.userId && 0 !in r'.userId && |r.blobHash| == |r'.blobHash| == 32
    requires Entry(r) + tail == Entry(r') + tail'
    ensures r == r' && tail == tail'
  {
    var s := Entry(r) + tail;
    FirstNul(r, tail, r'.userId, [0x00] + (r'.blobHash + [0x01]) + tail');
    FirstNul(r', tail', r.userId, [0x00] + (r.blobHash + [0x01]) + tail);
    SplitAt(Entry(r), tail, Entry(r'), tail');
    SplitAt(r.userId, [0x00] + (r.blobHash + [0x01]), r'.userId, [0x00] + (r'.blobHash + [0x01]));
    SplitAt([0x00], r.blobHash + [0x01], [0x00], r'.blobHash + [0x01]);
    SplitAt(r.blobHash, [0x01], r'.blobHash, [0x01]);
  }

  /** A NUL-free prefix cannot reach past the first NUL. */
  lemma FirstNul(r: Recipient, tail: seq<byte>, u: Str, rest: seq<byte>)
    requires 0 !in u && Entry(r) + tail == u + rest
    ensures |u| <= |r.userId|
  {
    var s := u + rest;
    assert forall i :: 0 <= i < |u| ==> s[i] == u[i] && s[i] != 0;
    assert (Entry(r) + tail)[|r.userId|] == 0;
  }

  lemma {:induction false} EntriesInjective(a: seq<Recipient>, b: seq<Recipient>)
    requires Plain(a) && Plain(b) && Entries(a) == Entries(b)
    ensures a == b
    decreases |a|
  {
    if a != [] && b != [] {
      EntryHead(a[0], Entries(a[1..]), b[0], Entries(b[1..]));
      EntriesInjective(a[1..], b[1..]);
      assert a == [a[0]] + a[1..] && b == [b[0]] + b[1..];
    }
  }

  lemma PlainOfSort(rs: seq<Recipient>)
    requires Plain(rs)
    ensures Plain(SortByUser(rs))
  {
    SortKeeps(rs);
    var t := SortByUser(rs);
    forall i | 0 <= i < |t| ensures 0 !in t[i].userId && |t[i].blobHash| == 32 {
      assert t[i] in multiset(t);
      assert t[i] in rs;
    }
  }

  /** For recipient lists with distinct NUL-free ids, the hashed bytes agree exactly when one list
      is a permutation of the other. */
  lemma HashInputExact(a: seq<Recipient>, b: seq<Recipient>)
    requires Plain(a) && Plain(b) && DistinctUsers(a) && DistinctUsers(b)
    ensures HashInput(a) == HashInput(b) <==> multiset(a) == multiset(b)
  {
    SortKeeps(a);
    SortKeeps(b);
    if HashInput(a) == HashInput(b) {
      PlainOfSort(a);
      PlainOfSort(b);
      EntriesInjective(SortByUser(a), SortByUser(b));
    }
    if multiset(a) == multiset(b) {
      SortSorts(a);
      SortSorts(b);
      SortedCanonical(SortByUser(a), SortByUser(b));
    }
  }
}
