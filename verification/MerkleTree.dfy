/** The Merkle tree of the key transparency log and its inclusion proofs (section 2.1 of RFC 6962).
    Hashes are free terms: a leaf hash, or the hash of two child hashes, which the 0x00 and 0x01
    prefixes keep apart. */
module MerkleTree {
  import opened Core

  datatype Digest = Leaf(content: seq<int>) | Node(left: Digest, right: Digest)

  // ------------------------------------------------------------ powers of two

  predicate IsPow2(n: nat) {
    n == 1 || (n > 1 && n % 2 == 0 && IsPow2(n / 2))
  }

  lemma {:induction false} SplitExists(n: nat)
    requires n >= 2
    ensures exists k: nat :: IsPow2(k) && k < n <= 2 * k
  {
    if n == 2 {
      assert IsPow2(1);
    } else {
      SplitExists((n + 1) / 2);
      var k: nat :| IsPow2(k) && k < (n + 1) / 2 <= 2 * k;
      assert IsPow2(2 * k);
    }
  }

  /** The largest power of two less than n. */
  ghost function Split(n: nat): (k: nat)
    requires n >= 2
    ensures IsPow2(k) && k < n <= 2 * k
  {
    SplitExists(n);
    var k: nat :| IsPow2(k) && k < n <= 2 * k;
    k
  }

  lemma {:induction false} Pow2Gap(a: nat, b: nat)
    requires IsPow2(a) && IsPow2(b) && a < b
    ensures 2 * a <= b
  {
    if a > 1 {
      Pow2Gap(a / 2, b / 2);
    }
  }

  lemma SplitUnique(n: nat, k: nat)
    requires n >= 2 && IsPow2(k) && k < n <= 2 * k
    ensures Split(n) == k
  {
    var s := Split(n);
    if s < k { Pow2Gap(s, k); } else if k < s { Pow2Gap(k, s); }
  }

  // ------------------------------------------------------------ the tree

  /** The tree root by the top-down definition of RFC 6962. */
  ghost function Root(l: seq<Digest>): Digest
    requires |l| >= 1
    decreases |l|
  {
    if |l| == 1 then l[0]
    else
      var k := Split(|l|);
      Node(Root(l[..k]), Root(l[k..]))
  }

  /** One level up: hash neighbours, promote an odd last node. */
  function PairUp(level: seq<Digest>): (next: seq<Digest>)
    ensures |next| == (|level| + 1) / 2
  {
    if |level| < 2 then level else [Node(level[0], level[1])] + PairUp(level[2..])
  }

  lemma {:induction false} PairUpAppend(a: seq<Digest>, b: seq<Digest>)
    requires |a| % 2 == 0
    ensures PairUp(a + b) == PairUp(a) + PairUp(b)
  {
    if a == [] {
      assert a + b == b;
    } else {
      assert (a + b)[2..] == a[2..] + b && (a + b)[0] == a[0] && (a + b)[1] == a[1];
      PairUpAppend(a[2..], b);
    }
  }

  lemma PairUpTwo(l: seq<Digest>)
    requires |l| == 2
    ensures Root(PairUp(l)) == Root(l)
  {
    assert PairUp(l) == [Node(l[0], l[1])];
    SplitUnique(2, 1);
    assert l[..1] == [l[0]] && l[1..] == [l[1]];
  }

  /** Pairing up both parts of a tree pairs up the tree. */
  lemma PairUpParts(l: seq<Digest>, k: nat)
    requires |l| > 2 && k == Split(|l|)
    ensures Root(PairUp(l)) == Node(Root(PairUp(l[..k])), Root(PairUp(l[k..])))
  {
    var a, b := l[..k], l[k..];
    HalfSplit(|l|);
    PairUpAppend(a, b);
    assert a + b == l;
    RootJoin(PairUp(l), PairUp(a), PairUp(b));
  }

  /** Going one level up does not change the root. */
  lemma {:induction false} PairUpKeepsRoot(l: seq<Digest>)
    requires |l| >= 1
    ensures Root(PairUp(l)) == Root(l)
    decreases |l|
  {
    if |l| == 2 {
      PairUpTwo(l);
    } else if |l| > 2 {
      var k := Split(|l|);
      PairUpParts(l, k);
      PairUpKeepsRoot(l[..k]);
      PairUpKeepsRoot(l[k..]);
    }
  }

  lemma HalfSplit(n: nat)
    requires n > 2
    ensures var k := Split(n); k % 2 == 0 && IsPow2(k / 2) && 1 <= (n - k + 1) / 2 <= k / 2
  {
  }

  /** A full left part and a right part that is not longer give the node of their roots. */
  lemma RootJoin(l: seq<Digest>, a: seq<Digest>, b: seq<Digest>)
    requires l == a + b && IsPow2(|a|) && 1 <= |b| <= |a|
    ensures Root(l) == Node(Root(a), Root(b))
  {
    SplitUnique(|l|, |a|);
    assert l[..|a|] == a && l[|a|..] == b;
  }

  /** The bottom-up construction computes the top-down root. */
  method BuildTreeRoot(leaves: seq<Digest>) returns (root: Option<Digest>)
    ensures root == if leaves == [] then None else Some(Root(leaves))
  {
    if leaves == [] {
      return None;
    }
    var level := leaves;
    while |level| > 1
      invariant |level| >= 1 && Root(level) == Root(leaves)
      decreases |level|
    {
      PairUpKeepsRoot(level);
      level := NextLevel(level);
    }
    root := Some(level[0]);
  }

  /** The inner loop over chunks of two. */
  method NextLevel(level: seq<Digest>) returns (next: seq<Digest>)
    ensures next == PairUp(level)
  {
    next := [];
    var i := 0;
    while i + 1 < |level|
      invariant 0 <= i <= |level| && i % 2 == 0 && next == PairUp(level[..i])
    {
      assert level[..i + 2] == level[..i] + level[i..i + 2];
      PairUpAppend(level[..i], level[i..i + 2]);
      assert PairUp(level[i..i + 2]) == [Node(level[i], level[i + 1])];
      next := next + [Node(level[i], level[i + 1])];
      i := i + 2;
    }
    assert level == level[..i] + level[i..];
    PairUpAppend(level[..i], level[i..]);
    if i < |level| {
      next := next + [level[i]];
    }
  }

  /** Trees of the same size with the same root have the same leaves. */
  lemma {:induction false} RootInjective(a: seq<Digest>, b: seq<Digest>)
    requires |a| == |b| >= 1 && Root(a) == Root(b)
    ensures a == b
    decreases |a|
  {
    if |a| == 1 {
      assert a == [a[0]] && b == [b[0]];
    } else {
      var k := Split(|a|);
      RootInjective(a[..k], b[..k]);
      RootInjective(a[k..], b[k..]);
      assert a == a[..k] + a[k..] && b == b[..k] + b[k..];
    }
  }

  // ------------------------------------------------------------ inclusion proofs

  datatype Sibling = Sibling(hash: Digest, isLeft: bool)

  function Climb(current: Digest, path: seq<Sibling>): Digest
    decreases |path|
  {
    if path == [] then current
    else Climb(if path[0].isLeft then Node(path[0].hash, current) else Node(current, path[0].hash), path[1..])
  }

  /** The siblings of position i, level by level. */
  function Path(level: seq<Digest>, i: nat): seq<Sibling>
    requires i < |level|
    decreases |level|
  {
    if |level| == 1 then [] else Entry(level, i) + Path(PairUp(level), i / 2)
  }

  /** The path entry of a level, if there is a sibling. */
  function Entry(level: seq<Digest>, i: nat): seq<Sibling>
    requires i < |level|
  {
    var sibling := if i % 2 == 0 then i + 1 else i - 1;
    if sibling < |level| then [Sibling(level[sibling], sibling < i)] else []
  }

  /** The leaf's path, built level by level. */
  method BuildInclusionProof(leaves: seq<Digest>, index: nat) returns (path: Option<seq<Sibling>>)
    ensures path == if index < |leaves| then Some(Path(leaves, index)) else None
  {
    if index >= |leaves| {
      return None;
    }
    var siblings: seq<Sibling> := [];
    var level: seq<Digest>, idx: nat := leaves, index;
    while |level| > 1
      invariant idx < |level| && siblings + Path(level, idx) == Path(leaves, index)
      decreases |level|
    {
      PathStep(siblings, level, idx);
      siblings := siblings + Entry(level, idx);
      level := NextLevel(level);
      idx := idx / 2;
    }
    assert siblings + [] == siblings;
    path := Some(siblings);
  }

  lemma PathStep(siblings: seq<Sibling>, level: seq<Digest>, i: nat)
    requires i < |level| && |level| > 1
    ensures siblings + Path(level, i) == siblings + Entry(level, i) + Path(PairUp(level), i / 2)
  {
  }

  datatype TreeHead = TreeHead(epoch: nat, size: nat, root: Digest)

  /** Checks the signature of the tree head, then walks up the path and compares with its root;
      `signed` tells which tree heads carry a valid signature of the log. */
  method VerifyInclusionProof(signed: TreeHead -> bool, leaf: Digest, path: seq<Sibling>, head: TreeHead)
      returns (r: Result<Unit>)
    ensures r.Ok? <==> signed(head) && Climb(leaf, path) == head.root
    ensures r.Err? ==> (r.error == SignatureVerificationFailed <==> !signed(head))
  {
    if !signed(head) {
      return Err(SignatureVerificationFailed);
    }
    var current := leaf;
    for i := 0 to |path|
      invariant Climb(current, path[i..]) == Climb(leaf, path)
    {
      assert path[i..][1..] == path[i + 1..];
      current := if path[i].isLeft then Node(path[i].hash, current) else Node(current, path[i].hash);
    }
    r := if current == head.root then Ok(Unit) else Err(PolicyViolation("inclusion proof invalid"));
  }

  lemma {:induction false} PairUpAt(level: seq<Digest>, i: nat)
    requires i < |level|
    ensures PairUp(level)[i / 2] ==
            if i % 2 == 1 then Node(level[i - 1], level[i])
            else if i + 1 < |level| then Node(level[i], level[i + 1])
            else level[i]
    decreases |level|
  {
    if i >= 2 {
      PairUpAt(level[2..], i - 2);
      assert (i - 2) / 2 == i / 2 - 1;
    }
  }

  /** One level of the climb. */
  lemma ClimbStep(level: seq<Digest>, i: nat, rest: seq<Sibling>)
    requires i < |level|
    ensures Climb(level[i], Entry(level, i) + rest) == Climb(PairUp(level)[i / 2], rest)
  {
    PairUpAt(level, i);
    var entry := Entry(level, i);
    if entry == [] {
      assert entry + rest == rest;
    } else {
      assert (entry + rest)[0] == entry[0] && (entry + rest)[1..] == rest;
    }
  }

  /** Climbing the built path from any leaf reaches the root. */
  lemma {:induction false} InclusionProofVerifies(level: seq<Digest>, i: nat)
    requires i < |level|
    ensures Climb(level[i], Path(level, i)) == Root(level)
    decreases |level|
  {
    if |level| > 1 {
      var up := PairUp(level);
      ClimbStep(level, i, Path(up, i / 2));
      InclusionProofVerifies(up, i / 2);
      PairUpKeepsRoot(level);
    }
  }

  ghost predicate Occurs(x: Digest, tree: Digest) {
    x == tree || (tree.Node? && (Occurs(x, tree.left) || Occurs(x, tree.right)))
  }

  lemma {:induction false} ClimbOccurs(x: Digest, path: seq<Sibling>)
    ensures Occurs(x, Climb(x, path))
    decreases |path|
  {
    if path != [] {
      var up := if path[0].isLeft then Node(path[0].hash, x) else Node(x, path[0].hash);
      ClimbOccurs(up, path[1..]);
      OccursTransitive(x, up, Climb(up, path[1..]));
    }
  }

  lemma {:induction false} OccursTransitive(x: Digest, y: Digest, z: Digest)
    requires Occurs(x, y) && Occurs(y, z)
    ensures Occurs(x, z)
    decreases z
  {
    if y != z {
      if Occurs(y, z.left) { OccursTransitive(x, y, z.left); } else { OccursTransitive(x, y, z.right); }
    }
  }

  predicate AllLeaves(l: seq<Digest>) {
    forall i :: 0 <= i < |l| ==> l[i].Leaf?
  }

  lemma {:induction false} LeavesOfRoot(l: seq<Digest>, x: Digest)
    requires |l| >= 1 && AllLeaves(l) && x.Leaf? && Occurs(x, Root(l))
    ensures x in l
    decreases |l|
  {
    if |l| > 1 {
      var k := Split(|l|);
      if Occurs(x, Root(l[..k])) { LeavesOfRoot(l[..k], x); } else { LeavesOfRoot(l[k..], x); }
    }
  }

  /** An accepted inclusion proof for a leaf hash means the leaf is in the tree. */
  lemma AcceptedInclusionIsMember(l: seq<Digest>, x: Digest, path: seq<Sibling>)
    requires |l| >= 1 && AllLeaves(l) && x.Leaf? && Climb(x, path) == Root(l)
    ensures x in l
  {
    ClimbOccurs(x, path);
    LeavesOfRoot(l, x);
  }

  // ------------------------------------------------------------ exactly which paths are accepted

  /** The audit path of RFC 6962, from the leaf to the top. */
  ghost function AuditPath(l: seq<Digest>, i: nat): seq<Sibling>
    requires i < |l|
    decreases |l|
  {
    if |l| == 1 then []
    else
      var k := Split(|l|);
      if i < k then AuditPath(l[..k], i) + [Sibling(Root(l[k..]), false)]
      else AuditPath(l[k..], i - k) + [Sibling(Root(l[..k]), true)]
  }

  lemma {:induction false} ClimbLast(x: Digest, path: seq<Sibling>, s: Sibling)
    ensures Climb(x, path + [s]) == if s.isLeft then Node(s.hash, Climb(x, path)) else Node(Climb(x, path), s.hash)
    decreases |path|
  {
    if path != [] {
      assert (path + [s])[1..] == path[1..] + [s];
      ClimbLast(if path[0].isLeft then Node(path[0].hash, x) else Node(x, path[0].hash), path[1..], s);
    }
  }

  lemma {:induction false} OnlyAuditPathsClimb(l: seq<Digest>, x: Digest, path: seq<Sibling>) returns (i: nat)
    requires |l| >= 1 && AllLeaves(l) && x.Leaf? && Climb(x, path) == Root(l)
    ensures i < |l| && l[i] == x && path == AuditPath(l, i)
    decreases |l|
  {
    if path != [] {
      assert path == path[..|path| - 1] + [path[|path| - 1]];
      ClimbLast(x, path[..|path| - 1], path[|path| - 1]);
    }
    if |l| == 1 {
      i := 0;
    } else {
      var k, before := Split(|l|), path[..|path| - 1];
      if path[|path| - 1].isLeft {
        i := OnlyAuditPathsClimb(l[k..], x, before);
        i := i + k;
      } else {
        i := OnlyAuditPathsClimb(l[..k], x, before);
      }
    }
  }

  lemma AuditOfTwo(l: seq<Digest>, i: nat)
    requires |l| == 2 && i < 2
    ensures AuditPath(l, i) == Entry(l, i) + AuditPath(PairUp(l), i / 2)
  {
    SplitUnique(2, 1);
    assert l[..1] == [l[0]] && l[1..] == [l[1]];
  }

  /** The audit path in a tree of two parts. */
  lemma AuditJoin(l: seq<Digest>, a: seq<Digest>, b: seq<Digest>, i: nat, ra: Digest, rb: Digest)
    requires l == a + b && IsPow2(|a|) && 1 <= |b| <= |a| && i < |l| && ra == Root(a) && rb == Root(b)
    ensures AuditPath(l, i) == if i < |a| then AuditPath(a, i) + [Sibling(rb, false)]
                               else AuditPath(b, i - |a|) + [Sibling(ra, true)]
  {
    SplitUnique(|l|, |a|);
    assert l[..|a|] == a && l[|a|..] == b;
  }

  lemma LevelParts(l: seq<Digest>, a: seq<Digest>, b: seq<Digest>, n: nat, up: seq<Digest>, upA: seq<Digest>,
                   upB: seq<Digest>)
    requires n == |l| > 2 && |a| == Split(n) && l == a + b && up == PairUp(l) && upA == PairUp(a) && upB == PairUp(b)
    ensures |a| % 2 == 0 && up == upA + upB && |upA| == |a| / 2 && IsPow2(|upA|) && 1 <= |upB| <= |upA|
  {
    HalfSplit(n);
    PairUpAppend(a, b);
  }

  /** The same one level up. */
  lemma UpIsTree(l: seq<Digest>, a: seq<Digest>, b: seq<Digest>, up: seq<Digest>, upA: seq<Digest>, upB: seq<Digest>)
    requires |l| > 2 && |a| == Split(|l|) && l == a + b && up == PairUp(l) && upA == PairUp(a) && upB == PairUp(b)
    ensures |a| % 2 == 0 && up == upA + upB && |upA| == |a| / 2 && IsPow2(|upA|) && 1 <= |upB| <= |upA|
    ensures Root(upA) == Root(a) && Root(upB) == Root(b)
  {
    LevelParts(l, a, b, |l|, up, upA, upB);
    PairUpKeepsRoot(a);
    PairUpKeepsRoot(b);
  }

  lemma AuditJoinUp(up: seq<Digest>, upA: seq<Digest>, upB: seq<Digest>, k: nat, i: nat, ra: Digest, rb: Digest)
    requires up == upA + upB && IsPow2(|upA|) && 1 <= |upB| <= |upA| && ra == Root(upA) && rb == Root(upB)
    requires k % 2 == 0 && |upA| == k / 2 && i / 2 < |up|
    ensures AuditPath(up, i / 2) == if i < k then AuditPath(upA, i / 2) + [Sibling(rb, false)]
                                    else AuditPath(upB, (i - k) / 2) + [Sibling(ra, true)]
  {
    HalvesSplit(i, k);
    AuditJoin(up, upA, upB, i / 2, ra, rb);
  }

  lemma HalvesSplit(i: nat, k: nat)
    requires k % 2 == 0
    ensures i < k <==> i / 2 < k / 2
    ensures i >= k ==> (i - k) / 2 == i / 2 - k / 2
  {
  }

  lemma EntryOfPart(l: seq<Digest>, k: nat, i: nat)
    requires k <= |l| && k % 2 == 0 && i < |l|
    ensures Entry(l, i) == if i < k then Entry(l[..k], i) else Entry(l[k..], i - k)
  {
  }

  lemma Shifted(whole: seq<Sibling>, part: seq<Sibling>, entry: seq<Sibling>, up: seq<Sibling>, upPart: seq<Sibling>,
                top: Sibling)
    requires whole == part + [top] && part == entry + upPart && up == upPart + [top]
    ensures whole == entry + up
  {
  }

  /** One level of the audit path, from below. */
  lemma {:induction false} AuditStep(l: seq<Digest>, i: nat)
    requires i < |l|
    ensures AuditPath(l, i) == Entry(l, i) + AuditPath(PairUp(l), i / 2)
    decreases |l|
  {
    if |l| == 2 {
      AuditOfTwo(l, i);
    } else if |l| > 2 {
      var k := Split(|l|);
      assert l == l[..k] + l[k..];
      UpIsTree(l, l[..k], l[k..], PairUp(l), PairUp(l[..k]), PairUp(l[k..]));
      AuditJoinUp(PairUp(l), PairUp(l[..k]), PairUp(l[k..]), k, i, Root(l[..k]), Root(l[k..]));
      EntryOfPart(l, k, i);
      if i < k {
        AuditStep(l[..k], i);
        Shifted(AuditPath(l, i), AuditPath(l[..k], i), Entry(l, i), AuditPath(PairUp(l), i / 2),
                AuditPath(PairUp(l[..k]), i / 2), Sibling(Root(l[k..]), false));
      } else {
        AuditStep(l[k..], i - k);
        Shifted(AuditPath(l, i), AuditPath(l[k..], i - k), Entry(l, i), AuditPath(PairUp(l), i / 2),
                AuditPath(PairUp(l[k..]), (i - k) / 2), Sibling(Root(l[..k]), true));
      }
    }
  }

  /** The path built level by level is the audit path. */
  lemma {:induction false} PathIsAudit(level: seq<Digest>, i: nat)
    requires i < |level|
    ensures Path(level, i) == AuditPath(level, i)
    decreases |level|
  {
    if |level| > 1 {
      PathIsAudit(PairUp(level), i / 2);
      AuditStep(level, i);
    }
  }

  /** For a leaf hash a path climbs to the root of a tree if and only if it is the path built for a
      position of the tree that holds the leaf. */
  lemma InclusionExactly(l: seq<Digest>, x: Digest, path: seq<Sibling>)
    requires |l| >= 1 && AllLeaves(l) && x.Leaf?
    ensures Climb(x, path) == Root(l) <==> exists i: nat :: i < |l| && l[i] == x && path == Path(l, i)
  {
    if Climb(x, path) == Root(l) {
      var i := OnlyAuditPathsClimb(l, x, path);
      PathIsAudit(l, i);
    }
    if i: nat :| i < |l| && l[i] == x && path == Path(l, i) {
      InclusionProofVerifies(l, i);
    }
  }
}
