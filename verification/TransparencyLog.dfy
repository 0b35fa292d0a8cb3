/** Consistency of two signed tree heads of the key transparency log: what an accepted proof means, and
    which proofs are accepted. */
module TransparencyLog {
  import opened Core
  import opened MerkleTree
  import opened ProofEvaluation

  // ------------------------------------------------------------ soundness

  lemma RootSplit(l: seq<Digest>, k: nat, m: nat)
    requires |l| >= 2 && k == Split(|l|) && k < m <= |l|
    ensures Root(l[..m]) == Node(Root(l[..k]), Root(l[k..][..m - k]))
  {
    SplitUnique(m, k);
    assert l[..m][..k] == l[..k] && l[..m][k..] == l[k..][..m - k];
  }

  /** If the recomputed new root is the root of l, the recomputed old root is the root of the first
      m leaves of l. */
  lemma {:induction false} RecurseSound(m: nat, l: seq<Digest>, seed: Digest, hashes: seq<Digest>)
    requires 1 <= m <= |l|
    requires var r := Recurse(m, |l|, seed, hashes); r.Some? && r.value.1 == Root(l)
    ensures Recurse(m, |l|, seed, hashes).value.0 == Root(l[..m])
    decreases |l|
  {
    if m == |l| {
      assert l[..m] == l;
    } else {
      var k, before := Split(|l|), hashes[..|hashes| - 1];
      if m <= k {
        RecurseSound(m, l[..k], seed, before);
        assert l[..k][..m] == l[..m];
      } else {
        RecurseSound(m - k, l[k..], seed, before);
        RootSplit(l, k, m);
      }
    }
  }

  // ------------------------------------------------------------ verifying tree heads

  datatype ConsistencyProof = ConsistencyProof(oldSize: nat, newSize: nat, hashes: seq<Digest>)

  /** `signed` tells which tree heads carry a valid signature of the log. */
  function VerifyConsistency(signed: TreeHead -> bool, old_: TreeHead, new_: TreeHead,
                             proof: ConsistencyProof): Result<Unit> {
    var _ :- Need(signed(old_) && signed(new_), SignatureVerificationFailed);
    var _ :- Need(new_.epoch >= old_.epoch, PolicyViolation("epoch regression"));
    var _ :- Need(new_.size >= old_.size, PolicyViolation("tree shrunk"));
    var _ :- Need(proof.oldSize == old_.size && proof.newSize == new_.size, PolicyViolation("proof size mismatch"));
    if old_.size == new_.size then
      Need(old_.root == new_.root, PolicyViolation("root hash mismatch"))
    else
      match EvaluateProof(old_.size, new_.size, old_.root, proof.hashes)
      case None => Err(PolicyViolation("invalid consistency params"))
      case Some((oldRoot, newRoot)) =>
        var _ :- Need(oldRoot == old_.root, PolicyViolation("old root mismatch"));
        Need(newRoot == new_.root, PolicyViolation("new root mismatch"))
  }

  lemma EvaluateSound(m: nat, l: seq<Digest>, oldRoot: Digest, proof: seq<Digest>)
    requires |l| >= 1
    requires var r := EvaluateProof(m, |l|, oldRoot, proof); r.Some? && r.value.1 == Root(l)
    ensures 1 <= m < |l| && EvaluateProof(m, |l|, oldRoot, proof).value.0 == Root(l[..m])
  {
    var seed, hashes := if IsPow2(m) then oldRoot else proof[0], if IsPow2(m) then proof else proof[1..];
    IterateIsRecurse(m, |l|, seed, hashes);
    RecurseSound(m, l, seed, hashes);
  }

  /** Whatever consistency proof is accepted, the log only grew: the leaves of the old tree are the
      first leaves of the new one, and the epoch did not go back. */
  lemma AcceptedConsistencyMeansPrefix(signed: TreeHead -> bool, old_: TreeHead, new_: TreeHead,
                                       proof: ConsistencyProof,
                                       before: seq<Digest>, after: seq<Digest>)
    requires VerifyConsistency(signed, old_, new_, proof).Ok?
    requires 1 <= |before| == old_.size && Root(before) == old_.root
    requires 1 <= |after| == new_.size && Root(after) == new_.root
    ensures before <= after && old_.epoch <= new_.epoch && signed(old_) && signed(new_)
  {
    var m := |before|;
    if m < |after| {
      EvaluateSound(m, after, old_.root, proof.hashes);
      RootInjective(before, after[..m]);
    } else {
      RootInjective(before, after);
    }
  }

  // ------------------------------------------------------------ completeness for RFC 6962 proofs

  /** The subtree the proof starts from. */
  ghost function Seed(l: seq<Digest>, m: nat): Digest
    requires 1 <= m <= |l|
    decreases |l|
  {
    if m == |l| then Root(l)
    else
      var k := Split(|l|);
      if m <= k then Seed(l[..k], m) else Seed(l[k..], m - k)
  }

  /** The siblings on the way from that subtree to the top. */
  ghost function Siblings(l: seq<Digest>, m: nat): seq<Digest>
    requires 1 <= m <= |l|
    decreases |l|
  {
    if m == |l| then []
    else
      var k := Split(|l|);
      if m <= k then Siblings(l[..k], m) + [Root(l[k..])] else Siblings(l[k..], m - k) + [Root(l[..k])]
  }

  lemma RecurseLeft(m: nat, n: nat, k: nat, seed: Digest, before: seq<Digest>, last: Digest, o: Digest, w: Digest)
    requires 1 <= m <= k < n && Split(n) == k && Recurse(m, k, seed, before) == Some((o, w))
    ensures Recurse(m, n, seed, before + [last]) == Some((o, Node(w, last)))
  {
  }

  lemma RecurseRight(m: nat, n: nat, k: nat, seed: Digest, before: seq<Digest>, last: Digest, o: Digest, w: Digest)
    requires 1 <= k < m < n && Split(n) == k && Recurse(m - k, n - k, seed, before) == Some((o, w))
    ensures Recurse(m, n, seed, before + [last]) == Some((Node(last, o), Node(last, w)))
  {
  }

  /** The seed and the siblings lead to the roots of the old and the new tree. */
  ghost predicate Leads(l: seq<Digest>, m: nat)
    requires 1 <= m <= |l|
  {
    Recurse(m, |l|, Seed(l, m), Siblings(l, m)) == Some((Root(l[..m]), Root(l)))
  }

  lemma LeadsLeft(l: seq<Digest>, m: nat, k: nat)
    requires 1 <= m <= k < |l| && k == Split(|l|) && Leads(l[..k], m)
    ensures Leads(l, m)
  {
    var left, right := l[..k], l[k..];
    RecurseLeft(m, |l|, k, Seed(left, m), Siblings(left, m), Root(right), Root(left[..m]), Root(left));
    assert left[..m] == l[..m];
  }

  lemma RightParts(l: seq<Digest>, m: nat, k: nat)
    requires 1 <= k < m < |l| && k == Split(|l|)
    ensures Seed(l, m) == Seed(l[k..], m - k) && Siblings(l, m) == Siblings(l[k..], m - k) + [Root(l[..k])]
    ensures Root(l[..m]) == Node(Root(l[..k]), Root(l[k..][..m - k])) && Root(l) == Node(Root(l[..k]), Root(l[k..]))
  {
    RootSplit(l, k, m);
  }

  lemma LeadsRight(l: seq<Digest>, m: nat, k: nat)
    requires 1 <= k < m < |l| && k == Split(|l|) && Leads(l[k..], m - k)
    ensures Leads(l, m)
  {
    var left, right := l[..k], l[k..];
    RightParts(l, m, k);
    RecurseRight(m, |l|, k, Seed(right, m - k), Siblings(right, m - k), Root(left), Root(right[..m - k]), Root(right));
  }

  lemma {:induction false} RecurseComplete(l: seq<Digest>, m: nat)
    requires 1 <= m <= |l|
    ensures Leads(l, m)
    decreases |l|
  {
    if m == |l| {
      assert l[..m] == l;
    } else {
      var k := Split(|l|);
      if m <= k {
        RecurseComplete(l[..k], m);
        LeadsLeft(l, m, k);
      } else {
        RecurseComplete(l[k..], m - k);
        LeadsRight(l, m, k);
      }
    }
  }

  lemma {:induction false} SeedOfFull(l: seq<Digest>, m: nat)
    requires 1 <= m <= |l| && IsPow2(m)
    ensures Seed(l, m) == Root(l[..m])
    decreases |l|
  {
    if m == |l| {
      assert l[..m] == l;
    } else {
      var k := Split(|l|);
      if m > k { Pow2Gap(k, m); }
      SeedOfFull(l[..k], m);
      assert l[..k][..m] == l[..m];
    }
  }

  /** SUBPROOF of RFC 6962. */
  ghost function SubProof(l: seq<Digest>, m: nat, known: bool): seq<Digest>
    requires 1 <= m <= |l|
    decreases |l|
  {
    if m == |l| then (if known then [] else [Root(l)])
    else
      var k := Split(|l|);
      if m <= k then SubProof(l[..k], m, known) + [Root(l[k..])]
      else SubProof(l[k..], m - k, false) + [Root(l[..k])]
  }

  /** A proof is the siblings, after the seed unless the seed is the old root itself. */
  ghost predicate Shaped(l: seq<Digest>, m: nat, known: bool)
    requires 1 <= m <= |l|
  {
    SubProof(l, m, known) == if known && IsPow2(m) then Siblings(l, m) else [Seed(l, m)] + Siblings(l, m)
  }

  lemma ShapedLeft(l: seq<Digest>, m: nat, known: bool, k: nat)
    requires 1 <= m <= k < |l| && k == Split(|l|) && Shaped(l[..k], m, known)
    ensures Shaped(l, m, known)
  {
  }

  lemma ShapedRight(l: seq<Digest>, m: nat, known: bool, k: nat)
    requires 1 <= k < m < |l| && k == Split(|l|) && Shaped(l[k..], m - k, false) && !IsPow2(m)
    ensures Shaped(l, m, known)
  {
  }

  lemma {:induction false} SubProofShape(l: seq<Digest>, m: nat, known: bool)
    requires 1 <= m <= |l| && (m < |l| || IsPow2(m))
    ensures Shaped(l, m, known)
    decreases |l|
  {
    if m < |l| {
      var k := Split(|l|);
      if m <= k {
        SubProofShape(l[..k], m, known);
        ShapedLeft(l, m, known, k);
      } else {
        if IsPow2(m) { Pow2Gap(k, m); }
        SubProofShape(l[k..], m - k, false);
        ShapedRight(l, m, known, k);
      }
    }
  }

  /** The proof of RFC 6962 evaluates to both roots, for every tree and every proper prefix. */
  lemma SubProofVerifies(l: seq<Digest>, m: nat)
    requires 1 <= m < |l|
    ensures EvaluateProof(m, |l|, Root(l[..m]), SubProof(l, m, true)) == Some((Root(l[..m]), Root(l)))
  {
    var seed, hs, proof := Seed(l, m), Siblings(l, m), SubProof(l, m, true);
    SubProofShape(l, m, true);
    RecurseComplete(l, m);
    IterateIsRecurse(m, |l|, seed, hs);
    if IsPow2(m) {
      SeedOfFull(l, m);
      assert hs != [];
    } else {
      assert proof[0] == seed && proof[1..] == hs;
    }
  }

  /** Hashes that lead to the root of a tree are the seed and the siblings. */
  lemma {:induction false} RecurseUnique(m: nat, l: seq<Digest>, seed: Digest, hashes: seq<Digest>)
    requires 1 <= m <= |l|
    requires var r := Recurse(m, |l|, seed, hashes); r.Some? && r.value.1 == Root(l)
    ensures seed == Seed(l, m) && hashes == Siblings(l, m)
    decreases |l|
  {
    if m < |l| {
      var k, before, last := Split(|l|), hashes[..|hashes| - 1], hashes[|hashes| - 1];
      assert hashes == before + [last];
      if m <= k {
        RecurseUnique(m, l[..k], seed, before);
      } else {
        RecurseUnique(m - k, l[k..], seed, before);
      }
    }
  }

  /** A proof evaluates to the roots of a tree and of its first m leaves if and only if it is the proof of
      RFC 6962. */
  lemma ProofIsUnique(l: seq<Digest>, m: nat, proof: seq<Digest>)
    requires 1 <= m < |l|
    ensures EvaluateProof(m, |l|, Root(l[..m]), proof) == Some((Root(l[..m]), Root(l)))
            <==> proof == SubProof(l, m, true)
  {
    SubProofVerifies(l, m);
    if EvaluateProof(m, |l|, Root(l[..m]), proof) == Some((Root(l[..m]), Root(l))) {
      var seed, hashes := if IsPow2(m) then Root(l[..m]) else proof[0], if IsPow2(m) then proof else proof[1..];
      IterateIsRecurse(m, |l|, seed, hashes);
      RecurseUnique(m, l, seed, hashes);
      SubProofShape(l, m, true);
    }
  }

  /** For given leaves a proof evaluates to both roots if and only if the old leaves are the first of the
      new ones and the proof is that of RFC 6962. */
  lemma GrowthExactly(before: seq<Digest>, after: seq<Digest>, proof: seq<Digest>)
    requires 1 <= |before| < |after|
    ensures EvaluateProof(|before|, |after|, Root(before), proof) == Some((Root(before), Root(after))) <==>
            before == after[..|before|] && proof == SubProof(after, |before|, true)
  {
    if EvaluateProof(|before|, |after|, Root(before), proof) == Some((Root(before), Root(after))) {
      EvaluateSound(|before|, after, Root(before), proof);
      RootInjective(before, after[..|before|]);
    }
    ProofIsUnique(after, |before|, proof);
  }

  /** Both heads are signed, the epoch did not go back, the proof names both sizes, the old leaves are the
      first of the new ones, and, unless nothing was appended, the hashes are the proof of RFC 6962. */
  ghost predicate Consistent(signed: TreeHead -> bool, old_: TreeHead, new_: TreeHead, proof: ConsistencyProof,
                             before: seq<Digest>, after: seq<Digest>) {
    && signed(old_) && signed(new_) && old_.epoch <= new_.epoch
    && proof.oldSize == |before| && proof.newSize == |after|
    && 1 <= |before| && before <= after && (before == after || proof.hashes == SubProof(after, |before|, true))
  }

  lemma GrownExactly(signed: TreeHead -> bool, old_: TreeHead, new_: TreeHead, proof: ConsistencyProof,
                     before: seq<Digest>, after: seq<Digest>, oldRoot: Digest, newRoot: Digest)
    requires 1 <= |before| == old_.size < |after| == new_.size
    requires old_.root == oldRoot && new_.root == newRoot
    requires EvaluateProof(old_.size, new_.size, oldRoot, proof.hashes) == Some((oldRoot, newRoot)) <==>
             before == after[..|before|] && proof.hashes == SubProof(after, |before|, true)
    ensures VerifyConsistency(signed, old_, new_, proof).Ok? <==> Consistent(signed, old_, new_, proof, before, after)
  {
    assert before <= after <==> before == after[..|before|];
  }

  lemma UnchangedExactly(signed: TreeHead -> bool, old_: TreeHead, new_: TreeHead, proof: ConsistencyProof,
                         before: seq<Digest>, after: seq<Digest>)
    requires 1 <= |before| == old_.size && |after| == new_.size && |after| <= |before|
    requires |before| == |after| ==> (old_.root == new_.root <==> before == after)
    ensures VerifyConsistency(signed, old_, new_, proof).Ok? <==> Consistent(signed, old_, new_, proof, before, after)
  {
  }

  /** For two heads with the roots of given leaves, that is exactly when consistency is accepted. */
  lemma ConsistencyExactly(signed: TreeHead -> bool, old_: TreeHead, new_: TreeHead, proof: ConsistencyProof,
                           before: seq<Digest>, after: seq<Digest>)
    requires 1 <= |before| == old_.size && Root(before) == old_.root
    requires 1 <= |after| == new_.size && Root(after) == new_.root
    ensures VerifyConsistency(signed, old_, new_, proof).Ok? <==> Consistent(signed, old_, new_, proof, before, after)
  {
    if |before| < |after| {
      GrowthExactly(before, after, proof.hashes);
      GrownExactly(signed, old_, new_, proof, before, after, Root(before), Root(after));
    } else {
      if |before| == |after| && Root(before) == Root(after) {
        RootInjective(before, after);
      }
      UnchangedExactly(signed, old_, new_, proof, before, after);
    }
  }

  // ------------------------------------------------------------ the proofs the code builds

  lemma {:induction false} FloorExists(n: nat)
    requires n >= 1
    ensures exists r: nat :: IsPow2(r) && r <= n < 2 * r
  {
    if n == 1 {
      assert IsPow2(1);
    } else {
      FloorExists(n / 2);
      var r: nat :| IsPow2(r) && r <= n / 2 < 2 * r;
      assert IsPow2(2 * r);
    }
  }

  /** The largest power of two that is at most n: its exponent is the number of bits of the word less
      the leading zeros of n, less one. */
  ghost function Pow2Floor(n: nat): (r: nat)
    requires n >= 1
    ensures IsPow2(r) && r <= n < 2 * r
  {
    FloorExists(n);
    var r: nat :| IsPow2(r) && r <= n < 2 * r;
    r
  }

  /** The split point as the code computes it, with an exponent one less than that. */
  ghost function CodeSplit(n: nat): (c: nat)
    requires n >= 2
    ensures IsPow2(c) && 2 * c <= n < 4 * c
  {
    Pow2Floor(n) / 2
  }

  ghost function BuildInner(l: seq<Digest>, m: nat, known: bool): seq<Digest>
    requires 1 <= m <= |l|
    decreases |l|
  {
    if m == |l| then (if known then [] else [Root(l)])
    else
      var c := CodeSplit(|l|);
      if m <= c then BuildInner(l[..c], m, known) + [Root(l[c..])]
      else BuildInner(l[c..], m - c, false) + [Root(l[..c])]
  }

  ghost function BuildConsistency(l: seq<Digest>, m: nat): Option<ConsistencyProof> {
    if m == 0 || m > |l| then None
    else if m == |l| then Some(ConsistencyProof(m, |l|, []))
    else Some(ConsistencyProof(m, |l|, BuildInner(l, m, true)))
  }

  lemma Pow2Between(n: nat, c: nat)
    requires IsPow2(c) && 2 * c <= n < 4 * c
    ensures IsPow2(2 * c) && (IsPow2(n) <==> n == 2 * c)
  {
    assert 2 * c / 2 == c;
    if IsPow2(n) && 2 * c < n {
      Pow2Gap(2 * c, n);
    }
  }

  /** The code's split point is the right one exactly for powers of two. */
  lemma CodeSplitExact(n: nat)
    requires n >= 2
    ensures CodeSplit(n) == Split(n) <==> IsPow2(n)
    ensures IsPow2(n) <==> n == 2 * CodeSplit(n)
    ensures !IsPow2(n) ==> Split(n) == 2 * CodeSplit(n)
  {
    var c := CodeSplit(n);
    Pow2Between(n, c);
    SplitUnique(n, if n == 2 * c then c else 2 * c);
  }

  lemma BuildRight(l: seq<Digest>, m: nat, known: bool, c: nat, rest: nat, first: seq<Digest>, right: seq<Digest>)
    requires 1 <= c < m < |l| && c == CodeSplit(|l|) && rest == m - c && first == l[..c] && right == l[c..]
    ensures BuildInner(l, m, known) == BuildInner(right, rest, false) + [Root(first)]
  {
  }

  lemma BuildLeft(l: seq<Digest>, m: nat, known: bool, c: nat, left: seq<Digest>, last: seq<Digest>)
    requires 1 <= m <= c < |l| && c == CodeSplit(|l|) && left == l[..c] && last == l[c..]
    ensures BuildInner(l, m, known) == BuildInner(left, m, known) + [Root(last)]
  {
  }

  lemma SubProofRight(l: seq<Digest>, m: nat, known: bool, k: nat)
    requires 1 <= k < m < |l| && k == Split(|l|)
    ensures SubProof(l, m, known) == SubProof(l[k..], m - k, false) + [Root(l[..k])]
  {
  }

  lemma {:induction false} BuildIsSubProof(l: seq<Digest>, m: nat, known: bool)
    requires 1 <= m <= |l| && IsPow2(|l|)
    ensures BuildInner(l, m, known) == SubProof(l, m, known)
    decreases |l|
  {
    if m < |l| {
      var c := CodeSplit(|l|);
      CodeSplitExact(|l|);
      var left, right := l[..c], l[c..];
      if m <= c {
        BuildLeft(l, m, known, c, left, right);
        SubProofLeft(l, m, known, c);
        BuildIsSubProof(left, m, known);
      } else {
        BuildRight(l, m, known, c, m - c, left, right);
        SubProofRight(l, m, known, c);
        BuildIsSubProof(right, m - c, false);
      }
    }
  }

  function Size(d: Digest): nat {
    match d
    case Leaf(_) => 1
    case Node(a, b) => Size(a) + Size(b)
  }

  lemma {:induction false} RootSize(l: seq<Digest>)
    requires |l| >= 1 && AllLeaves(l)
    ensures Size(Root(l)) == |l|
    decreases |l|
  {
    if |l| > 1 {
      var k := Split(|l|);
      RootSize(l[..k]);
      RootSize(l[k..]);
    }
  }

  lemma PartSizes(l: seq<Digest>, k: nat)
    requires 1 <= k < |l| && AllLeaves(l)
    ensures Size(Root(l[..k])) == k && Size(Root(l[k..])) == |l| - k
  {
    RootSize(l[..k]);
    RootSize(l[k..]);
  }

  /** The sibling that must stand last in a proof for l. */
  ghost function TopSibling(l: seq<Digest>, m: nat): Digest
    requires 1 <= m < |l|
  {
    var k := Split(|l|);
    if m <= k then Root(l[k..]) else Root(l[..k])
  }

  lemma AcceptedEndsWithTopSibling(l: seq<Digest>, m: nat, oldRoot: Digest, proof: seq<Digest>)
    requires 1 <= m < |l|
    requires var r := EvaluateProof(m, |l|, oldRoot, proof); r.Some? && r.value.1 == Root(l)
    ensures proof != [] && proof[|proof| - 1] == TopSibling(l, m)
  {
    var seed, hashes := if IsPow2(m) then oldRoot else proof[0], if IsPow2(m) then proof else proof[1..];
    IterateIsRecurse(m, |l|, seed, hashes);
  }

  // ------------------------------------------------------------ when built proofs are accepted

  /** The last third of the log repeats the first one, and the old size lies in the middle third. */
  ghost predicate Repeats(l: seq<Digest>, m: nat)
    requires |l| >= 2
  {
    var c := CodeSplit(|l|);
    |l| == 3 * c && c < m < 2 * c && l[..c] == l[2 * c..]
  }

  /** Where the code ends a proof, and where a proof must end. */
  lemma LastBuilt(l: seq<Digest>, m: nat, c: nat)
    requires 1 <= m < |l| && c == CodeSplit(|l|)
    ensures var built := BuildInner(l, m, true);
            built != [] && built[|built| - 1] == if m <= c then Root(l[c..]) else Root(l[..c])
  {
  }

  /** The two agree only if the first and the last third of the log do. */
  lemma SamePart(l: seq<Digest>, m: nat, c: nat)
    requires AllLeaves(l) && 1 <= m < |l| && 1 <= c && 2 * c < |l| && Split(|l|) == 2 * c
    requires (if m <= c then Root(l[c..]) else Root(l[..c])) == TopSibling(l, m)
    ensures |l| == 3 * c && c < m <= 2 * c && l[..c] == l[2 * c..]
  {
    PartSizes(l, c);
    PartSizes(l, 2 * c);
    RootInjective(l[..c], l[2 * c..]);
  }

  /** A full old tree needs exactly one hash for a right part. */
  lemma FullOldTree(m: nat, n: nat, oldRoot: Digest, proof: seq<Digest>)
    requires IsPow2(m) && m < n && Split(n) == m && EvaluateProof(m, n, oldRoot, proof).Some?
    ensures |proof| == 1
  {
    IterateIsRecurse(m, n, oldRoot, proof);
  }

  lemma {:induction false} BuiltLength(l: seq<Digest>, m: nat)
    requires 1 <= m <= |l|
    ensures |BuildInner(l, m, false)| >= 1
    decreases |l|
  {
  }

  /** A built proof for a size that is no power of two is accepted only if the log repeats. */
  lemma AcceptedMeansRepeats(l: seq<Digest>, m: nat, oldRoot: Digest)
    requires 1 <= m < |l| && !IsPow2(|l|) && AllLeaves(l)
    requires var r := EvaluateProof(m, |l|, oldRoot, BuildInner(l, m, true)); r.Some? && r.value.1 == Root(l)
    ensures Repeats(l, m)
  {
    var c, built := CodeSplit(|l|), BuildInner(l, m, true);
    CodeSplitExact(|l|);
    AcceptedEndsWithTopSibling(l, m, oldRoot, built);
    LastBuilt(l, m, c);
    SamePart(l, m, c);
    if m == 2 * c {
      Pow2Between(|l|, c);
      FullOldTree(m, |l|, oldRoot, built);
      BuildRight(l, m, true, c, m - c, l[..c], l[c..]);
      BuiltLength(l[c..], m - c);
    }
  }

  lemma SubProofLeft(l: seq<Digest>, m: nat, known: bool, k: nat)
    requires 1 <= m <= k < |l| && k == Split(|l|)
    ensures SubProof(l, m, known) == SubProof(l[..k], m, known) + [Root(l[k..])]
  {
  }

  lemma HalvesBuilt(l: seq<Digest>, m: nat, c: nat, left: seq<Digest>, last: seq<Digest>)
    requires IsPow2(c) && IsPow2(2 * c) && 1 <= m <= c && |l| == 2 * c && left == l[..c] && last == l[c..]
    ensures BuildInner(l, m, false) == SubProof(left, m, false) + [Root(last)]
  {
    SplitUnique(2 * c, c);
    BuildIsSubProof(l, m, false);
    SubProofLeft(l, m, false, c);
  }

  /** l in three parts of length c, the third like the first. */
  ghost predicate Thirds(l: seq<Digest>, c: nat, first: seq<Digest>, middle: seq<Digest>) {
    && c >= 1 && |l| == 3 * c && |first| == |middle| == c
    && l[..c] == first && l[c..][..c] == middle && l[c..][c..] == first
    && l[..2 * c][..c] == first && l[..2 * c][c..] == middle && l[2 * c..] == first
  }

  lemma ThirdsBuilt(l: seq<Digest>, m: nat, c: nat, rest: nat, first: seq<Digest>, middle: seq<Digest>)
    requires Thirds(l, c, first, middle) && c < m < 2 * c && rest == m - c && c == CodeSplit(|l|) && IsPow2(2 * c)
    ensures BuildInner(l, m, true) == SubProof(middle, rest, false) + [Root(first)] + [Root(first)]
  {
    var right := l[c..];
    BuildRight(l, m, true, c, rest, first, right);
    HalvesBuilt(right, rest, c, middle, first);
  }

  lemma ThirdsProved(l: seq<Digest>, m: nat, c: nat, rest: nat, first: seq<Digest>, middle: seq<Digest>)
    requires Thirds(l, c, first, middle) && c < m < 2 * c && rest == m - c && IsPow2(c) && Split(|l|) == 2 * c
    ensures SubProof(l, m, true) == SubProof(middle, rest, false) + [Root(first)] + [Root(first)]
  {
    SplitUnique(2 * c, c);
    SubProofLeft(l, m, true, 2 * c);
    SubProofRight(l[..2 * c], m, true, c);
  }

  lemma RepeatsInThirds(l: seq<Digest>, c: nat)
    requires 1 <= c && |l| == 3 * c && l[..c] == l[2 * c..]
    ensures Thirds(l, c, l[..c], l[c..2 * c])
  {
  }

  /** If it does, the code and RFC 6962 put the same hashes in the same places. */
  lemma RepeatsBuildsSubProof(l: seq<Digest>, m: nat)
    requires 1 <= m < |l| && Repeats(l, m)
    ensures BuildInner(l, m, true) == SubProof(l, m, true)
  {
    var c := CodeSplit(|l|);
    var first, middle := l[..c], l[c..2 * c];
    Pow2Between(|l|, c);
    CodeSplitExact(|l|);
    RepeatsInThirds(l, c);
    ThirdsBuilt(l, m, c, m - c, first, middle);
    ThirdsProved(l, m, c, m - c, first, middle);
  }

  /** The heads of the tree over the first m leaves and over all leaves, at the same epoch. */
  ghost function Head(l: seq<Digest>): TreeHead
    requires |l| >= 1
  {
    TreeHead(0, |l|, Root(l))
  }

  /** For signed heads in order, a proof of the right sizes is judged by its evaluation. */
  lemma HeadsInOrder(signed: TreeHead -> bool, old_: TreeHead, new_: TreeHead, proof: ConsistencyProof)
    requires signed(old_) && signed(new_) && old_.epoch <= new_.epoch && old_.size < new_.size
    requires proof.oldSize == old_.size && proof.newSize == new_.size
    ensures VerifyConsistency(signed, old_, new_, proof).Ok?
            <==> EvaluateProof(old_.size, new_.size, old_.root, proof.hashes) == Some((old_.root, new_.root))
  {
  }

  /** The proof the code builds is accepted for the heads of the two trees. */
  ghost predicate BuiltAccepted(l: seq<Digest>, m: nat)
    requires 1 <= m <= |l|
  {
    VerifyConsistency(_ => true, Head(l[..m]), Head(l), BuildConsistency(l, m).value).Ok?
  }

  /** The proof the code builds is accepted if and only if nothing was appended, the new size is a power
      of two, or the log is three equal parts long, the last part repeats the first and the old size
      lies inside the middle one. */
  lemma BuiltProofExact(l: seq<Digest>, m: nat)
    requires 1 <= m <= |l| && AllLeaves(l)
    ensures BuiltAccepted(l, m) <==> m == |l| || IsPow2(|l|) || Repeats(l, m)
  {
    if m == |l| {
      assert l[..m] == l;
    } else {
      HeadsInOrder(_ => true, Head(l[..m]), Head(l), BuildConsistency(l, m).value);
      if IsPow2(|l|) {
        BuildIsSubProof(l, m, true);
        SubProofVerifies(l, m);
      } else if Repeats(l, m) {
        RepeatsBuildsSubProof(l, m);
        SubProofVerifies(l, m);
      } else if EvaluateProof(m, |l|, Root(l[..m]), BuildInner(l, m, true)) == Some((Root(l[..m]), Root(l))) {
        AcceptedMeansRepeats(l, m, Root(l[..m]));
      }
    }
  }

  predicate Distinct(l: seq<Digest>) {
    forall i, j :: 0 <= i < j < |l| ==> l[i] != l[j]
  }

  lemma ThirdsDiffer(l: seq<Digest>, c: nat)
    requires Distinct(l) && 1 <= c && |l| == 3 * c
    ensures l[..c] != l[2 * c..]
  {
    assert l[..c][0] == l[0] && l[2 * c..][0] == l[2 * c];
  }

  /** In a log of distinct leaf hashes: exactly when nothing was appended or the new size is a power of
      two. */
  lemma DistinctProofExact(l: seq<Digest>, m: nat)
    requires 1 <= m <= |l| && AllLeaves(l) && Distinct(l)
    ensures BuiltAccepted(l, m) <==> m == |l| || IsPow2(|l|)
  {
    BuiltProofExact(l, m);
    if |l| >= 2 && |l| == 3 * CodeSplit(|l|) {
      ThirdsDiffer(l, CodeSplit(|l|));
    }
  }

  /** A log that repeats, at its smallest. */
  lemma SixLeavesAccepted(l: seq<Digest>)
    requires |l| == 6 && AllLeaves(l) && l[0] == l[4] && l[1] == l[5]
    ensures !IsPow2(|l|) && BuiltAccepted(l, 3)
  {
    Pow2Between(4, 2);
    assert CodeSplit(6) == 2 && l[..2] == l[4..];
    BuiltProofExact(l, 3);
  }

  /** For example, the proof built from one leaf to three is refused. */
  lemma ThreeLeavesRefused(l: seq<Digest>)
    requires |l| == 3
    ensures BuildConsistency(l, 1) == Some(ConsistencyProof(1, 3, [Node(l[1], l[2])]))
    ensures EvaluateProof(1, 3, Root(l[..1]), [Node(l[1], l[2])]) == None
  {
    var two, h := l[1..], [Node(l[1], l[2])];
    assert CodeSplit(3) == 1 && Split(3) == 2 && Split(2) == 1;
    assert two[..1] == [l[1]] && two[1..] == [l[2]];
    assert Root(two) == Node(l[1], l[2]);
    assert BuildInner(l[..1], 1, true) == [] && BuildInner(l, 1, true) == [] + [Root(two)] == h;
    IterateIsRecurse(1, 3, l[0], h);
    assert h[..|h| - 1] == [];
    assert Recurse(1, 2, l[0], h[..|h| - 1]) == None;
  }
}
