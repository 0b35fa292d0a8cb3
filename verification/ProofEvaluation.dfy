/** Evaluating a consistency proof: the loop driven by the bits of the two sizes, and the recursion on
    the tree that it computes. */
module ProofEvaluation {
  import opened Core
  import opened MerkleTree

  /** Indices and nodes of the evaluation loop. */
  datatype Eval = Eval(first: nat, second: nat, old_: Digest, new_: Digest)

  /** Halves both indices while the first is odd. */
  function SkipOdd(first: nat, second: nat): (nat, nat) {
    if first % 2 == 1 then SkipOdd(first / 2, second / 2) else (first, second)
  }

  /** Halves both indices while the first is even and not zero. */
  function SkipEven(first: nat, second: nat): (nat, nat) {
    if first != 0 && first % 2 == 0 then SkipEven(first / 2, second / 2) else (first, second)
  }

  /** One turn of the loop; None is the error return. */
  function Turn(e: Eval, hash: Digest): Option<Eval> {
    if e.second == 0 then None
    else if e.first % 2 == 1 || e.first == e.second then
      var (f, s) := SkipEven(e.first, e.second);
      Some(Eval(f / 2, s / 2, Node(hash, e.old_), Node(hash, e.new_)))
    else Some(Eval(e.first / 2, e.second / 2, e.old_, Node(e.new_, hash)))
  }

  function Turns(e: Eval, hashes: seq<Digest>): Option<Eval> {
    if hashes == [] then Some(e)
    else
      match Turns(e, hashes[..|hashes| - 1])
      case None => None
      case Some(e') => Turn(e', hashes[|hashes| - 1])
  }

  function Started(m: nat, n: nat, seed: Digest): Eval
    requires 1 <= m && 1 <= n
  {
    var (f, s) := SkipOdd(m - 1, n - 1);
    Eval(f, s, seed, seed)
  }

  function Finished(e: Option<Eval>): Option<(Digest, Digest)> {
    if e.Some? && e.value.second == 0 then Some((e.value.old_, e.value.new_)) else None
  }

  /** The whole loop from a seed node, over the remaining hashes. */
  function Iterate(m: nat, n: nat, seed: Digest, hashes: seq<Digest>): Option<(Digest, Digest)>
    requires 1 <= m && 1 <= n
  {
    Finished(Turns(Started(m, n, seed), hashes))
  }

  function EvaluateProof(m: nat, n: nat, oldRoot: Digest, proof: seq<Digest>): Option<(Digest, Digest)> {
    if m == 0 || m >= n || proof == [] then None
    else if IsPow2(m) then Iterate(m, n, oldRoot, proof)
    else Iterate(m, n, proof[0], proof[1..])
  }

  method SkipOddLoop(first: nat, second: nat) returns (fn: nat, sn: nat)
    ensures (fn, sn) == SkipOdd(first, second)
  {
    fn, sn := first, second;
    while fn % 2 == 1
      invariant SkipOdd(fn, sn) == SkipOdd(first, second)
      decreases fn
    {
      fn, sn := fn / 2, sn / 2;
    }
  }

  method TurnLoop(e: Eval, hash: Digest) returns (r: Option<Eval>)
    ensures r == Turn(e, hash)
  {
    var fn, sn, oldNode, newNode := e.first, e.second, e.old_, e.new_;
    if sn == 0 {
      return None;
    }
    if fn % 2 == 1 || fn == sn {
      oldNode := Node(hash, oldNode);
      newNode := Node(hash, newNode);
      while fn != 0 && fn % 2 == 0
        invariant SkipEven(fn, sn) == SkipEven(e.first, e.second)
        decreases fn
      {
        fn, sn := fn / 2, sn / 2;
      }
    } else {
      newNode := Node(newNode, hash);
    }
    fn, sn := fn / 2, sn / 2;
    r := Some(Eval(fn, sn, oldNode, newNode));
  }

  method EvaluateProofLoop(m: nat, n: nat, oldRoot: Digest, proof: seq<Digest>) returns (r: Option<(Digest, Digest)>)
    ensures r == EvaluateProof(m, n, oldRoot, proof)
  {
    if m == 0 || m >= n || proof == [] {
      return None;
    }
    var fn, sn := SkipOddLoop(m - 1, n - 1);
    var seed, rest := oldRoot, proof;
    if !IsPow2(m) {
      seed, rest := proof[0], proof[1..];
    }
    var e := Eval(fn, sn, seed, seed);
    var index := 0;
    while index < |rest|
      invariant 0 <= index <= |rest| && Turns(Started(m, n, seed), rest[..index]) == Some(e)
    {
      assert rest[..index + 1][..index] == rest[..index];
      var next := TurnLoop(e, rest[index]);
      index := index + 1;
      if next.None? {
        TurnsStop(Started(m, n, seed), rest, index);
        return None;
      }
      e := next.value;
    }
    assert rest[..index] == rest;
    r := if e.second != 0 then None else Some((e.old_, e.new_));
  }

  /** Once the loop has returned an error, more hashes do not change that. */
  lemma {:induction false} TurnsStop(e: Eval, hashes: seq<Digest>, i: nat)
    requires i <= |hashes| && Turns(e, hashes[..i]) == None
    ensures Turns(e, hashes) == None
    decreases |hashes|
  {
    if i < |hashes| {
      assert hashes[..|hashes| - 1][..i] == hashes[..i];
      TurnsStop(e, hashes[..|hashes| - 1], i);
    } else {
      assert hashes[..i] == hashes;
    }
  }

  // ------------------------------------------------------------ the same by recursion on the tree

  /** What the proof means, from the top of the tree down: the last hash is the sibling at the top. */
  ghost function Recurse(m: nat, n: nat, seed: Digest, hashes: seq<Digest>): Option<(Digest, Digest)>
    requires 1 <= m <= n
    decreases n
  {
    if m == n then
      if hashes == [] then Some((seed, seed)) else None
    else if hashes == [] then None
    else
      var k, last, before := Split(n), hashes[|hashes| - 1], hashes[..|hashes| - 1];
      if m <= k then
        match Recurse(m, k, seed, before)
        case None => None
        case Some((o, w)) => Some((o, Node(w, last)))
      else
        match Recurse(m - k, n - k, seed, before)
        case None => None
        case Some((o, w)) => Some((Node(last, o), Node(last, w)))
  }

  // -- left: the old tree lies in the left part of size p; the loop for (m, p) is the loop for
  //    (m, n) with another second index.

  ghost predicate LeftOf(a: Eval, b: Eval, p: nat) {
    && IsPow2(p) && a.first == b.first < p && b.second == p - 1 && p <= a.second < 2 * p
    && a.old_ == b.old_ && a.new_ == b.new_
  }

  lemma LeftTurn(a: Eval, b: Eval, p: nat, hash: Digest)
    requires LeftOf(a, b, p) && p > 1
    ensures Turn(a, hash).Some? && Turn(b, hash).Some? && LeftOf(Turn(a, hash).value, Turn(b, hash).value, p / 2)
  {
  }

  /** How the two loops stand after the same hashes: side by side, or the part is used up. */
  ghost predicate LeftRelated(a: Option<Eval>, b: Option<Eval>) {
    match b
    case Some(y) => a.Some? && exists p :: LeftOf(a.value, y, p)
    case None => a.None? || a.value.second == 0
  }

  lemma {:induction false} LeftTurns(a: Eval, b: Eval, p: nat, hashes: seq<Digest>)
    requires LeftOf(a, b, p)
    ensures LeftRelated(Turns(a, hashes), Turns(b, hashes))
  {
    if hashes != [] {
      var before, hash := hashes[..|hashes| - 1], hashes[|hashes| - 1];
      LeftTurns(a, b, p, before);
      if Turns(b, before).Some? {
        var x, y := Turns(a, before).value, Turns(b, before).value;
        var q :| LeftOf(x, y, q);
        if q > 1 {
          LeftTurn(x, y, q, hash);
        }
      }
    }
  }

  /** The last hash finishes the outer loop exactly when the inner one was finished. */
  lemma LeftLast(a: Option<Eval>, b: Option<Eval>, hash: Digest)
    requires LeftRelated(a, b)
    ensures Finished(match a case None => None case Some(x) => Turn(x, hash)) ==
            match Finished(b)
            case None => None
            case Some((o, w)) => Some((o, Node(w, hash)))
  {
  }

  lemma {:induction false} LeftSkip(f: nat, s: nat, p: nat) returns (q: nat)
    requires IsPow2(p) && f < p <= s < 2 * p
    ensures var (f1, s1) := SkipOdd(f, s); var (f2, s2) := SkipOdd(f, p - 1);
            f1 == f2 && IsPow2(q) && f1 < q <= s1 < 2 * q && s2 == q - 1
  {
    if f % 2 == 1 {
      q := LeftSkip(f / 2, s / 2, p / 2);
    } else {
      q := p;
    }
  }

  // -- right: the left part of size q is common; both indices carry the bit q.

  ghost predicate RightOf(a: Eval, b: Eval, q: nat) {
    && IsPow2(q) && a.first == q + b.first && a.second == q + b.second && b.first <= b.second < q
    && a.old_ == b.old_ && a.new_ == b.new_
  }

  lemma {:induction false} RightSkipEven(f: nat, s: nat, q: nat) returns (r: nat)
    requires IsPow2(q) && 1 <= f <= s < q
    ensures var (f1, s1) := SkipEven(q + f, q + s); var (f2, s2) := SkipEven(f, s);
            IsPow2(r) && r > 1 && f1 == r + f2 && s1 == r + s2 && 1 <= f2 <= s2 < r
    decreases q
  {
    if f % 2 == 0 {
      r := RightSkipEven(f / 2, s / 2, q / 2);
      assert (q + f) / 2 == q / 2 + f / 2 && (q + s) / 2 == q / 2 + s / 2;
    } else {
      r := q;
    }
  }

  lemma {:induction false} SkipEvenPow2(q: nat)
    requires IsPow2(q)
    ensures SkipEven(q, q) == (1, 1)
  {
    if q > 1 {
      SkipEvenPow2(q / 2);
    }
  }

  lemma RightTurn(a: Eval, b: Eval, q: nat, hash: Digest) returns (r: nat)
    requires RightOf(a, b, q) && b.second > 0
    ensures Turn(a, hash).Some? && Turn(b, hash).Some? && RightOf(Turn(a, hash).value, Turn(b, hash).value, r)
  {
    assert q % 2 == 0;
    if b.first % 2 == 0 && b.first == b.second {
      r := RightSkipEven(b.first, b.second, q);
      var (f1, s1) := SkipEven(a.first, a.second);
      var (f2, s2) := SkipEven(b.first, b.second);
      assert f1 / 2 == r / 2 + f2 / 2 && s1 / 2 == r / 2 + s2 / 2;
      r := r / 2;
    } else {
      assert a.first / 2 == q / 2 + b.first / 2 && a.second / 2 == q / 2 + b.second / 2;
      r := q / 2;
    }
  }

  ghost predicate RightRelated(a: Option<Eval>, b: Option<Eval>) {
    match b
    case Some(y) => a.Some? && exists q :: RightOf(a.value, y, q)
    case None => a.None? || a.value.second == 0
  }

  lemma {:induction false} RightTurns(a: Eval, b: Eval, q: nat, hashes: seq<Digest>)
    requires RightOf(a, b, q)
    ensures RightRelated(Turns(a, hashes), Turns(b, hashes))
  {
    if hashes != [] {
      var before, hash := hashes[..|hashes| - 1], hashes[|hashes| - 1];
      RightTurns(a, b, q, before);
      if Turns(b, before).Some? {
        var x, y := Turns(a, before).value, Turns(b, before).value;
        var p :| RightOf(x, y, p);
        if y.second > 0 {
          var r := RightTurn(x, y, p, hash);
        } else {
          SkipEvenPow2(p);
        }
      }
    }
  }

  lemma RightLast(a: Option<Eval>, b: Option<Eval>, hash: Digest)
    requires RightRelated(a, b)
    ensures Finished(match a case None => None case Some(x) => Turn(x, hash)) ==
            match Finished(b)
            case None => None
            case Some((o, w)) => Some((Node(hash, o), Node(hash, w)))
  {
    if b.Some? {
      var q :| RightOf(a.value, b.value, q);
      if b.value.second > 0 {
        var r := RightTurn(a.value, b.value, q, hash);
      } else {
        SkipEvenPow2(q);
      }
    }
  }

  lemma {:induction false} RightSkip(f: nat, s: nat, q: nat) returns (r: nat)
    requires IsPow2(q) && f < s < q
    ensures var (f1, s1) := SkipOdd(q + f, q + s); var (f2, s2) := SkipOdd(f, s);
            IsPow2(r) && f1 == r + f2 && s1 == r + s2 && f2 <= s2 < r
    decreases q
  {
    assert q % 2 == 0;
    if f % 2 == 1 {
      r := RightSkip(f / 2, s / 2, q / 2);
      assert (q + f) / 2 == q / 2 + f / 2 && (q + s) / 2 == q / 2 + s / 2;
    } else {
      r := q;
    }
  }

  // -- base: a full subtree is its own seed.

  lemma {:induction false} SkipOddFull(m: nat)
    requires IsPow2(m)
    ensures SkipOdd(m - 1, m - 1) == (0, 0)
  {
    if m > 1 {
      SkipOddFull(m / 2);
      assert (m - 1) / 2 == m / 2 - 1;
    }
  }

  lemma FullSubtree(m: nat, seed: Digest, hashes: seq<Digest>)
    requires IsPow2(m)
    ensures Iterate(m, m, seed, hashes) == Recurse(m, m, seed, hashes)
  {
    SkipOddFull(m);
    if hashes != [] {
      assert hashes[..1] == [hashes[0]] && hashes[..1][..0] == [];
      TurnsStop(Started(m, m, seed), hashes, 1);
    }
  }

  lemma StartedLeft(m: nat, n: nat, seed: Digest) returns (q: nat)
    requires 1 <= m < n && m <= Split(n)
    ensures LeftOf(Started(m, n, seed), Started(m, Split(n), seed), q)
  {
    q := LeftSkip(m - 1, n - 1, Split(n));
  }

  lemma StartedRight(m: nat, n: nat, k: nat, seed: Digest) returns (q: nat)
    requires IsPow2(k) && k < m < n <= 2 * k
    ensures RightOf(Started(m, n, seed), Started(m - k, n - k, seed), q)
  {
    var f: nat, s: nat := m - k - 1, n - k - 1;
    q := RightSkip(f, s, k);
    assert k + f == m - 1 && k + s == n - 1;
  }

  lemma LeftStep(m: nat, n: nat, seed: Digest, hashes: seq<Digest>)
    requires 1 <= m < n && m <= Split(n) && hashes != []
    ensures Iterate(m, n, seed, hashes) ==
            match Iterate(m, Split(n), seed, hashes[..|hashes| - 1])
            case None => None
            case Some((o, w)) => Some((o, Node(w, hashes[|hashes| - 1])))
  {
    var a, b, before := Started(m, n, seed), Started(m, Split(n), seed), hashes[..|hashes| - 1];
    var q := StartedLeft(m, n, seed);
    LeftTurns(a, b, q, before);
    LeftLast(Turns(a, before), Turns(b, before), hashes[|hashes| - 1]);
  }

  lemma RightStep(m: nat, n: nat, seed: Digest, hashes: seq<Digest>)
    requires 1 <= m < n && m > Split(n) && hashes != []
    ensures Iterate(m, n, seed, hashes) ==
            match Iterate(m - Split(n), n - Split(n), seed, hashes[..|hashes| - 1])
            case None => None
            case Some((o, w)) => Some((Node(hashes[|hashes| - 1], o), Node(hashes[|hashes| - 1], w)))
  {
    var k := Split(n);
    var a, b, before := Started(m, n, seed), Started(m - k, n - k, seed), hashes[..|hashes| - 1];
    var q := StartedRight(m, n, k, seed);
    RightTurns(a, b, q, before);
    RightLast(Turns(a, before), Turns(b, before), hashes[|hashes| - 1]);
  }

  lemma NoHashesNotFinished(m: nat, n: nat, seed: Digest)
    requires 1 <= m < n
    ensures Iterate(m, n, seed, []) == None
  {
    if m <= Split(n) {
      var q := StartedLeft(m, n, seed);
    } else {
      var q := StartedRight(m, n, Split(n), seed);
    }
  }

  /** The bit-driven loop computes what the recursion on the tree describes. */
  lemma {:induction false} IterateIsRecurse(m: nat, n: nat, seed: Digest, hashes: seq<Digest>)
    requires 1 <= m <= n && (m < n || IsPow2(m))
    ensures Iterate(m, n, seed, hashes) == Recurse(m, n, seed, hashes)
    decreases n
  {
    if m == n {
      FullSubtree(m, seed, hashes);
    } else if hashes == [] {
      NoHashesNotFinished(m, n, seed);
    } else if m <= Split(n) {
      LeftStep(m, n, seed, hashes);
      IterateIsRecurse(m, Split(n), seed, hashes[..|hashes| - 1]);
    } else {
      RightStep(m, n, seed, hashes);
      IterateIsRecurse(m - Split(n), n - Split(n), seed, hashes[..|hashes| - 1]);
    }
  }
}
