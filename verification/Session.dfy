/** The receiving chain of a session: which key a message number gets, for every order of arrival. */
module Session {
  import opened Core
  import opened Bytes
  import opened Ratchet

  /** One step of a chain: the message key and the next chain key. */
  type Kdf = Key -> (Key, Key)

  const U32_MAX: nat := 0xFFFF_FFFF

  function ChainAt(kdf: Kdf, root: Key, n: nat): Key {
    if n == 0 then root else kdf(ChainAt(kdf, root, n - 1)).1
  }

  /** The key the sender uses for message n of the chain. */
  function SenderKey(kdf: Kdf, root: Key, n: nat): Key {
    kdf(ChainAt(kdf, root, n)).0
  }

  datatype Receiver = Receiver(pub: PublicKey, chain: Key, next: nat, max: nat, store: seq<Entry>)

  /** One skipped message. */
  function Skip(kdf: Kdf, r: Receiver): Receiver {
    var (key, chain) := kdf(r.chain);
    r.(chain := chain, next := r.next + 1, store := Insert(r.max, r.store, Entry(KeyId(r.pub, r.next), key)))
  }

  function SkipUntil(kdf: Kdf, r: Receiver, n: nat): Receiver
    decreases n - r.next
  {
    if r.next >= n then r else SkipUntil(kdf, Skip(kdf, r), n)
  }

  /** The key for message n of the current chain, and the state after it. The chain has no key for
      the largest counter value. */
  function Receive(kdf: Kdf, r: Receiver, n: nat): (Option<Key>, Receiver) {
    if n < r.next then
      var (key, store) := Take(r.store, KeyId(r.pub, n));
      (key, r.(store := store))
    else
      var s := SkipUntil(kdf, r, n);
      if n == U32_MAX then (None, s)
      else (Some(kdf(s.chain).0), s.(chain := kdf(s.chain).1, next := s.next + 1))
  }

  function Run(kdf: Kdf, r: Receiver, ns: seq<nat>): Receiver {
    if ns == [] then r else Receive(kdf, Run(kdf, r, ns[..|ns| - 1]), ns[|ns| - 1]).1
  }

  /** The header fields the key selection reads. */
  datatype Header = Header(pub: PublicKey, num: u32, prevLen: u32)

  /** The key for any message: a new ratchet key first skips to the end of the old chain and starts
      the chain `start` that the root step yields for it. */
  function Select(kdf: Kdf, r: Receiver, h: Header, start: Key): (Option<Key>, Receiver) {
    var current :=
      if h.pub == r.pub then r else SkipUntil(kdf, r, h.prevLen).(pub := h.pub, chain := start, next := 0);
    Receive(kdf, current, h.num)
  }

  // ------------------------------------------------------------ in place

  class ReceivingSession {
    var pub: PublicKey
    var chainKey: Key
    var nextMsgNum: nat
    const skipped: SkippedMessageKeys

    ghost predicate Valid() reads this, skipped {
      skipped.Valid() && nextMsgNum <= U32_MAX
    }

    ghost function View(): Receiver
      requires Valid()
      reads this, skipped
    {
      Receiver(pub, chainKey, nextMsgNum, skipped.maxEntries, skipped.Entries())
    }

    constructor (remote: PublicKey, chain: Key, maxSkipped: nat)
      ensures Valid() && fresh(skipped)
      ensures View() == Receiver(remote, chain, 0, Clamp(maxSkipped), [])
    {
      pub, chainKey, nextMsgNum := remote, chain, 0;
      skipped := new SkippedMessageKeys(maxSkipped);
    }

    method NextMessageKey(kdf: Kdf) returns (r: Result<Key>)
      requires Valid()
      modifies `chainKey, `nextMsgNum
      ensures Valid() && skipped.Entries() == old(skipped.Entries())
      ensures old(nextMsgNum) == U32_MAX ==> r.Err? && chainKey == old(chainKey) && nextMsgNum == U32_MAX
      ensures old(nextMsgNum) < U32_MAX ==>
                r == Ok(kdf(old(chainKey)).0) && chainKey == kdf(old(chainKey)).1 && nextMsgNum == old(nextMsgNum) + 1
    {
      var (messageKey, nextChainKey) := kdf(chainKey);
      if nextMsgNum == U32_MAX {
        return Err(PolicyViolation("chain exhausted"));
      }
      nextMsgNum := nextMsgNum + 1;
      chainKey := nextChainKey;
      r := Ok(messageKey);
    }

    method SkipTo(kdf: Kdf, n: nat)
      requires Valid() && n <= U32_MAX
      modifies this, skipped
      ensures Valid() && View() == SkipUntil(kdf, old(View()), n)
    {
      while nextMsgNum < n
        invariant Valid() && SkipUntil(kdf, View(), n) == SkipUntil(kdf, old(View()), n)
        decreases n - nextMsgNum
      {
        ghost var before := View();
        var num := nextMsgNum;
        var key := NextMessageKey(kdf);
        skipped.InsertKey(KeyId(pub, num), key.value);
        assert View() == Skip(kdf, before);
      }
    }

    /** The key for message n of the current chain. */
    method CurrentKey(kdf: Kdf, n: u32) returns (key: Option<Key>)
      requires Valid()
      modifies this, skipped
      ensures Valid() && (key, View()) == Receive(kdf, old(View()), n)
    {
      if n < nextMsgNum {
        key := skipped.TakeKey(KeyId(pub, n));
      } else {
        SkipStops(kdf, View(), n);
        SkipTo(kdf, n);
        var next := NextMessageKey(kdf);
        key := if next.Ok? then Some(next.value) else None;
      }
    }

    /** Skips to the end of the old chain and starts the new one. */
    method StartChain(kdf: Kdf, h: Header, freshChain: Key)
      requires Valid()
      modifies this, skipped
      ensures Valid()
      ensures View() == SkipUntil(kdf, old(View()), h.prevLen).(pub := h.pub, chain := freshChain, next := 0)
    {
      SkipTo(kdf, h.prevLen);
      pub, chainKey, nextMsgNum := h.pub, freshChain, 0;
    }

    /** The key selection of decrypt. */
    method MessageKey(kdf: Kdf, h: Header, freshChain: Key) returns (key: Option<Key>)
      requires Valid()
      modifies this, skipped
      ensures Valid() && (key, View()) == Select(kdf, old(View()), h, freshChain)
    {
      if h.pub != pub {
        StartChain(kdf, h, freshChain);
      }
      key := CurrentKey(kdf, h.num);
    }
  }

  lemma {:induction false} SkipStops(kdf: Kdf, r: Receiver, n: nat)
    requires r.next <= n
    ensures SkipUntil(kdf, r, n).next == n
    decreases n - r.next
  {
    if r.next < n {
      SkipStops(kdf, Skip(kdf, r), n);
    }
  }

  // ------------------------------------------------------------ which numbers are outstanding

  /** How many of the numbers from k up to n have not arrived. */
  function Missing(seen: set<nat>, k: nat, n: nat): nat {
    if n <= k then 0 else Missing(seen, k, n - 1) + (if n - 1 in seen then 0 else 1)
  }

  lemma {:induction false} MissingBounds(seen: set<nat>, k: nat, k': nat, n: nat, n': nat)
    requires k <= k' && n' <= n
    ensures Missing(seen, k', n') <= Missing(seen, k, n)
    ensures k <= n ==> Missing(seen, k, n) <= n - k
    decreases n
  {
    if k < n {
      MissingBounds(seen, k, k', n - 1, if n' == n then n - 1 else n');
    }
  }

  lemma {:induction false} MissingArrival(seen: set<nat>, x: nat, k: nat, n: nat)
    requires x !in seen
    ensures Missing(seen, k, n) == Missing(seen + {x}, k, n) + (if k <= x < n then 1 else 0)
    decreases n
  {
    if k < n {
      MissingArrival(seen, x, k, n - 1);
    }
  }

  function Seen(ns: seq<nat>): set<nat> {
    set n | n in ns && n < U32_MAX
  }

  /** At each of the arrivals, at most `max` numbers from k up to the arriving one were outstanding. */
  predicate Spared(ns: seq<nat>, k: nat, max: nat) {
    ns == [] ||
    var before, n := ns[..|ns| - 1], ns[|ns| - 1];
    Spared(before, k, max) && Missing(Seen(before), k, n) <= max
  }

  /** Numbers that no arrival has passed are spared, and later numbers are spared with earlier ones. */
  lemma {:induction false} SparedMore(ns: seq<nat>, k: nat, k': nat, max: nat)
    requires k <= k'
    ensures Spared(ns, k, max) ==> Spared(ns, k', max)
    ensures (forall m :: m in ns ==> m <= k) ==> Spared(ns, k, max)
  {
    if ns != [] {
      var before, n := ns[..|ns| - 1], ns[|ns| - 1];
      SparedMore(before, k, k', max);
      MissingBounds(Seen(before), k, k', n, n);
      assert n in ns && forall m :: m in before ==> m in ns;
    }
  }

  // ------------------------------------------------------------ the store

  /** An entry of the chain is for a number not seen, and as far from the end of the store as there
      are outstanding numbers from its own on. */
  ghost predicate Ranked(q: seq<Entry>, pub: PublicKey, seen: set<nat>, next: nat) {
    forall i :: 0 <= i < |q| && q[i].id.pub == pub ==>
      q[i].id.num < next && q[i].id.num !in seen && |q| - i == Missing(seen, q[i].id.num, next)
  }

  ghost predicate SendersKeys(kdf: Kdf, root: Key, q: seq<Entry>, pub: PublicKey) {
    forall i :: 0 <= i < |q| && q[i].id.pub == pub ==> q[i].key == SenderKey(kdf, root, q[i].id.num)
  }

  ghost predicate Sound(kdf: Kdf, root: Key, r: Receiver, seen: set<nat>) {
    && r.chain == ChainAt(kdf, root, r.next) && |r.store| <= r.max
    && Ranked(r.store, r.pub, seen, r.next) && SendersKeys(kdf, root, r.store, r.pub)
    && forall k :: k in seen ==> k < r.next
  }

  lemma SkipKeeps(kdf: Kdf, root: Key, r: Receiver, seen: set<nat>)
    requires Sound(kdf, root, r, seen)
    ensures Sound(kdf, root, Skip(kdf, r), seen)
  {
    assert !Holds(r.store, KeyId(r.pub, r.next));
  }

  /** A number stays in the store exactly if at most `max` are outstanding from it on. */
  lemma SkipHolds(kdf: Kdf, root: Key, r: Receiver, seen: set<nat>, k: nat)
    requires Sound(kdf, root, r, seen) && k <= r.next && k !in seen
    ensures Holds(Skip(kdf, r).store, KeyId(r.pub, k)) <==>
            (k == r.next || Holds(r.store, KeyId(r.pub, k))) && Missing(seen, k, r.next + 1) <= r.max
  {
    var q, s, id := r.store, Skip(kdf, r).store, KeyId(r.pub, k);
    assert !Holds(q, KeyId(r.pub, r.next));
    if k == r.next {
      assert Missing(seen, k, k) == 0;
      assert r.max > 0 ==> s[|s| - 1].id == id;
    } else if Holds(q, id) {
      var i :| 0 <= i < |q| && q[i].id == id;
      SkipHeld(kdf, root, r, seen, i);
    } else {
      assert !Holds(s, id);
    }
  }

  lemma SkipHeld(kdf: Kdf, root: Key, r: Receiver, seen: set<nat>, i: nat)
    requires Sound(kdf, root, r, seen) && i < |r.store| && r.store[i].id.pub == r.pub
    ensures Holds(Skip(kdf, r).store, r.store[i].id) <==> Missing(seen, r.store[i].id.num, r.next + 1) <= r.max
  {
    var q, s, id := r.store, Skip(kdf, r).store, r.store[i].id;
    assert !Holds(q, KeyId(r.pub, r.next));
    assert Missing(seen, id.num, r.next + 1) == |q| - i + 1;
    if |q| < r.max {
      assert s[i].id == id;
    } else if i > 0 {
      assert s[i - 1].id == id;
    } else {
      assert forall j :: 0 < j < |q| && q[j].id.pub == r.pub ==> |q| - j != |q| - i;
      assert !Holds(s, id);
    }
  }

  lemma {:induction false} SkipUntilKeeps(kdf: Kdf, root: Key, r: Receiver, seen: set<nat>, n: nat)
    requires Sound(kdf, root, r, seen) && r.next <= n
    ensures var s := SkipUntil(kdf, r, n);
            Sound(kdf, root, s, seen) && s.next == n && s.pub == r.pub && s.max == r.max
    decreases n - r.next
  {
    if r.next < n {
      SkipKeeps(kdf, root, r, seen);
      SkipUntilKeeps(kdf, root, Skip(kdf, r), seen, n);
    }
  }

  lemma HeldIsFew(kdf: Kdf, root: Key, r: Receiver, seen: set<nat>, k: nat)
    requires Sound(kdf, root, r, seen) && Holds(r.store, KeyId(r.pub, k))
    ensures Missing(seen, k, r.next) <= r.max && k < r.next && k !in seen
  {
  }

  lemma {:induction false} SkipUntilHolds(kdf: Kdf, root: Key, r: Receiver, seen: set<nat>, n: nat, k: nat)
    requires Sound(kdf, root, r, seen) && r.next <= n && k < n && k !in seen
    ensures Holds(SkipUntil(kdf, r, n).store, KeyId(r.pub, k)) <==>
            (k < r.next ==> Holds(r.store, KeyId(r.pub, k))) && Missing(seen, k, n) <= r.max
    decreases n - r.next
  {
    if r.next == n {
      if Holds(r.store, KeyId(r.pub, k)) { HeldIsFew(kdf, root, r, seen, k); }
    } else {
      SkipKeeps(kdf, root, r, seen);
      SkipUntilHolds(kdf, root, Skip(kdf, r), seen, n, k);
      if k <= r.next {
        SkipHolds(kdf, root, r, seen, k);
        MissingBounds(seen, k, k, n, r.next + 1);
      }
    }
  }

  lemma TakeHolds(q: seq<Entry>, id: KeyId, other: KeyId)
    requires other != id
    ensures Holds(Take(q, id).1, other) <==> Holds(q, other)
  {
    var at, store := Position(q, id), Take(q, id).1;
    if Holds(q, other) {
      var i :| 0 <= i < |q| && q[i].id == other;
      assert store[if i < at || at == |q| then i else i - 1].id == other;
    }
    if Holds(store, other) {
      var i :| 0 <= i < |store| && store[i].id == other;
      assert q[if i < at || at == |q| then i else i + 1].id == other;
    }
  }

  lemma RankedIncreases(q: seq<Entry>, pub: PublicKey, seen: set<nat>, next: nat, i: nat, j: nat)
    requires Ranked(q, pub, seen, next) && i < j < |q| && q[i].id.pub == q[j].id.pub == pub
    ensures q[i].id.num < q[j].id.num
  {
    if q[j].id.num <= q[i].id.num {
      MissingBounds(seen, q[j].id.num, q[i].id.num, next, next);
    }
  }

  /** Taking one entry out keeps the rank of the others. */
  lemma TakeRanked(q: seq<Entry>, pub: PublicKey, seen: set<nat>, next: nat, at: nat, i: nat)
    requires Ranked(q, pub, seen, next) && at < |q| && q[at].id.pub == pub
    requires i < |q| - 1 && (q[..at] + q[at + 1..])[i].id.pub == pub
    ensures var n, k := q[at].id.num, (q[..at] + q[at + 1..])[i].id.num;
            k < next && k !in seen + {n} && |q| - 1 - i == Missing(seen + {n}, k, next)
  {
    var j := if i < at then i else i + 1;
    if i < at {
      RankedIncreases(q, pub, seen, next, j, at);
    } else {
      RankedIncreases(q, pub, seen, next, at, j);
    }
    MissingArrival(seen, q[at].id.num, q[j].id.num, next);
  }

  lemma TakeKeeps(kdf: Kdf, root: Key, r: Receiver, seen: set<nat>, n: nat)
    requires Sound(kdf, root, r, seen) && n < r.next && Holds(r.store, KeyId(r.pub, n))
    ensures Sound(kdf, root, r.(store := Take(r.store, KeyId(r.pub, n)).1), seen + {n})
  {
    var q, at := r.store, Position(r.store, KeyId(r.pub, n));
    var store := q[..at] + q[at + 1..];
    forall i | 0 <= i < |store| && store[i].id.pub == r.pub
      ensures store[i].id.num < r.next && store[i].id.num !in seen + {n}
      ensures |store| - i == Missing(seen + {n}, store[i].id.num, r.next)
    {
      TakeRanked(q, r.pub, seen, r.next, at, i);
    }
  }

  /** A number that arrives without an entry is smaller than every number that has one. */
  lemma AbsentKeeps(kdf: Kdf, root: Key, r: Receiver, seen: set<nat>, n: nat)
    requires Sound(kdf, root, r, seen) && n < r.next && n !in seen
    requires forall k: nat :: Holds(r.store, KeyId(r.pub, k)) ==> n < k
    ensures Sound(kdf, root, r, seen + {n})
  {
    var q := r.store;
    forall i | 0 <= i < |q| && q[i].id.pub == r.pub
      ensures q[i].id.num !in seen + {n} && |q| - i == Missing(seen + {n}, q[i].id.num, r.next)
    {
      assert Holds(q, KeyId(r.pub, q[i].id.num));
      MissingArrival(seen, n, q[i].id.num, r.next);
    }
  }

  lemma AdvanceKeeps(kdf: Kdf, root: Key, r: Receiver, seen: set<nat>)
    requires Sound(kdf, root, r, seen)
    ensures Sound(kdf, root, r.(chain := kdf(r.chain).1, next := r.next + 1), seen + {r.next})
    ensures kdf(r.chain).0 == SenderKey(kdf, root, r.next) && r.next !in seen
  {
    var q, n := r.store, r.next;
    forall i | 0 <= i < |q| && q[i].id.pub == r.pub
      ensures q[i].id.num !in seen + {n} && |q| - i == Missing(seen + {n}, q[i].id.num, n + 1)
    {
      MissingArrival(seen, n, q[i].id.num, n + 1);
    }
  }

  // ------------------------------------------------------------ every order of arrival

  /** After the arrivals ns: the store is sound, and it holds exactly the spared numbers among those
      passed and not arrived. */
  ghost predicate Inv(kdf: Kdf, root: Key, r: Receiver, ns: seq<nat>) {
    && Sound(kdf, root, r, Seen(ns)) && r.next <= U32_MAX
    && (forall m :: m in ns ==> m <= r.next)
    && forall k: nat :: k < r.next && k !in Seen(ns) ==> (Holds(r.store, KeyId(r.pub, k)) <==> Spared(ns, k, r.max))
  }

  lemma SeenNext(ns: seq<nat>, n: nat)
    ensures Seen(ns + [n]) == if n < U32_MAX then Seen(ns) + {n} else Seen(ns)
    ensures (ns + [n])[..|ns|] == ns
  {
  }

  lemma TakeInv(kdf: Kdf, root: Key, r: Receiver, ns: seq<nat>, n: nat)
    requires Inv(kdf, root, r, ns) && n < r.next
    ensures Inv(kdf, root, r.(store := Take(r.store, KeyId(r.pub, n)).1), ns + [n])
  {
    var seen, id := Seen(ns), KeyId(r.pub, n);
    var store := Take(r.store, id).1;
    SeenNext(ns, n);
    if Holds(r.store, id) {
      TakeKeeps(kdf, root, r, seen, n);
    } else if n in seen {
      assert seen + {n} == seen;
    } else {
      forall k: nat | Holds(r.store, KeyId(r.pub, k)) ensures n < k {
        HeldIsFew(kdf, root, r, seen, k);
        if k <= n { SparedMore(ns, k, n, r.max); }
      }
      AbsentKeeps(kdf, root, r, seen, n);
    }
    forall k: nat | k < r.next && k !in seen + {n}
      ensures Holds(store, KeyId(r.pub, k)) <==> Spared(ns + [n], k, r.max)
    {
      TakeHolds(r.store, id, KeyId(r.pub, k));
      if Holds(r.store, KeyId(r.pub, k)) {
        HeldIsFew(kdf, root, r, seen, k);
        MissingBounds(seen, k, k, r.next, n);
      }
    }
  }

  lemma SkipInv(kdf: Kdf, root: Key, r: Receiver, ns: seq<nat>, n: nat)
    requires Inv(kdf, root, r, ns) && r.next <= n
    ensures var s := SkipUntil(kdf, r, n);
            forall k: nat :: k < n && k !in Seen(ns) ==>
              (Holds(s.store, KeyId(r.pub, k)) <==> Spared(ns + [n], k, r.max))
  {
    var s := SkipUntil(kdf, r, n);
    SeenNext(ns, n);
    forall k: nat | k < n && k !in Seen(ns)
      ensures Holds(s.store, KeyId(r.pub, k)) <==> Spared(ns + [n], k, r.max)
    {
      SkipUntilHolds(kdf, root, r, Seen(ns), n, k);
      if r.next <= k { SparedMore(ns, k, k, r.max); }
    }
  }

  lemma AheadInv(kdf: Kdf, root: Key, r: Receiver, ns: seq<nat>, n: nat)
    requires Inv(kdf, root, r, ns) && r.next <= n <= U32_MAX
    ensures var (key, s) := Receive(kdf, r, n);
            && Inv(kdf, root, s, ns + [n]) && s.pub == r.pub && s.max == r.max
            && (n < U32_MAX ==> key == Some(SenderKey(kdf, root, n)) && n !in Seen(ns))
  {
    var s := SkipUntil(kdf, r, n);
    SkipInv(kdf, root, r, ns, n);
    SkipUntilKeeps(kdf, root, r, Seen(ns), n);
    AdvanceKeeps(kdf, root, s, Seen(ns));
    SeenNext(ns, n);
  }

  /** A chain before its first message, in a store that may hold keys of other chains. */
  ghost predicate Fresh(r: Receiver) {
    r.next == 0 && |r.store| <= r.max && forall e :: e in r.store ==> e.id.pub != r.pub
  }

  lemma {:induction false} RunKeeps(kdf: Kdf, r: Receiver, ns: seq<nat>)
    requires Fresh(r) && forall n :: n in ns ==> n <= U32_MAX
    ensures var s := Run(kdf, r, ns); Inv(kdf, r.chain, s, ns) && s.pub == r.pub && s.max == r.max
  {
    if ns != [] {
      var before, n := ns[..|ns| - 1], ns[|ns| - 1];
      assert ns == before + [n];
      assert n in ns && forall m :: m in before ==> m in ns;
      RunKeeps(kdf, r, before);
      var s := Run(kdf, r, before);
      if n < s.next {
        TakeInv(kdf, r.chain, s, before, n);
      } else {
        AheadInv(kdf, r.chain, s, before, n);
      }
    }
  }

  /** After any arrivals in any order, message n gets a key if and only if it has not arrived before
      and at each arrival at most `max` numbers from n on were outstanding; the key is the one the
      sender used. */
  lemma AnyOrderDelivery(kdf: Kdf, r: Receiver, ns: seq<nat>, n: nat)
    requires Fresh(r) && n <= U32_MAX && forall m :: m in ns ==> m <= U32_MAX
    ensures var key := Receive(kdf, Run(kdf, r, ns), n).0;
            && (key.Some? <==> n < U32_MAX && n !in ns && Spared(ns, n, r.max))
            && (key.Some? ==> key.value == SenderKey(kdf, r.chain, n))
  {
    RunKeeps(kdf, r, ns);
    var s := Run(kdf, r, ns);
    if n < s.next {
      if Holds(s.store, KeyId(r.pub, n)) { HeldIsFew(kdf, r.chain, s, Seen(ns), n); }
    } else {
      AheadInv(kdf, r.chain, s, ns, n);
      SparedMore(ns, n, n, r.max);
    }
  }

  /** In particular it gets it when no arrival was more than `max` numbers ahead. */
  lemma {:induction false} WindowIsSpared(ns: seq<nat>, n: nat, max: nat)
    requires forall m :: m in ns ==> m <= n + max
    ensures Spared(ns, n, max)
  {
    if ns != [] {
      var before, m := ns[..|ns| - 1], ns[|ns| - 1];
      assert m in ns && forall x :: x in before ==> x in ns;
      WindowIsSpared(before, n, max);
      MissingBounds(Seen(before), n, n, m, m);
    }
  }

  lemma {:induction false} MissingAll(k: nat, n: nat)
    requires k <= n
    ensures Missing({}, k, n) == n - k
  {
    if k < n { MissingAll(k, n - 1); }
  }

  /** When message t is the first to arrive, an earlier message n can still be opened if and only if
      it is at most `max` behind. */
  lemma WindowIsExact(kdf: Kdf, r: Receiver, t: nat, n: nat)
    requires Fresh(r) && n < t < U32_MAX
    ensures Receive(kdf, Run(kdf, r, [t]), n).0.Some? <==> t <= n + r.max
  {
    AnyOrderDelivery(kdf, r, [t], n);
    assert [t][..0] == [] && Seen([]) == {};
    MissingAll(n, t);
  }

  // ------------------------------------------------------------ messages of other chains

  lemma {:induction false} SkipUntilKey(kdf: Kdf, root: Key, r: Receiver, n: nat)
    requires r.next <= n && r.chain == ChainAt(kdf, root, r.next)
    ensures var s := SkipUntil(kdf, r, n); s.chain == ChainAt(kdf, root, n) && s.pub == r.pub
    decreases n - r.next
  {
    if r.next < n {
      SkipUntilKey(kdf, root, Skip(kdf, r), n);
    }
  }

  /** A message under any other ratchet key, also an earlier one whose keys are in the store, gets a
      key of the chain started for it, and that chain replaces the current one. So a stored key is
      ever used only while its ratchet key is the current one. */
  lemma OtherChainStartsOver(kdf: Kdf, r: Receiver, h: Header, start: Key)
    requires h.pub != r.pub && h.num < U32_MAX
    ensures var (key, s) := Select(kdf, r, h, start);
            && key == Some(SenderKey(kdf, start, h.num))
            && s.pub == h.pub && s.next == h.num + 1 && s.chain == ChainAt(kdf, start, h.num + 1)
  {
    var begun := SkipUntil(kdf, r, h.prevLen).(pub := h.pub, chain := start, next := 0);
    SkipUntilKey(kdf, start, begun, h.num);
    SkipStops(kdf, begun, h.num);
  }

  /** When a new ratchet key arrives with its first message, the store holds of the old chain, among the
      numbers up to its announced length that have not arrived, exactly those that were there or not yet
      reached, as long as at most `max` are outstanding from them on; and it holds the sender's keys. */
  lemma OldChainIsKept(kdf: Kdf, root: Key, r: Receiver, seen: set<nat>, h: Header, start: Key, k: nat)
    requires Sound(kdf, root, r, seen) && h.pub != r.pub && h.num == 0 && r.next <= h.prevLen && k < h.prevLen
    requires k !in seen
    ensures var s := Select(kdf, r, h, start).1;
            && (Holds(s.store, KeyId(r.pub, k)) <==>
                  (k < r.next ==> Holds(r.store, KeyId(r.pub, k))) && Missing(seen, k, h.prevLen) <= r.max)
            && SendersKeys(kdf, root, s.store, r.pub)
  {
    SkipUntilHolds(kdf, root, r, seen, h.prevLen, k);
    SkipUntilKeeps(kdf, root, r, seen, h.prevLen);
  }
}
