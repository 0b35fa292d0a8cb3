/** The bounded store of skipped message keys: a queue of key ids, oldest first, and a table. */
module Ratchet {
  import opened Core
  import opened Bytes

  type Key = seq<byte>
  type PublicKey = seq<byte>

  const MAX_SKIPPED_KEYS_UPPER_BOUND: nat := 2048

  function Clamp(max: nat): nat {
    if max < MAX_SKIPPED_KEYS_UPPER_BOUND then max else MAX_SKIPPED_KEYS_UPPER_BOUND
  }

  datatype KeyId = KeyId(pub: PublicKey, num: nat)

  datatype Entry = Entry(id: KeyId, key: Key)

  // ------------------------------------------------------------ the store, oldest entry first

  predicate Holds(q: seq<Entry>, id: KeyId) {
    exists i :: 0 <= i < |q| && q[i].id == id
  }

  function Insert(max: nat, q: seq<Entry>, e: Entry): seq<Entry> {
    if max == 0 || Holds(q, e.id) then q
    else (if |q| >= max then q[1..] else q) + [e]
  }

  function Position(q: seq<Entry>, id: KeyId): (i: nat)
    ensures i <= |q| && (i < |q| ==> q[i].id == id)
    ensures i == |q| <==> !Holds(q, id)
  {
    if q == [] then 0
    else if q[0].id == id then 0
    else
      assert Holds(q, id) ==> Holds(q[1..], id) by {
        if Holds(q, id) { var k :| 0 <= k < |q| && q[k].id == id; assert q[1..][k - 1].id == id; }
      }
      assert forall k :: 0 <= k < |q| - 1 ==> q[1..][k] == q[k + 1];
      1 + Position(q[1..], id)
  }

  function Take(q: seq<Entry>, id: KeyId): (Option<Key>, seq<Entry>) {
    var i := Position(q, id);
    if i == |q| then (None, q) else (Some(q[i].key), q[..i] + q[i + 1..])
  }

  predicate DistinctIds(q: seq<Entry>) {
    forall i, j :: 0 <= i < j < |q| ==> q[i].id != q[j].id
  }

  function InsertAll(max: nat, q: seq<Entry>): seq<Entry> {
    if q == [] then [] else Insert(max, InsertAll(max, q[..|q| - 1]), q[|q| - 1])
  }

  /** A store rebuilt from its own entries is the same store. */
  lemma {:induction false} RestoreKeepsEntries(max: nat, q: seq<Entry>)
    requires DistinctIds(q) && |q| <= max
    ensures InsertAll(max, q) == q
  {
    if q != [] {
      RestoreKeepsEntries(max, q[..|q| - 1]);
      assert q == q[..|q| - 1] + [q[|q| - 1]];
    }
  }

  /** The queue and the table of the store agree. */
  ghost predicate Agree(order: seq<KeyId>, keys: map<KeyId, Key>) {
    && (forall i, j :: 0 <= i < j < |order| ==> order[i] != order[j])
    && (forall id :: id in keys <==> id in order)
  }

  ghost function Listing(order: seq<KeyId>, keys: map<KeyId, Key>): (q: seq<Entry>)
    requires Agree(order, keys)
    ensures |q| == |order| && DistinctIds(q)
  {
    seq(|order|, i requires 0 <= i < |order| => Entry(order[i], keys[order[i]]))
  }

  lemma ListingHolds(order: seq<KeyId>, keys: map<KeyId, Key>, id: KeyId)
    requires Agree(order, keys)
    ensures Holds(Listing(order, keys), id) <==> id in keys
  {
    var q := Listing(order, keys);
    if id in keys {
      var i :| 0 <= i < |order| && order[i] == id;
      assert q[i].id == id;
    }
  }

  lemma ListingPop(order: seq<KeyId>, keys: map<KeyId, Key>)
    requires Agree(order, keys) && order != []
    ensures Agree(order[1..], keys - {order[0]}) && Listing(order[1..], keys - {order[0]}) == Listing(order, keys)[1..]
  {
  }

  lemma ListingPush(order: seq<KeyId>, keys: map<KeyId, Key>, id: KeyId, key: Key)
    requires Agree(order, keys) && id !in keys
    ensures Agree(order + [id], keys[id := key])
            && Listing(order + [id], keys[id := key]) == Listing(order, keys) + [Entry(id, key)]
  {
  }

  lemma ListingRemove(order: seq<KeyId>, keys: map<KeyId, Key>, i: nat)
    requires Agree(order, keys) && i < |order|
    ensures var o, k := order[..i] + order[i + 1..], keys - {order[i]};
            Agree(o, k) && Listing(o, k) == Listing(order, keys)[..i] + Listing(order, keys)[i + 1..]
  {
    var o, k := order[..i] + order[i + 1..], keys - {order[i]};
    forall id ensures id in k <==> id in o {
      if id in k {
        var j :| 0 <= j < |order| && order[j] == id;
        assert o[if j < i then j else j - 1] == id;
      }
    }
  }

  class SkippedMessageKeys {
    const maxEntries: nat
    var order: seq<KeyId>
    var keys: map<KeyId, Key>

    ghost predicate Valid() reads this {
      |order| <= maxEntries <= MAX_SKIPPED_KEYS_UPPER_BOUND && Agree(order, keys)
    }

    ghost function Entries(): (q: seq<Entry>)
      requires Valid()
      reads this
    {
      Listing(order, keys)
    }

    constructor (max: nat)
      ensures Valid() && Entries() == [] && maxEntries == Clamp(max)
    {
      maxEntries := Clamp(max);
      order, keys := [], map[];
    }

    /** Rebuilds the store of a session snapshot. */
    constructor Restore(max: nat, entries: seq<Entry>)
      ensures Valid() && maxEntries == Clamp(max)
      ensures Entries() == InsertAll(maxEntries, entries)
    {
      maxEntries := Clamp(max);
      order, keys := [], map[];
      new;
      for i := 0 to |entries|
        invariant Valid() && Entries() == InsertAll(maxEntries, entries[..i])
      {
        assert entries[..i + 1][..i] == entries[..i];
        InsertKey(entries[i].id, entries[i].key);
      }
      assert entries[..|entries|] == entries;
    }

    method InsertKey(id: KeyId, key: Key)
      requires Valid()
      modifies this
      ensures Valid() && Entries() == Insert(maxEntries, old(Entries()), Entry(id, key))
    {
      ListingHolds(order, keys, id);
      if maxEntries == 0 {
        return;
      }
      if id in keys {
        return;
      }
      if |order| >= maxEntries {
        ListingPop(order, keys);
        var evicted := order[0];
        order, keys := order[1..], keys - {evicted};
      }
      ListingPush(order, keys, id, key);
      order, keys := order + [id], keys[id := key];
    }

    method TakeKey(id: KeyId) returns (key: Option<Key>)
      requires Valid()
      modifies this
      ensures Valid() && (key, Entries()) == Take(old(Entries()), id)
    {
      ghost var at := Position(Entries(), id);
      ListingHolds(order, keys, id);
      var i := 0;
      while i < |order| && order[i] != id
        invariant 0 <= i <= at
      {
        i := i + 1;
      }
      key := if id in keys then Some(keys[id]) else None;
      if i < |order| {
        ListingRemove(order, keys, i);
        order := order[..i] + order[i + 1..];
      }
      keys := keys - {id};
      assert id !in old(keys) ==> keys == old(keys);
    }
  }
}
