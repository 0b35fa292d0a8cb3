/** The inbox replay guard: per sender the last message id and the recently seen blob hashes,
    updated item by item while the inbox is polled. */
module ReplayGuard {
  import opened Core
  import opened Text
  import opened Expiring

  const TTL_SECONDS: int := 86_400
  const MAX_SEEN: nat := 512

  datatype Seen = Seen(hash: Str, expiresAt: int)

  datatype PeerGuard = PeerGuard(lastId: int, seen: seq<Seen>)

  datatype Item = Item(messageId: int, sender: Str, hash: Str)

  /** An inbox item together with the clock reading of the poll that fetched it. */
  datatype Event = Event(item: Item, now: int)

  type Guard = map<Str, PeerGuard>

  // ------------------------------------------------------------ one item

  function Peer(g: Guard, sender: Str): PeerGuard {
    if sender in g then g[sender] else PeerGuard(0, [])
  }

  function ExpiresAfter(now: int): Seen -> bool {
    (x: Seen) => x.expiresAt > now
  }

  function Retain(seen: seq<Seen>, now: int): seq<Seen> {
    Live(seen, ExpiresAfter(now))
  }

  predicate HasHash(seen: seq<Seen>, hash: Str) {
    exists i :: 0 <= i < |seen| && seen[i].hash == hash
  }

  function Cap(seen: seq<Seen>): seq<Seen> {
    LastN(seen, MAX_SEEN)
  }

  /** Whether the item gets past the guard. */
  predicate Accepts(p: PeerGuard, e: Event) {
    e.item.messageId > p.lastId && !HasHash(Retain(p.seen, e.now), e.item.hash)
  }

  function NextPeer(p: PeerGuard, e: Event): PeerGuard {
    var live := Retain(p.seen, e.now);
    if e.item.messageId <= p.lastId then PeerGuard(p.lastId, live)
    else if HasHash(live, e.item.hash) then PeerGuard(Max(p.lastId, e.item.messageId), live)
    else PeerGuard(Max(p.lastId, e.item.messageId), Cap(live + [Seen(e.item.hash, e.now + TTL_SECONDS)]))
  }

  function Next(g: Guard, e: Event): Guard {
    g[e.item.sender := NextPeer(Peer(g, e.item.sender), e)]
  }

  // ------------------------------------------------------------ whole runs of saved polls

  /** The guard after the events, in order; a saved poll hands its guard to the next. */
  function Run(g: Guard, es: seq<Event>): Guard {
    if es == [] then g else Next(Run(g, es[..|es| - 1]), es[|es| - 1])
  }

  /** The guard of one sender before event n: only the sender's own events change it. */
  function PeerAt(g: Guard, es: seq<Event>, sender: Str, n: nat): PeerGuard
    requires n <= |es|
  {
    if n == 0 then Peer(g, sender)
    else if es[n - 1].item.sender == sender then NextPeer(PeerAt(g, es, sender, n - 1), es[n - 1])
    else PeerAt(g, es, sender, n - 1)
  }

  lemma {:induction false} PeerOfRun(g: Guard, es: seq<Event>, sender: Str, n: nat)
    requires n <= |es|
    ensures Peer(Run(g, es[..n]), sender) == PeerAt(g, es, sender, n)
  {
    if n == 0 {
      assert es[..0] == [];
    } else {
      assert es[..n][..n - 1] == es[..n - 1];
      PeerOfRun(g, es, sender, n - 1);
    }
  }

  /** Event i gets past the guard and is processed. */
  predicate Processed(g: Guard, es: seq<Event>, i: nat)
    requires i < |es|
  {
    Accepts(PeerAt(g, es, es[i].item.sender, i), es[i])
  }

  /** How many events of the sender are processed at positions lo..hi. */
  function ProcessedBetween(g: Guard, es: seq<Event>, sender: Str, lo: nat, hi: nat): nat
    requires lo <= hi <= |es|
    decreases hi
  {
    if lo == hi then 0
    else
      ProcessedBetween(g, es, sender, lo, hi - 1)
      + if es[hi - 1].item.sender == sender && Processed(g, es, hi - 1) then 1 else 0
  }

  function At(items: seq<Item>, now: int): (es: seq<Event>)
    ensures |es| == |items| && forall i :: 0 <= i < |items| ==> es[i] == Event(items[i], now)
  {
    seq(|items|, i requires 0 <= i < |items| => Event(items[i], now))
  }

  // ------------------------------------------------------------ the polling loop

  /** A fetched inbox: whether each item's bytes can be read, and whether handling it, if it gets past
      the guard, ends without an error. */
  datatype Inbox = Inbox(items: seq<Item>, now: int, readable: nat -> bool, handled: nat -> bool)

  /** None of the first n items ends the poll early. */
  predicate HandledUpTo(g: Guard, inbox: Inbox, n: nat)
    requires n <= |inbox.items|
  {
    forall k :: 0 <= k < n ==>
      inbox.readable(k) && (Processed(g, At(inbox.items, inbox.now), k) ==> inbox.handled(k))
  }

  /** No item ends the poll early, so the guard is saved. */
  predicate Completes(g: Guard, inbox: Inbox) {
    HandledUpTo(g, inbox, |inbox.items|)
  }

  /** The saved cursor and guard. */
  class InboxState {
    var cursor: int
    var peers: Guard

    constructor ()
      ensures cursor == 0 && peers == map[]
    {
      cursor, peers := 0, map[];
    }

    /** Runs the guard over a fetched inbox; an error ends the poll and leaves the saved state alone. */
    method Poll(inbox: Inbox) returns (saved: bool)
      modifies this
      ensures saved <==> Completes(old(peers), inbox)
      ensures !saved ==> peers == old(peers) && cursor == old(cursor)
      ensures saved ==> peers == Run(old(peers), At(inbox.items, inbox.now))
      ensures saved ==> cursor == Furthest(old(cursor), inbox.items)
    {
      var items, now := inbox.items, inbox.now;
      ghost var es := At(items, now);
      var guard, position := peers, cursor;
      for k := 0 to |items|
        invariant peers == old(peers) && cursor == old(cursor)
        invariant guard == Run(peers, es[..k]) && position == Furthest(cursor, items[..k])
        invariant HandledUpTo(peers, inbox, k)
      {
        OneMoreItem(peers, cursor, items, now, k);
        if !inbox.readable(k) {
          return false;
        }
        var processed;
        guard, processed := PollItem(guard, items[k], now);
        if processed && !inbox.handled(k) {
          return false;
        }
        position := Max(position, items[k].messageId);
      }
      assert es[..|items|] == es && items[..|items|] == items;
      peers, cursor := guard, position;
      saved := true;
    }
  }

  lemma OneMoreItem(g: Guard, cursor: int, items: seq<Item>, now: int, k: nat)
    requires k < |items|
    ensures var es := At(items, now);
            && Run(g, es[..k + 1]) == Next(Run(g, es[..k]), Event(items[k], now))
            && (Processed(g, es, k) <==> Accepts(Peer(Run(g, es[..k]), items[k].sender), Event(items[k], now)))
            && Furthest(cursor, items[..k + 1]) == Max(Furthest(cursor, items[..k]), items[k].messageId)
  {
    var es := At(items, now);
    assert es[..k + 1][..k] == es[..k] && items[..k + 1][..k] == items[..k];
    PeerOfRun(g, es, items[k].sender, k);
  }

  function Furthest(start: int, items: seq<Item>): int {
    if items == [] then start else Max(Furthest(start, items[..|items| - 1]), items[|items| - 1].messageId)
  }

  method PollItem(peers: Guard, item: Item, now: int) returns (next: Guard, processed: bool)
    ensures next == Next(peers, Event(item, now))
    ensures processed == Accepts(Peer(peers, item.sender), Event(item, now))
  {
    var guard := Peer(peers, item.sender);
    guard := guard.(seen := Retain(guard.seen, now));
    if item.messageId <= guard.lastId {
      return peers[item.sender := guard], false;
    }
    if HasHash(guard.seen, item.hash) {
      return peers[item.sender := guard.(lastId := Max(guard.lastId, item.messageId))], false;
    }
    guard := guard.(lastId := Max(guard.lastId, item.messageId));
    guard := guard.(seen := guard.seen + [Seen(item.hash, now + TTL_SECONDS)]);
    if |guard.seen| > MAX_SEEN {
      var overflow := |guard.seen| - MAX_SEEN;
      guard := guard.(seen := guard.seen[overflow..]);
    }
    next, processed := peers[item.sender := guard], true;
  }

  lemma {:induction false} RunAppend(g: Guard, a: seq<Event>, b: seq<Event>)
    ensures Run(g, a + b) == Run(Run(g, a), b)
    decreases |b|
  {
    if b == [] {
      assert a + b == a;
    } else {
      assert (a + b)[..|a + b| - 1] == a + b[..|b| - 1];
      RunAppend(g, a, b[..|b| - 1]);
    }
  }

  /** The events of those polls that were saved, in order. */
  function SavedEvents(g: Guard, polls: seq<Inbox>): seq<Event> {
    if polls == [] then []
    else
      var before, last := SavedEvents(g, polls[..|polls| - 1]), polls[|polls| - 1];
      if Completes(Run(g, before), last) then before + At(last.items, last.now) else before
  }

  /** Poll after poll: the saved guard is the one of a single run over the events of the saved polls,
      so what holds over every run holds over any number of polls; the others leave no trace. */
  method PollAll(state: InboxState, polls: seq<Inbox>)
    modifies state
    ensures state.peers == Run(old(state.peers), SavedEvents(old(state.peers), polls))
    ensures state.cursor >= old(state.cursor)
  {
    ghost var g := state.peers;
    for k := 0 to |polls|
      invariant state.peers == Run(g, SavedEvents(g, polls[..k])) && state.cursor >= old(state.cursor)
    {
      assert polls[..k + 1][..k] == polls[..k];
      RunAppend(g, SavedEvents(g, polls[..k]), At(polls[k].items, polls[k].now));
      FurthestGrows(state.cursor, polls[k].items);
      var saved := state.Poll(polls[k]);
    }
    assert polls[..|polls|] == polls;
  }

  lemma {:induction false} FurthestGrows(start: int, items: seq<Item>)
    ensures Furthest(start, items) >= start && forall i :: 0 <= i < |items| ==>
            Furthest(start, items) >= items[i].messageId
    ensures Furthest(start, items) == start
            || exists i :: 0 <= i < |items| && Furthest(start, items) == items[i].messageId
  {
    if items != [] {
      FurthestGrows(start, items[..|items| - 1]);
    }
  }

  // ------------------------------------------------------------ message ids

  lemma {:induction false} LastIdCovers(g: Guard, es: seq<Event>, i: nat, n: nat)
    requires i < n <= |es| && Processed(g, es, i)
    ensures PeerAt(g, es, es[i].item.sender, n).lastId >= es[i].item.messageId
    decreases n
  {
    if i < n - 1 {
      LastIdCovers(g, es, i, n - 1);
    }
  }

  /** Over any run of polls, processed ids of one sender strictly increase, so no (sender, id) is
      processed twice. */
  lemma ProcessedIdsIncrease(g: Guard, es: seq<Event>, i: nat, j: nat)
    requires i < j < |es| && es[i].item.sender == es[j].item.sender
    requires Processed(g, es, i) && Processed(g, es, j)
    ensures es[i].item.messageId < es[j].item.messageId
  {
    LastIdCovers(g, es, i, j);
  }

  // ------------------------------------------------------------ blob hashes

  /** x stands in the list with at most d entries after it. */
  ghost predicate Within(seen: seq<Seen>, x: Seen, d: nat) {
    exists p :: 0 <= p < |seen| && seen[p] == x && |seen| - 1 - p <= d
  }

  lemma {:induction false} RetainPlace(seen: seq<Seen>, now: int, p: nat) returns (p': nat)
    requires p < |seen| && seen[p].expiresAt > now
    ensures p' < |Retain(seen, now)| && Retain(seen, now)[p'] == seen[p]
    ensures |Retain(seen, now)| - 1 - p' <= |seen| - 1 - p
    decreases |seen|
  {
    if p == 0 {
      p' := 0;
    } else {
      p' := RetainPlace(seen[1..], now, p - 1);
      if seen[0].expiresAt > now {
        p' := p' + 1;
      }
    }
  }

  lemma RetainWithin(seen: seq<Seen>, now: int, x: Seen, d: nat)
    requires Within(seen, x, d) && x.expiresAt > now
    ensures Within(Retain(seen, now), x, d)
  {
    var p :| 0 <= p < |seen| && seen[p] == x && |seen| - 1 - p <= d;
    var p' := RetainPlace(seen, now, p);
  }

  lemma PushCapWithin(seen: seq<Seen>, y: Seen, x: Seen, d: nat)
    requires Within(seen, x, d) && d + 1 < MAX_SEEN
    ensures Within(Cap(seen + [y]), x, d + 1)
  {
    var p :| 0 <= p < |seen| && seen[p] == x && |seen| - 1 - p <= d;
    CapPlace(seen + [y], p);
  }

  lemma CapPlace(seen: seq<Seen>, p: nat)
    requires p < |seen| && |seen| - 1 - p < MAX_SEEN
    ensures Within(Cap(seen), seen[p], |seen| - 1 - p)
  {
  }

  /** Some event of the sender at positions lo..hi came at or after the time. */
  ghost predicate ClockReached(es: seq<Event>, sender: Str, lo: nat, hi: nat, time: int) {
    exists k :: lo <= k < hi && k < |es| && es[k].item.sender == sender && es[k].now >= time
  }

  /** While the entry of processed event i has not expired and fewer than 512 later blobs of its
      sender were processed, the entry is still in the list. */
  ghost predicate Remembered(g: Guard, es: seq<Event>, i: nat, n: nat)
    requires i < n <= |es|
  {
    var x := Seen(es[i].item.hash, es[i].now + TTL_SECONDS);
    var later := ProcessedBetween(g, es, es[i].item.sender, i + 1, n);
    || ClockReached(es, es[i].item.sender, i + 1, n, x.expiresAt)
    || later >= MAX_SEEN
    || Within(PeerAt(g, es, es[i].item.sender, n).seen, x, later)
  }

  lemma {:induction false} StaysRemembered(g: Guard, es: seq<Event>, i: nat, n: nat)
    requires i < n <= |es| && Processed(g, es, i)
    ensures Remembered(g, es, i, n)
    decreases n
  {
    if n == i + 1 {
      var live := Retain(PeerAt(g, es, es[i].item.sender, i).seen, es[i].now);
      CapPlace(live + [Seen(es[i].item.hash, es[i].now + TTL_SECONDS)], |live|);
    } else {
      StaysRemembered(g, es, i, n - 1);
      RememberedStep(g, es, i, n - 1);
    }
  }

  lemma RememberedStep(g: Guard, es: seq<Event>, i: nat, n: nat)
    requires i < n < |es| && Remembered(g, es, i, n)
    ensures Remembered(g, es, i, n + 1)
  {
    var sender := es[i].item.sender;
    var x := Seen(es[i].item.hash, es[i].now + TTL_SECONDS);
    var later := ProcessedBetween(g, es, sender, i + 1, n);
    if ClockReached(es, sender, i + 1, n, x.expiresAt) {
      var k :| i + 1 <= k < n && k < |es| && es[k].item.sender == sender && es[k].now >= x.expiresAt;
      assert ClockReached(es, sender, i + 1, n + 1, x.expiresAt);
    } else if later < MAX_SEEN && es[n].item.sender == sender {
      if es[n].now >= x.expiresAt {
        assert ClockReached(es, sender, i + 1, n + 1, x.expiresAt);
      } else {
        PeerRemembers(PeerAt(g, es, sender, n), es[n], x, later, PeerAt(g, es, sender, n + 1).seen);
      }
    }
  }

  lemma SeenAfter(p: PeerGuard, e: Event)
    ensures NextPeer(p, e).seen ==
            if Accepts(p, e) then Cap(Retain(p.seen, e.now) + [Seen(e.item.hash, e.now + TTL_SECONDS)])
            else Retain(p.seen, e.now)
  {
  }

  /** One more event of the sender keeps an unexpired entry, one place further from the end if the
      event was processed. */
  lemma PeerRemembers(p: PeerGuard, e: Event, x: Seen, d: nat, after: seq<Seen>)
    requires Within(p.seen, x, d) && x.expiresAt > e.now && after == NextPeer(p, e).seen
    ensures !Accepts(p, e) ==> Within(after, x, d)
    ensures Accepts(p, e) && d + 1 < MAX_SEEN ==> Within(after, x, d + 1)
  {
    SeenAfter(p, e);
    RetainWithin(p.seen, e.now, x, d);
    if Accepts(p, e) && d + 1 < MAX_SEEN {
      PushCapWithin(Retain(p.seen, e.now), Seen(e.item.hash, e.now + TTL_SECONDS), x, d);
    }
  }

  /** A blob is processed twice for a sender only after its entry expired, or after at least 512
      later blobs of that sender were processed. */
  lemma BlobReplayNeedsExpiry(g: Guard, es: seq<Event>, i: nat, j: nat)
    requires i < j < |es| && es[i].item.sender == es[j].item.sender && es[i].item.hash == es[j].item.hash
    requires Processed(g, es, i) && Processed(g, es, j)
    ensures || ClockReached(es, es[i].item.sender, i + 1, j + 1, es[i].now + TTL_SECONDS)
            || ProcessedBetween(g, es, es[i].item.sender, i + 1, j) >= MAX_SEEN
  {
    var sender := es[i].item.sender;
    var x := Seen(es[i].item.hash, es[i].now + TTL_SECONDS);
    var later := ProcessedBetween(g, es, sender, i + 1, j);
    StaysRemembered(g, es, i, j);
    if ClockReached(es, sender, i + 1, j, x.expiresAt) {
      var k :| i + 1 <= k < j && k < |es| && es[k].item.sender == sender && es[k].now >= x.expiresAt;
      assert ClockReached(es, sender, i + 1, j + 1, x.expiresAt);
    } else if later < MAX_SEEN {
      var seen := PeerAt(g, es, sender, j).seen;
      if es[j].now >= x.expiresAt {
        assert ClockReached(es, sender, i + 1, j + 1, x.expiresAt);
      } else {
        RetainWithin(seen, es[j].now, x, later);
        assert false;
      }
    }
  }

  /** The same with a clock that never goes back: the time to live has passed at the second
      processing. */
  lemma BlobReplayAfterTtl(g: Guard, es: seq<Event>, i: nat, j: nat)
    requires i < j < |es| && es[i].item.sender == es[j].item.sender && es[i].item.hash == es[j].item.hash
    requires Processed(g, es, i) && Processed(g, es, j)
    requires ClockForward(es)
    ensures es[j].now >= es[i].now + TTL_SECONDS || ProcessedBetween(g, es, es[i].item.sender, i + 1, j) >= MAX_SEEN
  {
    BlobReplayNeedsExpiry(g, es, i, j);
  }

  // ------------------------------------------------------------ exactly which events are processed

  /** The last id is the highest of the starting one and of all ids of the sender so far. */
  lemma {:induction false} LastIdIsHighest(g: Guard, es: seq<Event>, sender: Str, n: nat)
    requires n <= |es|
    ensures var start, last := Peer(g, sender).lastId, PeerAt(g, es, sender, n).lastId;
            && last >= start && (forall i :: 0 <= i < n && es[i].item.sender == sender ==> last >= es[i].item.messageId)
            && (last == start || exists i :: 0 <= i < n && es[i].item.sender == sender && last == es[i].item.messageId)
    decreases n
  {
    if n > 0 {
      LastIdIsHighest(g, es, sender, n - 1);
      var e := es[n - 1];
      if e.item.sender == sender {
        assert PeerAt(g, es, sender, n).lastId == Max(PeerAt(g, es, sender, n - 1).lastId, e.item.messageId);
      }
    }
  }

  lemma NewIdExactly(g: Guard, es: seq<Event>, j: nat)
    requires j < |es|
    ensures es[j].item.messageId > PeerAt(g, es, es[j].item.sender, j).lastId <==>
            && es[j].item.messageId > Peer(g, es[j].item.sender).lastId
            && forall i :: 0 <= i < j && es[i].item.sender == es[j].item.sender ==>
                 es[j].item.messageId > es[i].item.messageId
  {
    LastIdIsHighest(g, es, es[j].item.sender, j);
  }

  /** The starting entries of the sender, then one entry for every processed event. */
  function History(g: Guard, es: seq<Event>, sender: Str, n: nat): seq<Seen>
    requires n <= |es|
  {
    if n == 0 then Peer(g, sender).seen
    else if es[n - 1].item.sender == sender && Processed(g, es, n - 1) then
      History(g, es, sender, n - 1) + [Seen(es[n - 1].item.hash, es[n - 1].now + TTL_SECONDS)]
    else History(g, es, sender, n - 1)
  }

  lemma LastMember(seen: seq<Seen>, n: nat, x: Seen)
    requires x in LastN(seen, n)
    ensures x in seen
  {
  }

  lemma {:induction false} SeenComesFromHistory(g: Guard, es: seq<Event>, sender: Str, n: nat, x: Seen)
    requires n <= |es| && x in PeerAt(g, es, sender, n).seen
    ensures x in History(g, es, sender, n)
    decreases n
  {
    if n == 0 {
      assert es[..0] == [];
    } else {
        var p, e := PeerAt(g, es, sender, n - 1), es[n - 1];
      if e.item.sender == sender {
        SeenAfter(p, e);
        LiveMembers(p.seen, ExpiresAfter(e.now), x);
        if Accepts(p, e) {
          LastMember(Retain(p.seen, e.now) + [Seen(e.item.hash, e.now + TTL_SECONDS)], MAX_SEEN, x);
        }
      }
      if x in p.seen {
        SeenComesFromHistory(g, es, sender, n - 1, x);
      }
    }
  }

  lemma {:induction false} HistoryComesFromEvents(g: Guard, es: seq<Event>, sender: Str, n: nat, x: Seen)
    requires n <= |es| && x in History(g, es, sender, n)
    ensures x in Peer(g, sender).seen
            || exists i :: 0 <= i < n && es[i].item.sender == sender && es[i].item.hash == x.hash
    decreases n
  {
    if n > 0 && x in History(g, es, sender, n - 1) {
      HistoryComesFromEvents(g, es, sender, n - 1, x);
    }
  }

  /** Whatever the clock does: an event whose id is higher than all before it, and whose blob was never
      met before, is processed. */
  lemma NewMessagesAreProcessed(g: Guard, es: seq<Event>, j: nat)
    requires j < |es| && es[j].item.messageId > Peer(g, es[j].item.sender).lastId
    requires forall i :: 0 <= i < j && es[i].item.sender == es[j].item.sender ==>
               es[j].item.messageId > es[i].item.messageId && es[j].item.hash != es[i].item.hash
    requires forall x :: x in Peer(g, es[j].item.sender).seen ==> x.hash != es[j].item.hash
    ensures Processed(g, es, j)
  {
    var sender, hash := es[j].item.sender, es[j].item.hash;
    var p := PeerAt(g, es, sender, j);
    NewIdExactly(g, es, j);
    var live := Retain(p.seen, es[j].now);
    if HasHash(live, hash) {
      var i :| 0 <= i < |live| && live[i].hash == hash;
      LiveMembers(p.seen, ExpiresAfter(es[j].now), live[i]);
      SeenComesFromHistory(g, es, sender, j, live[i]);
      HistoryComesFromEvents(g, es, sender, j, live[i]);
    }
  }

  /** The first event of a sender not met before is processed if and only if its id is positive. */
  lemma FirstContact(g: Guard, es: seq<Event>, j: nat)
    requires j < |es| && es[j].item.sender !in g
    requires forall i :: 0 <= i < j ==> es[i].item.sender != es[j].item.sender
    ensures Processed(g, es, j) <==> es[j].item.messageId > 0
  {
    NewIdExactly(g, es, j);
    if es[j].item.messageId > 0 {
      NewMessagesAreProcessed(g, es, j);
    }
  }

  // ------------------------------------------------------------ with a clock that never goes back

  predicate ClockForward(es: seq<Event>) {
    forall a, b :: 0 <= a < b < |es| ==> es[a].now <= es[b].now
  }

  predicate Ordered(seen: seq<Seen>) {
    forall a, b :: 0 <= a < b < |seen| ==> seen[a].expiresAt <= seen[b].expiresAt
  }

  /** What every guard saved before these events looks like: at most 512 entries, in the order of their
      expiry, none pushed after the events. */
  predicate SavedBefore(p: PeerGuard, es: seq<Event>) {
    && Ordered(p.seen) && |p.seen| <= MAX_SEEN
    && forall k, i :: 0 <= k < |p.seen| && 0 <= i < |es| ==> p.seen[k].expiresAt <= es[i].now + TTL_SECONDS
  }

  lemma {:induction false} HistoryOrdered(g: Guard, es: seq<Event>, sender: Str, n: nat)
    requires n <= |es| && ClockForward(es) && SavedBefore(Peer(g, sender), es)
    ensures var h := History(g, es, sender, n);
            Ordered(h)
            && forall k, i :: 0 <= k < |h| && n <= i < |es| ==> h[k].expiresAt <= es[i].now + TTL_SECONDS
    decreases n
  {
    if n > 0 {
      HistoryOrdered(g, es, sender, n - 1);
    }
  }

  lemma {:induction false} LiveOrdered(seen: seq<Seen>, now: int)
    requires Ordered(seen)
    ensures Ordered(Retain(seen, now)) && |Retain(seen, now)| <= |seen|
  {
    if seen != [] {
      LiveOrdered(seen[1..], now);
      var rest := Retain(seen[1..], now);
      forall b | 0 <= b < |rest| ensures seen[0].expiresAt <= rest[b].expiresAt {
        LiveMembers(seen[1..], ExpiresAfter(now), rest[b]);
      }
    }
  }

  /** No entry outlives the time to live counted from now. */
  predicate ExpireBy(seen: seq<Seen>, now: int) {
    forall k :: 0 <= k < |seen| ==> seen[k].expiresAt <= now + TTL_SECONDS
  }

  lemma StepKeepsOrder(p: PeerGuard, e: Event)
    requires Ordered(p.seen) && |p.seen| <= MAX_SEEN && ExpireBy(p.seen, e.now)
    ensures var seen := NextPeer(p, e).seen; Ordered(seen) && |seen| <= MAX_SEEN && ExpireBy(seen, e.now)
  {
    LiveOrdered(p.seen, e.now);
    SeenAfter(p, e);
    var live := Retain(p.seen, e.now);
    forall k | 0 <= k < |live| ensures live[k].expiresAt <= e.now + TTL_SECONDS {
      LiveMembers(p.seen, ExpiresAfter(e.now), live[k]);
    }
  }

  /** Such guards are all a run ever saves. */
  lemma {:induction false} RunsSaveOrdered(g: Guard, es: seq<Event>, sender: Str, n: nat)
    requires n <= |es| && ClockForward(es) && SavedBefore(Peer(g, sender), es)
    ensures var seen := PeerAt(g, es, sender, n).seen;
            && Ordered(seen) && |seen| <= MAX_SEEN
            && forall i :: (if n == 0 then 0 else n - 1) <= i < |es| ==> ExpireBy(seen, es[i].now)
    decreases n
  {
    if n > 0 {
      RunsSaveOrdered(g, es, sender, n - 1);
      assert ExpireBy(PeerAt(g, es, sender, n - 1).seen, es[n - 1].now);
      StepKeepsOrder(PeerAt(g, es, sender, n - 1), es[n - 1]);
    }
  }

  lemma OrderedIsUpward(seen: seq<Seen>, now: int)
    requires Ordered(seen)
    ensures Upward(seen, ExpiresAfter(now))
  {
  }

  /** Once filtered, the list is what is live among the last 512 entries of the history. */
  lemma {:induction false} SeenIsRecentHistory(g: Guard, es: seq<Event>, sender: Str, n: nat, now: int)
    requires n <= |es| && ClockForward(es) && SavedBefore(Peer(g, sender), es)
    requires forall i :: 0 <= i < n && es[i].item.sender == sender ==> es[i].now <= now
    ensures Retain(PeerAt(g, es, sender, n).seen, now) == Retain(Cap(History(g, es, sender, n)), now)
    decreases n
  {
    if n == 0 {
      assert es[..0] == [];
    } else {
        var e := es[n - 1];
      if e.item.sender != sender {
        SeenIsRecentHistory(g, es, sender, n - 1, now);
      } else {
        SeenIsRecentHistory(g, es, sender, n - 1, e.now);
        RecentAfter(g, es, n, now);
      }
    }
  }

  lemma RecentAfter(g: Guard, es: seq<Event>, n: nat, now: int)
    requires 0 < n <= |es| && ClockForward(es) && SavedBefore(Peer(g, es[n - 1].item.sender), es)
    requires var e := es[n - 1];
             && e.now <= now
             && Retain(PeerAt(g, es, e.item.sender, n - 1).seen, e.now)
                == Retain(Cap(History(g, es, e.item.sender, n - 1)), e.now)
    ensures Retain(PeerAt(g, es, es[n - 1].item.sender, n).seen, now)
            == Retain(Cap(History(g, es, es[n - 1].item.sender, n)), now)
  {
    var e := es[n - 1];
    var sender := e.item.sender;
    HistoryOrdered(g, es, sender, n - 1);
    HistoryOrdered(g, es, sender, n);
    RecentStep(PeerAt(g, es, sender, n - 1), e, History(g, es, sender, n - 1), History(g, es, sender, n), now);
  }

  lemma RecentStep(p: PeerGuard, e: Event, h: seq<Seen>, h': seq<Seen>, now: int)
    requires Retain(p.seen, e.now) == Retain(Cap(h), e.now) && Ordered(h) && Ordered(h') && e.now <= now
    requires h' == if Accepts(p, e) then h + [Seen(e.item.hash, e.now + TTL_SECONDS)] else h
    ensures Retain(NextPeer(p, e).seen, now) == Retain(Cap(h'), now)
  {
    SeenAfter(p, e);
    if Accepts(p, e) {
      OrderedIsUpward(h, e.now);
      OrderedIsUpward(h', now);
      PushKeepsLast(h, Seen(e.item.hash, e.now + TTL_SECONDS), ExpiresAfter(e.now), ExpiresAfter(now), MAX_SEEN);
    } else {
      LiveTwice(Cap(h), ExpiresAfter(e.now), ExpiresAfter(now));
    }
  }

  /** Entry p has the hash, is live, and is among the last 512. */
  predicate LiveEntry(h: seq<Seen>, now: int, hash: Str, p: nat) {
    p < |h| && h[p].hash == hash && h[p].expiresAt > now && |h| - p <= MAX_SEEN
  }

  lemma HasLiveHash(h: seq<Seen>, now: int, hash: Str)
    ensures HasHash(Retain(Cap(h), now), hash) <==> exists p: nat :: LiveEntry(h, now, hash, p)
  {
    var last := Cap(h);
    var live := Retain(last, now);
    if HasHash(live, hash) {
      var i :| 0 <= i < |live| && live[i].hash == hash;
      LiveMembers(last, ExpiresAfter(now), live[i]);
      var q :| 0 <= q < |last| && last[q] == live[i];
      assert LiveEntry(h, now, hash, |h| - |last| + q);
    }
    if p: nat :| LiveEntry(h, now, hash, p) {
      assert last[p - (|h| - |last|)] == h[p];
      LiveMembers(last, ExpiresAfter(now), h[p]);
    }
  }

  lemma {:induction false} HistoryGrows(g: Guard, es: seq<Event>, sender: Str, i: nat, n: nat)
    requires i <= n <= |es|
    ensures var h, h' := History(g, es, sender, i), History(g, es, sender, n);
            |h'| == |h| + ProcessedBetween(g, es, sender, i, n) && h == h'[..|h|]
    decreases n
  {
    if i < n {
      HistoryGrows(g, es, sender, i, n - 1);
    }
  }

  /** Starting entry p has the blob of event j, is unexpired, and fewer than 512 entries are newer. */
  predicate RepeatsStart(g: Guard, es: seq<Event>, j: nat, p: nat)
    requires j < |es|
  {
    var start := Peer(g, es[j].item.sender).seen;
    && p < |start| && start[p].hash == es[j].item.hash && start[p].expiresAt > es[j].now
    && |start| - 1 - p + ProcessedBetween(g, es, es[j].item.sender, 0, j) < MAX_SEEN
  }

  /** Event i of the same sender with the same blob was processed less than 86,400 seconds before event
      j, and fewer than 512 blobs of the sender since. */
  predicate RepeatsEvent(g: Guard, es: seq<Event>, j: nat, i: nat)
    requires j < |es|
  {
    && i < j && es[i].item.sender == es[j].item.sender && es[i].item.hash == es[j].item.hash && Processed(g, es, i)
    && es[j].now < es[i].now + TTL_SECONDS
    && ProcessedBetween(g, es, es[j].item.sender, i + 1, j) < MAX_SEEN
  }

  lemma {:induction false} EntryOfEvent(g: Guard, es: seq<Event>, sender: Str, n: nat, p: nat) returns (i: nat)
    requires n <= |es| && |Peer(g, sender).seen| <= p < |History(g, es, sender, n)|
    ensures i < n && es[i].item.sender == sender && Processed(g, es, i) && |History(g, es, sender, i)| == p
    ensures History(g, es, sender, n)[p] == Seen(es[i].item.hash, es[i].now + TTL_SECONDS)
    decreases n
  {
    if p < |History(g, es, sender, n - 1)| {
      i := EntryOfEvent(g, es, sender, n - 1, p);
    } else {
      i := n - 1;
    }
  }

  lemma StartIsEntry(g: Guard, es: seq<Event>, j: nat, h: seq<Seen>, p: nat)
    requires j < |es| && h == History(g, es, es[j].item.sender, j) && p < |Peer(g, es[j].item.sender).seen|
    ensures RepeatsStart(g, es, j, p) <==> LiveEntry(h, es[j].now, es[j].item.hash, p)
  {
    HistoryGrows(g, es, es[j].item.sender, 0, j);
    assert Peer(g, es[j].item.sender).seen[p] == h[p];
  }

  lemma EventIsEntry(g: Guard, es: seq<Event>, j: nat, h: seq<Seen>, i: nat)
    requires i < j < |es| && h == History(g, es, es[j].item.sender, j)
    requires es[i].item.sender == es[j].item.sender && Processed(g, es, i)
    ensures RepeatsEvent(g, es, j, i) <==>
            LiveEntry(h, es[j].now, es[j].item.hash, |History(g, es, es[j].item.sender, i)|)
  {
    var before, after := History(g, es, es[j].item.sender, i), History(g, es, es[j].item.sender, i + 1);
    HistoryGrows(g, es, es[j].item.sender, i + 1, j);
    assert h[|before|] == after[|before|];
  }

  lemma RepeatedInHistory(g: Guard, es: seq<Event>, j: nat, h: seq<Seen>)
    requires j < |es| && h == History(g, es, es[j].item.sender, j)
    ensures (exists p: nat :: LiveEntry(h, es[j].now, es[j].item.hash, p)) <==>
            (exists p: nat :: RepeatsStart(g, es, j, p)) || (exists i: nat :: RepeatsEvent(g, es, j, i))
  {
    if p: nat :| LiveEntry(h, es[j].now, es[j].item.hash, p) {
      if p < |Peer(g, es[j].item.sender).seen| {
        StartIsEntry(g, es, j, h, p);
      } else {
        var i := EntryOfEvent(g, es, es[j].item.sender, j, p);
        EventIsEntry(g, es, j, h, i);
      }
    }
    if p: nat :| RepeatsStart(g, es, j, p) {
      StartIsEntry(g, es, j, h, p);
    }
    if i: nat :| RepeatsEvent(g, es, j, i) {
      EventIsEntry(g, es, j, h, i);
    }
  }

  /** With a clock that never goes back, an event is processed if and only if its id is higher than the
      starting one and than every earlier one of its sender, and its blob is neither that of an
      unexpired starting entry nor one processed less than 86,400 seconds ago, with fewer than 512
      processed blobs of the sender since. */
  lemma ProcessedExactly(g: Guard, es: seq<Event>, j: nat)
    requires j < |es| && ClockForward(es) && SavedBefore(Peer(g, es[j].item.sender), es)
    ensures Processed(g, es, j) <==>
            && es[j].item.messageId > Peer(g, es[j].item.sender).lastId
            && (forall i :: 0 <= i < j && es[i].item.sender == es[j].item.sender ==>
                  es[j].item.messageId > es[i].item.messageId)
            && (forall p: nat :: !RepeatsStart(g, es, j, p)) && (forall i: nat :: !RepeatsEvent(g, es, j, i))
  {
    var sender := es[j].item.sender;
    var h := History(g, es, sender, j);
    NewIdExactly(g, es, j);
    SeenIsRecentHistory(g, es, sender, j, es[j].now);
    HasLiveHash(h, es[j].now, es[j].item.hash);
    RepeatedInHistory(g, es, j, h);
  }
}
