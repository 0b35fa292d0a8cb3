/** The local message archive: bounded, expiring, and rewritten on every append. */
module Archive {
  import opened Core
  import opened Text
  import opened Expiring

  type i64 = n: int | -0x8000_0000_0000_0000 <= n < 0x8000_0000_0000_0000

  const MAX_HISTORY: nat := 10_000

  datatype Record = Record(messageId: i64, peer: Str, direction: Str, text: Str, storedAt: i64, expiresAt: i64)

  function SaturatingAdd(a: i64, b: i64): i64 {
    if a + b < -0x8000_0000_0000_0000 then -0x8000_0000_0000_0000
    else if a + b > 0x7FFF_FFFF_FFFF_FFFF then 0x7FFF_FFFF_FFFF_FFFF
    else a + b
  }

  predicate Unexpired(r: Record, now: i64) {
    r.expiresAt > 0 && r.expiresAt > now
  }

  function UnexpiredAt(now: i64): Record -> bool {
    r => Unexpired(r, now)
  }

  /** The last 10,000 of the unexpired records. */
  function Prune(rs: seq<Record>, now: i64): seq<Record> {
    LastN(Live(rs, UnexpiredAt(now)), MAX_HISTORY)
  }

  /** One append: the record and the three clock readings made on the way (load, stamp, prune).
      The stamp is used only if the record has no positive time of its own. */
  datatype Event = Event(record: Record, loadAt: i64, stampAt: i64, pruneAt: i64)

  function StampTime(e: Event): i64 {
    if e.record.storedAt <= 0 then e.stampAt else e.record.storedAt
  }

  function Stamped(e: Event, retention: i64): Record {
    e.record.(storedAt := StampTime(e), expiresAt := SaturatingAdd(StampTime(e), retention))
  }

  function Append(rs: seq<Record>, e: Event, retention: i64): seq<Record> {
    Prune(Prune(rs, e.loadAt) + [Stamped(e, retention)], e.pruneAt)
  }

  /** The archive after a list of appends, starting empty. */
  function Stored(es: seq<Event>, retention: i64): seq<Record> {
    if es == [] then [] else Append(Stored(es[..|es| - 1], retention), es[|es| - 1], retention)
  }

  /** Everything ever appended. */
  function Everything(es: seq<Event>, retention: i64): (h: seq<Record>)
    ensures |h| == |es|
  {
    seq(|es|, i requires 0 <= i < |es| => Stamped(es[i], retention))
  }

  class MessageStore {
    var retention: i64
    var messages: seq<Record>

    constructor (retention: i64)
      ensures this.retention == retention && messages == []
    {
      this.retention := retention;
      messages := [];
    }

    method PruneStore(now: i64)
      modifies this`messages
      ensures messages == Prune(old(messages), now)
    {
      var all := messages;
      var kept: seq<Record> := [];
      ghost var live := UnexpiredAt(now);
      assert all[0..] == all;
      for i := 0 to |all|
        invariant Live(all, live) == kept + Live(all[i..], live)
      {
        assert all[i..][0] == all[i] && all[i..][1..] == all[i + 1..];
        if all[i].expiresAt > 0 && all[i].expiresAt > now {
          assert kept + ([all[i]] + Live(all[i + 1..], live)) == kept + [all[i]] + Live(all[i + 1..], live);
          kept := kept + [all[i]];
        }
      }
      assert kept + Live(all[|all|..], live) == kept;
      messages := kept;
      if |messages| > MAX_HISTORY {
        var overflow := |messages| - MAX_HISTORY;
        messages := messages[overflow..];
      }
    }

    method AppendRecord(e: Event)
      modifies this`messages
      ensures messages == Append(old(messages), e, retention)
    {
      PruneStore(e.loadAt);
      var record := e.record;
      if record.storedAt <= 0 {
        record := record.(storedAt := e.stampAt);
      }
      record := record.(expiresAt := SaturatingAdd(record.storedAt, retention));
      messages := messages + [record];
      PruneStore(e.pruneAt);
    }

    /** Deletes by peer and id bound; returns the positive ids deleted, sorted and without
        repetition. */
    method DeleteRecords(peer: Option<Str>, before: Option<i64>) returns (ids: seq<i64>)
      modifies this`messages
      ensures messages == Kept(old(messages), peer, before)
      ensures Increasing(ids)
      ensures forall k :: k in ids <==> DroppedId(old(messages), peer, before, k)
    {
      var all := messages;
      var kept: seq<Record> := [];
      var deleted: seq<i64> := [];
      assert all[0..] == all;
      for i := 0 to |all|
        invariant Kept(all, peer, before) == kept + Kept(all[i..], peer, before)
        invariant Dropped(all, peer, before) == deleted + Dropped(all[i..], peer, before)
      {
        KeptAt(all, peer, before, i, kept);
        DroppedAt(all, peer, before, i, deleted);
        if Selected(all[i], peer, before) {
          if all[i].messageId > 0 {
            deleted := deleted + [all[i].messageId];
          }
        } else {
          kept := kept + [all[i]];
        }
      }
      assert kept + Kept(all[|all|..], peer, before) == kept;
      assert deleted + Dropped(all[|all|..], peer, before) == deleted;
      messages := kept;
      DroppedMeaning(all, peer, before);
      ids := NormalizeIds(deleted);
    }
  }

  // ------------------------------------------------------------ deletion

  predicate Selected(r: Record, peer: Option<Str>, before: Option<i64>) {
    (peer.Some? ==> r.peer == peer.value) && (before.Some? ==> r.messageId <= before.value)
  }

  function Kept(rs: seq<Record>, peer: Option<Str>, before: Option<i64>): seq<Record> {
    if rs == [] then []
    else if Selected(rs[0], peer, before) then Kept(rs[1..], peer, before)
    else [rs[0]] + Kept(rs[1..], peer, before)
  }

  /** The positive ids of the selected records. */
  function Dropped(rs: seq<Record>, peer: Option<Str>, before: Option<i64>): seq<i64> {
    if rs == [] then []
    else if Selected(rs[0], peer, before) && rs[0].messageId > 0 then [rs[0].messageId] + Dropped(rs[1..], peer, before)
    else Dropped(rs[1..], peer, before)
  }

  lemma KeptAt(rs: seq<Record>, peer: Option<Str>, before: Option<i64>, i: nat, kept: seq<Record>)
    requires i < |rs|
    ensures kept + Kept(rs[i..], peer, before) ==
            (if Selected(rs[i], peer, before) then kept else kept + [rs[i]]) + Kept(rs[i + 1..], peer, before)
  {
  }

  lemma DroppedAt(rs: seq<Record>, peer: Option<Str>, before: Option<i64>, i: nat, deleted: seq<i64>)
    requires i < |rs|
    ensures deleted + Dropped(rs[i..], peer, before) ==
            (if Selected(rs[i], peer, before) && rs[i].messageId > 0 then deleted + [rs[i].messageId] else deleted)
            + Dropped(rs[i + 1..], peer, before)
  {
  }

  ghost predicate DroppedId(rs: seq<Record>, peer: Option<Str>, before: Option<i64>, k: i64) {
    k > 0 && exists r :: r in rs && Selected(r, peer, before) && r.messageId == k
  }

  lemma {:induction false} DroppedMeaning(rs: seq<Record>, peer: Option<Str>, before: Option<i64>)
    ensures forall k :: k in Dropped(rs, peer, before) <==> DroppedId(rs, peer, before, k)
  {
    if rs != [] {
      DroppedMeaning(rs[1..], peer, before);
      assert forall r :: r in rs <==> r == rs[0] || r in rs[1..];
    }
  }

  predicate Increasing(ids: seq<i64>) {
    forall i, j :: 0 <= i < j < |ids| ==> ids[i] < ids[j]
  }

  predicate NonDecreasing(ids: seq<i64>) {
    forall i, j :: 0 <= i < j < |ids| ==> ids[i] <= ids[j]
  }

  function InsertId(ids: seq<i64>, x: i64): seq<i64> {
    if ids == [] then [x]
    else if x <= ids[0] then [x] + ids
    else [ids[0]] + InsertId(ids[1..], x)
  }

  function SortIds(ids: seq<i64>): seq<i64> {
    if ids == [] then [] else InsertId(SortIds(ids[1..]), ids[0])
  }

  lemma {:induction false} InsertIdSorted(ids: seq<i64>, x: i64)
    requires NonDecreasing(ids)
    ensures NonDecreasing(InsertId(ids, x)) && forall k :: k in InsertId(ids, x) <==> k in ids || k == x
  {
    if ids != [] && x > ids[0] {
      InsertIdSorted(ids[1..], x);
      var t := InsertId(ids[1..], x);
      forall j | 0 <= j < |t| ensures ids[0] <= t[j] { assert t[j] in t; }
    }
  }

  lemma {:induction false} SortIdsSorted(ids: seq<i64>)
    ensures NonDecreasing(SortIds(ids)) && forall k :: k in SortIds(ids) <==> k in ids
  {
    if ids != [] {
      SortIdsSorted(ids[1..]);
      InsertIdSorted(SortIds(ids[1..]), ids[0]);
    }
  }

  /** Sort, then drop adjacent repetitions. */
  method NormalizeIds(given: seq<i64>) returns (ids: seq<i64>)
    ensures Increasing(ids) && forall k :: k in ids <==> k in given
  {
    var sorted := SortIds(given);
    SortIdsSorted(given);
    ids := [];
    for i := 0 to |sorted|
      invariant Increasing(ids) && (i == 0 ==> ids == [])
      invariant forall k :: k in ids <==> k in sorted[..i]
      invariant i > 0 ==> ids != [] && ids[|ids| - 1] == sorted[i - 1]
    {
      assert sorted[..i + 1] == sorted[..i] + [sorted[i]];
      if ids == [] || ids[|ids| - 1] != sorted[i] {
        assert ids != [] ==> ids[|ids| - 1] < sorted[i];
        ids := ids + [sorted[i]];
      }
    }
    assert sorted[..|sorted|] == sorted;
  }

  // ------------------------------------------------------------ the archive is the simple one

  /** Each append reads the clock in order, and no later reading is earlier. */
  predicate ClockForward(es: seq<Event>) {
    && (forall i :: 0 <= i < |es| ==> es[i].record.storedAt <= es[i].loadAt <= es[i].stampAt <= es[i].pruneAt)
    && (forall i :: 0 < i < |es| ==>
          && es[i - 1].pruneAt <= es[i].loadAt
          && (es[i].record.storedAt > 0 ==> es[i - 1].pruneAt <= es[i].record.storedAt))
  }

  predicate ExpiryForward(rs: seq<Record>) {
    forall i, j :: 0 <= i < j < |rs| ==> rs[i].expiresAt <= rs[j].expiresAt
  }

  lemma {:induction false} StampsForward(es: seq<Event>, i: nat, j: nat)
    requires ClockForward(es) && i < j < |es|
    ensures StampTime(es[i]) <= es[i].pruneAt <= StampTime(es[j])
    decreases j
  {
    assert es[j - 1].pruneAt <= StampTime(es[j]);
    if i < j - 1 {
      StampsForward(es, i, j - 1);
      assert StampTime(es[j - 1]) <= es[j - 1].pruneAt;
    }
  }

  /** With a fixed retention and a clock that does not go back, expiry times do not go back. */
  lemma ExpiriesForward(es: seq<Event>, retention: i64)
    requires ClockForward(es)
    ensures ExpiryForward(Everything(es, retention))
  {
    var h := Everything(es, retention);
    forall i, j | 0 <= i < j < |h| ensures h[i].expiresAt <= h[j].expiresAt {
      StampsForward(es, i, j);
    }
  }

  lemma ForwardIsUpward(rs: seq<Record>, now: i64)
    requires ExpiryForward(rs)
    ensures Upward(rs, UnexpiredAt(now))
  {
  }

  lemma ForwardPrefix(h: seq<Record>, r: Record)
    requires ExpiryForward(h + [r])
    ensures ExpiryForward(h)
  {
    forall i, j | 0 <= i < j < |h| ensures h[i].expiresAt <= h[j].expiresAt {
      assert (h + [r])[i].expiresAt <= (h + [r])[j].expiresAt;
    }
  }

  lemma PruneSlice(h: seq<Record>, m: nat, now: i64, k: nat)
    requires LiveFrom(h, UnexpiredAt(now), k) && m <= |h|
    ensures Prune(h[m..], now) == h[Max(Max(m, k), |h| - MAX_HISTORY)..]
  {
    LiveSuffix(h, m, UnexpiredAt(now), k);
    LastNSuffix(h, Max(m, k), MAX_HISTORY);
  }

  lemma PruneWhole(h: seq<Record>, now: i64, k: nat)
    requires LiveFrom(h, UnexpiredAt(now), k)
    ensures Prune(h, now) == h[Max(k, |h| - MAX_HISTORY)..]
  {
    PruneSlice(h, 0, now, k);
    assert h[0..] == h;
  }

  lemma PruneOfPush(h: seq<Record>, m: nat, r: Record, h': seq<Record>, now: i64, k: nat)
    requires m <= |h| && h' == h + [r] && LiveFrom(h', UnexpiredAt(now), k)
    ensures Prune(h[m..] + [r], now) == h'[Max(Max(m, k), |h'| - MAX_HISTORY)..]
  {
    assert h[m..] + [r] == h'[m..];
    PruneSlice(h', m, now, k);
  }

  /** One append on a pruned history gives the pruned longer history. */
  lemma AppendStep(h: seq<Record>, t: i64, e: Event, retention: i64, r: Record, h': seq<Record>)
    requires r == Stamped(e, retention) && h' == h + [r] && ExpiryForward(h') && t <= e.loadAt <= e.pruneAt
    ensures Append(Prune(h, t), e, retention) == Prune(h', e.pruneAt)
  {
    ForwardPrefix(h, r);
    ForwardIsUpward(h, t);
    ForwardIsUpward(h, e.loadAt);
    ForwardIsUpward(h', e.pruneAt);
    var k0 := FirstLive(h, UnexpiredAt(t));
    var k1 := FirstLive(h, UnexpiredAt(e.loadAt));
    var k2 := FirstLive(h', UnexpiredAt(e.pruneAt));
    FirstLiveGrows(h, r, UnexpiredAt(t), UnexpiredAt(e.pruneAt), k0, k2);
    FirstLiveGrows(h, r, UnexpiredAt(e.loadAt), UnexpiredAt(e.pruneAt), k1, k2);
    PruneWhole(h, t, k0);
    var m := Max(k0, |h| - MAX_HISTORY);
    PruneSlice(h, m, e.loadAt, k1);
    var m' := Max(Max(m, k1), |h| - MAX_HISTORY);
    PruneOfPush(h, m', r, h', e.pruneAt, k2);
    PruneWhole(h', e.pruneAt, k2);
  }

  /** With a fixed retention and a clock that never goes back, the archive after any number of
      appends is the last 10,000 unexpired records of everything ever appended, in order. */
  lemma {:induction false} ArchiveIsLastUnexpired(es: seq<Event>, retention: i64)
    requires ClockForward(es) && es != []
    ensures Stored(es, retention)
            == LastN(Live(Everything(es, retention), UnexpiredAt(es[|es| - 1].pruneAt)), MAX_HISTORY)
  {
    var before, e := es[..|es| - 1], es[|es| - 1];
    var h, h' := Everything(before, retention), Everything(es, retention);
    assert h' == h + [Stamped(e, retention)];
    ExpiriesForward(es, retention);
    if before == [] {
      AppendStep(h, e.loadAt, e, retention, Stamped(e, retention), h');
    } else {
      assert ClockForward(before);
      ArchiveIsLastUnexpired(before, retention);
      assert es[|es| - 2].pruneAt <= e.loadAt;
      AppendStep(h, before[|before| - 1].pruneAt, e, retention, Stamped(e, retention), h');
    }
  }

  lemma LastExpiry(e: Event, retention: i64, now: i64)
    ensures Unexpired(Stamped(e, retention), now) <==>
            StampTime(e) + retention > 0 && StampTime(e) + retention > now && now < 0x7FFF_FFFF_FFFF_FFFF
  {
  }

  /** The record of append i is in the archive, as it was given, if and only if the retention has not
      passed since it was stored and fewer than 10,000 records were appended after it. */
  lemma RecordStaysUntil(es: seq<Event>, retention: i64, i: nat)
    requires ClockForward(es) && i < |es|
    ensures var rs, now := Stored(es, retention), es[|es| - 1].pruneAt;
            var stored := if es[i].record.storedAt > 0 then es[i].record.storedAt else es[i].stampAt;
            var place := |rs| - (|es| - i);
            && (place >= 0 <==> && stored + retention > 0 && stored + retention > now && now < 0x7FFF_FFFF_FFFF_FFFF
                                && |es| - i <= MAX_HISTORY)
            && (place >= 0 ==> && rs[place].messageId == es[i].record.messageId && rs[place].peer == es[i].record.peer
                               && rs[place].direction == es[i].record.direction && rs[place].text == es[i].record.text
                               && rs[place].storedAt == stored
                               && rs[place].expiresAt == SaturatingAdd(stored, retention))
  {
    var h, now := Everything(es, retention), es[|es| - 1].pruneAt;
    ArchiveIsLastUnexpired(es, retention);
    ExpiriesForward(es, retention);
    ForwardIsUpward(h, now);
    var k := FirstLive(h, UnexpiredAt(now));
    PruneWhole(h, now, k);
    LastExpiry(es[i], retention, now);
    assert UnexpiredAt(now)(h[i]) <==> k <= i;
  }

  /** Deleting by peer and id bound keeps a record if and only if it is of another peer or beyond the
      bound. */
  lemma {:induction false} KeepsExactly(rs: seq<Record>, peer: Option<Str>, before: Option<i64>, r: Record)
    ensures r in Kept(rs, peer, before) <==>
            r in rs && ((peer.Some? && r.peer != peer.value) || (before.Some? && r.messageId > before.value))
  {
    if rs != [] {
      KeepsExactly(rs[1..], peer, before, r);
    }
  }
}
