/** Lists from which expired entries are filtered and whose oldest entries are dropped beyond a limit,
    seen as suffixes of the whole history. */
module Expiring {
  import opened Core

  /** The live entries, in order. */
  function Live<T>(rs: seq<T>, live: T -> bool): (l: seq<T>)
    ensures |l| <= |rs|
  {
    if rs == [] then []
    else if live(rs[0]) then [rs[0]] + Live(rs[1..], live)
    else Live(rs[1..], live)
  }

  function LastN<T>(rs: seq<T>, n: nat): seq<T> {
    if |rs| > n then rs[|rs| - n..] else rs
  }

  /** Whatever follows a live entry is live. */
  ghost predicate Upward<T>(rs: seq<T>, live: T -> bool) {
    forall i, j :: 0 <= i < j < |rs| && live(rs[i]) ==> live(rs[j])
  }

  /** Exactly the entries from k on are live. */
  ghost predicate LiveFrom<T>(rs: seq<T>, live: T -> bool, k: nat) {
    k <= |rs| && forall i :: 0 <= i < |rs| ==> (live(rs[i]) <==> k <= i)
  }

  lemma FirstLive<T>(rs: seq<T>, live: T -> bool) returns (k: nat)
    requires Upward(rs, live)
    ensures LiveFrom(rs, live, k)
  {
    k := 0;
    while k < |rs| && !live(rs[k])
      invariant k <= |rs| && forall i :: 0 <= i < k ==> !live(rs[i])
    {
      k := k + 1;
    }
  }

  /** The live entries of a suffix of the history are a suffix of the history. */
  lemma {:induction false} LiveSuffix<T>(rs: seq<T>, m: nat, live: T -> bool, k: nat)
    requires LiveFrom(rs, live, k) && m <= |rs|
    ensures Live(rs[m..], live) == rs[Max(m, k)..]
    decreases |rs| - m
  {
    if m < |rs| {
      assert rs[m..][0] == rs[m] && rs[m..][1..] == rs[m + 1..];
      LiveSuffix(rs, m + 1, live, k);
      assert [rs[m]] + rs[m + 1..] == rs[m..];
    }
  }

  /** So are its last n entries. */
  lemma LastNSuffix<T>(rs: seq<T>, m: nat, n: nat)
    requires m <= |rs|
    ensures LastN(rs[m..], n) == rs[Max(m, |rs| - n)..]
  {
  }

  lemma LiveOfLast<T>(h: seq<T>, n: nat, live: T -> bool, k: nat)
    requires LiveFrom(h, live, k)
    ensures Live(LastN(h, n), live) == h[Max(Max(0, |h| - n), k)..]
  {
    assert LastN(h, n) == h[Max(0, |h| - n)..];
    LiveSuffix(h, Max(0, |h| - n), live, k);
  }

  lemma PushLast<T>(h: seq<T>, x: T, a: nat, n: nat)
    requires a <= |h|
    ensures LastN(h[a..] + [x], n) == (h + [x])[Max(a, |h| + 1 - n)..]
  {
    assert h[a..] + [x] == (h + [x])[a..];
    LastNSuffix(h + [x], a, n);
  }

  lemma {:induction false} LiveMembers<T>(rs: seq<T>, live: T -> bool, x: T)
    ensures x in Live(rs, live) <==> x in rs && live(x)
  {
    if rs != [] { LiveMembers(rs[1..], live, x); }
  }

  /** Filtering again by a stronger test is filtering by that test. */
  lemma {:induction false} LiveTwice<T>(rs: seq<T>, live: T -> bool, later: T -> bool)
    requires forall i :: 0 <= i < |rs| && later(rs[i]) ==> live(rs[i])
    ensures Live(Live(rs, live), later) == Live(rs, later)
  {
    if rs != [] { LiveTwice(rs[1..], live, later); }
  }

  lemma FirstLiveGrows<T>(h: seq<T>, x: T, live: T -> bool, later: T -> bool, k: nat, k': nat)
    requires LiveFrom(h, live, k) && LiveFrom(h + [x], later, k')
    requires forall i :: 0 <= i < |h| && later(h[i]) ==> live(h[i])
    ensures k <= k'
  {
    assert k' < |h| ==> (h + [x])[k'] == h[k'];
  }

  lemma LiveOfPushed<T>(h: seq<T>, x: T, h': seq<T>, a: nat, n: nat, later: T -> bool, k: nat)
    requires a <= |h| && h' == h + [x] && LiveFrom(h', later, k)
    ensures Live(LastN(h[a..] + [x], n), later) == h'[Max(Max(a, |h'| - n), k)..]
  {
    PushLast(h, x, a, n);
    LiveSuffix(h', Max(a, |h'| - n), later, k);
  }

  /** Filtering at every step and keeping the last n after every push gives, once filtered, the live
      ones of the last n of the whole history. */
  lemma PushKeepsLast<T>(h: seq<T>, x: T, live: T -> bool, later: T -> bool, n: nat)
    requires Upward(h, live) && Upward(h + [x], later)
    requires forall i :: 0 <= i < |h| && later(h[i]) ==> live(h[i])
    ensures Live(LastN(Live(LastN(h, n), live) + [x], n), later) == Live(LastN(h + [x], n), later)
  {
    var h' := h + [x];
    var k := FirstLive(h, live);
    var k' := FirstLive(h', later);
    FirstLiveGrows(h, x, live, later, k, k');
    LiveOfLast(h, n, live, k);
    LiveOfPushed(h, x, h', Max(Max(0, |h| - n), k), n, later, k');
    LiveOfLast(h', n, later, k');
  }
}
